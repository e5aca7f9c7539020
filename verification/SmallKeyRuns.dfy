/** Runs of puts and deletes that cannot fail: keys short enough for every overfull node to halve. */
module SmallKeyRuns {
  import opened Bytes
  import opened NodeLayout
  import opened Leaves
  import opened LeafAccess
  import opened Internals
  import opened KeyBounds
  import opened Splitting
  import opened Trees

  ghost predicate SmallRecords(rs: seq<Record>, k: nat)
  {
    forall j :: 0 <= j < |rs| ==> |rs[j].key| <= k
  }

  ghost predicate SmallKeys(t: Tree, k: nat)
  {
    match t
    case LeafTree(rs) => SmallRecords(rs, k)
    case InnerTree(node) =>
      SeparatorsUpTo(node.entries, k) && forall j :: 0 <= j <= |node.entries| ==> SmallKeys(ChildAt(node, j), k)
  }

  ghost predicate SmallGrown(g: Grown, k: nat)
  {
    match g
    case One(t) => SmallKeys(t, k)
    case Two(left, separator, right) => SmallKeys(left, k) && |separator| <= k && SmallKeys(right, k)
  }

  lemma SmallInner(node: Internal<Tree>, k: nat)
    ensures SmallKeys(InnerTree(node), k) <==>
            SeparatorsUpTo(node.entries, k) && forall j :: 0 <= j <= |node.entries| ==> SmallKeys(ChildAt(node, j), k)
  {
  }

  /** Whatever a parent becomes, its keys stay small. */
  lemma ParentKeepsSmall(node: Internal<Tree>, i: nat, g: Grown, k: nat, cap: nat)
    requires i <= |node.entries| && SmallKeys(InnerTree(node), k) && SmallGrown(g, k)
    ensures var r := GrowParent(node, i, g, cap);
            r.Grew? ==> SmallGrown(r.grown, k)
  {
    hide InternalFits, Absorb, WithChild, Halves;
    match g
    case One(t) =>
      SmallWithChild(node, i, t, k);
    case Two(l, separator, r) =>
      SmallAbsorb(node, i, l, separator, r, k);
      AbsorbEntries(node, i, l, separator, r);
      SmallHalves(Absorb(node, i, l, separator, r), k);
  }

  /** A parent with keys within the bound takes whatever its child became. */
  lemma SmallParent(node: Internal<Tree>, i: nat, g: Grown, lo: Bound, hi: Bound, h: nat, k: nat, cap: nat)
    requires LegalCapacity(cap) && k <= KeyBound(cap) && i <= |node.entries| && h > 0
    requires Sound(InnerTree(node), lo, hi, h, cap) && SmallKeys(InnerTree(node), k) && SmallGrown(g, k)
    requires SoundGrown(g, LowerOf(node.entries, lo, i), UpperOf(node.entries, hi, i), h - 1, cap)
    ensures GrowParent(node, i, g, cap).Grew?
  {
    hide InternalFits, Sound, Lt, KeyBound, Absorb, WithChild;
    NodeFits(node, lo, hi, h, cap);
    SoundByChildren(node, lo, hi, h, cap);
    if g.Two? {
      SeparatorIsBetween(node, i, g.separator, lo, hi);
      AbsorbedHalves(node, i, g.left, g.separator, g.right, k, cap);
    }
  }

  lemma SmallWithChild(node: Internal<Tree>, i: nat, c: Tree, k: nat)
    requires SmallKeys(InnerTree(node), k) && SmallKeys(c, k) && i <= |node.entries|
    ensures SmallKeys(InnerTree(WithChild(node, i, c)), k)
  {
    hide SmallKeys;
    var n := WithChild(node, i, c);
    SmallInner(node, k);
    SmallInner(n, k);
    forall j | 0 <= j <= |n.entries| ensures SmallKeys(ChildAt(n, j), k) {
      assert ChildAt(n, j) == if j == i then c else ChildAt(node, j);
    }
  }

  lemma SmallAbsorb(node: Internal<Tree>, i: nat, l: Tree, separator: seq<byte>, r: Tree, k: nat)
    requires SmallKeys(InnerTree(node), k) && SmallKeys(l, k) && SmallKeys(r, k) && |separator| <= k
    requires i <= |node.entries|
    ensures SmallKeys(InnerTree(Absorb(node, i, l, separator, r)), k)
  {
    hide Absorb, SmallKeys;
    var n := Absorb(node, i, l, separator, r);
    SmallInner(node, k);
    SmallInner(n, k);
    AbsorbEntries(node, i, l, separator, r);
    forall j | 0 <= j <= |n.entries| ensures SmallKeys(ChildAt(n, j), k) {
      AbsorbChild(node, i, l, separator, r, j);
    }
  }

  lemma SmallHalves(n: Internal<Tree>, k: nat)
    requires SmallKeys(InnerTree(n), k) && n.entries != []
    ensures var (a, b, promoted) := Halves(n);
            SmallKeys(InnerTree(a), k) && |promoted| <= k && SmallKeys(InnerTree(b), k)
  {
    hide SmallKeys, ChildAt;
    var (a, b, promoted) := Halves(n);
    SmallInner(n, k);
    assert SeparatorsUpTo(a.entries, k) && SeparatorsUpTo(b.entries, k) && |promoted| <= k;
    hide Halves, SeparatorsUpTo;
    forall j | 0 <= j <= |a.entries| ensures SmallKeys(ChildAt(a, j), k) { LeftHalfChild(n, j); }
    forall j | 0 <= j <= |b.entries| ensures SmallKeys(ChildAt(b, j), k) { RightHalfChild(n, j); }
    SmallInner(a, k);
    SmallInner(b, k);
  }

  lemma SmallUpserted(rs: seq<Record>, x: Record, k: nat)
    requires SmallRecords(rs, k) && |x.key| <= k
    ensures SmallRecords(Upserted(rs, x), k)
  {
    hide Below, Lt;
  }

  /** An overfull leaf one half-sized upsert away from fitting splits into two that fit. */
  lemma UpsertSplits(rs: seq<Record>, x: Record, cap: nat)
    requires Sorted(rs) && SliceFits(rs, cap) && SliceFits([x], cap) && 2 * Cost(x) <= Usable(cap)
    requires !SliceFits(Upserted(rs, x), cap)
    ensures Sorted(Upserted(rs, x)) && |Upserted(rs, x)| >= 2
    ensures Settles(Upserted(rs, x), cap) && Splittable(Upserted(rs, x), cap)
  {
    hide *;
    UpsertedIsPut(rs, x);
    OverfullHasTwo(rs, x, cap);
    var was := UpsertedAround(rs, x);
    HalfSizedUpsertSplits(rs[..Below(rs, x.key)], was, x, rs[Through(rs, x.key)..], cap, false);
  }

  lemma UpsertedAround(rs: seq<Record>, x: Record) returns (was: Option<Record>)
    ensures var a, b := rs[..Below(rs, x.key)], rs[Through(rs, x.key)..];
            && Upserted(rs, x) == a + [x] + b
            && (was.None? ==> rs == a + b)
            && (was.Some? ==> was.value.key == x.key && rs == a + [was.value] + b)
  {
    hide Below, Lt;
    var b, t := Below(rs, x.key), Through(rs, x.key);
    was := if b < t then Some(rs[b]) else None;
  }

  /** A half-sized record in a fitting leaf: the leaf takes it, or splits into two that fit. */
  lemma SmallLeafPut(rs: seq<Record>, x: Record, cap: nat)
    requires Sorted(rs) && SliceFits(rs, cap) && 2 * Cost(x) <= Usable(cap) && SliceFits([x], cap)
    ensures PutLeaf(rs, x, cap).Grew?
  {
    hide SliceFits, Settles, StopFrom, Lt, Below, Cost, Usable, Upserted, Splittable, Sorted, Turn;
    var up := Upserted(rs, x);
    if !SliceFits(up, cap) {
      UpsertSplits(rs, x, cap);
      var monotonic := rs != [] && Lt(rs[|rs| - 1].key, x.key);
      StopIsGood(up, cap, StopFrom(up, cap, Guess(|up|, monotonic)));
    }
  }

  lemma LeafKeepsSmall(rs: seq<Record>, x: Record, k: nat, cap: nat)
    requires Sorted(rs) && SliceFits([x], cap) && SmallRecords(rs, k) && |x.key| <= k
    ensures var r := PutLeaf(rs, x, cap);
            r.Grew? ==> SmallGrown(r.grown, k)
  {
    hide SliceFits, Settles, StopFrom, Lt, Below, Upserted, Sorted;
    SmallUpserted(rs, x, k);
  }

  /** A put of a small key leaves only small keys and separators. */
  lemma {:induction false} PutKeepsSmall(t: Tree, x: Record, k: nat, cap: nat, lo: Bound, hi: Bound)
    requires Ordered(t, lo, hi) && SliceFits([x], cap) && SmallKeys(t, k) && |x.key| <= k
    ensures var r := PutIn(t, x, cap, lo, hi);
            r.Grew? ==> SmallGrown(r.grown, k)
    decreases t
  {
    hide SliceFits, PutLeaf, GrowParent, Lt, Rank, SmallGrown;
    match t
    case LeafTree(rs) => LeafKeepsSmall(rs, x, k, cap);
    case InnerTree(node) =>
      var i := Rank(node.entries, x.key);
      var below, above := LowerOf(node.entries, lo, i), UpperOf(node.entries, hi, i);
      PutKeepsSmall(ChildAt(node, i), x, k, cap, below, above);
      var r := PutIn(ChildAt(node, i), x, cap, below, above);
      if r.Grew? { ParentKeepsSmall(node, i, r.grown, k, cap); }
  }

  lemma {:induction false} SmallPut(t: Tree, x: Record, k: nat, cap: nat, lo: Bound, hi: Bound, h: nat)
    requires LegalCapacity(cap) && k <= KeyBound(cap) && SliceFits([x], cap)
    requires Sound(t, lo, hi, h, cap) && SmallKeys(t, k) && AtLeast(lo, x.key) && Under(x.key, hi)
    requires |x.key| <= k && 2 * Cost(x) <= Usable(cap)
    ensures PutIn(t, x, cap, lo, hi).Grew?
    decreases t
  {
    hide SliceFits, PutLeaf, GrowParent, Lt, Rank, InternalFits, Cost, Usable, SmallGrown, SoundGrown, LookupGrown, KeyBound;
    match t
    case LeafTree(rs) => SmallLeafPut(rs, x, cap);
    case InnerTree(node) =>
      var i := Rank(node.entries, x.key);
      var below, above := LowerOf(node.entries, lo, i), UpperOf(node.entries, hi, i);
      KeyInChild(node, x.key, lo, hi);
      SmallPut(ChildAt(node, i), x, k, cap, below, above, h - 1);
      PutKeepsSmall(ChildAt(node, i), x, k, cap, below, above);
      PutLaws(ChildAt(node, i), x, cap, below, above, h - 1, x.key);
      SmallParent(node, i, PutIn(ChildAt(node, i), x, cap, below, above).grown, lo, hi, h, k, cap);
  }

  lemma {:induction false} SmallDelete(t: Tree, key: seq<byte>, k: nat)
    requires SmallKeys(t, k)
    ensures SmallKeys(DeleteIn(t, key), k)
  {
    hide Rank, Lt;
    match t
    case LeafTree(rs) =>
    case InnerTree(node) =>
      var i := Rank(node.entries, key);
      SmallDelete(ChildAt(node, i), key, k);
      SmallWithChild(node, i, DeleteIn(ChildAt(node, i), key), k);
  }

  /** A put of a key of at most `k` bytes, with a value as the write path stores it, or a delete. */
  ghost predicate SmallOp(op: Op, k: nat, pageSize: nat)
  {
    op.PutOp? ==>
      && |op.record.key| <= k
      && (op.record.value.Inline? ==> |op.record.value.bytes| <= pageSize / 4)
  }

  ghost predicate SmallOps(ops: seq<Op>, k: nat, pageSize: nat)
  {
    forall i :: 0 <= i < |ops| ==> SmallOp(ops[i], k, pageSize)
  }

  lemma SmallRoot(g: Grown, k: nat, cap: nat)
    requires SmallGrown(g, k) && k + 12 <= Usable(cap)
    ensures NewRoot(g, cap).Ok? && SmallKeys(NewRoot(g, cap).value, k)
  {
    if g.Two? {
      var root := Internal(g.left, [Entry(g.separator, g.right)]);
      OneWeight(root.entries[0]);
    }
  }

  /** One operation with a small key: if the put below the root returns, so does the operation, and keys stay small. */
  lemma ApplyKeepsSmall(t: Tree, op: Op, k: nat, cap: nat)
    requires LegalCapacity(cap) && Good(t, cap) && SmallKeys(t, k) && k + 12 <= Usable(cap)
    requires op.PutOp? && Accepted(op.record, cap) ==> |op.record.key| <= k
    ensures Ordered(t, None, None)
    ensures var r := Apply(t, op, cap);
            && (r.Ok? ==> SmallKeys(r.value, k))
            && (op.PutOp? && SliceFits([op.record], cap) && PutIn(t, op.record, cap, None, None).Grew? ==> r.Ok?)
  {
    hide Sound, SliceFits, SmallKeys, PutIn, DeleteIn, Ordered, Accepted, Usable, NewRoot, SmallGrown;
    var h: nat :| Sound(t, None, None, h, cap);
    SoundIsOrdered(t, h, cap);
    match op
    case PutOp(x) =>
      AcceptedFits(x, cap);
      if Accepted(x, cap) {
        PutKeepsSmall(t, x, k, cap, None, None);
        var r := PutIn(t, x, cap, None, None);
        if r.Grew? { SmallRoot(r.grown, k, cap); }
      }
    case DeleteOp(key) => SmallDelete(t, key, k);
  }

  lemma SmallApply(t: Tree, op: Op, k: nat, pageSize: nat)
    requires LegalPageSize(pageSize) && Good(t, BodyCapacity(pageSize)) && SmallOp(op, k, pageSize)
    requires k <= KeyBound(BodyCapacity(pageSize)) && SmallKeys(t, k)
    ensures var r := Apply(t, op, BodyCapacity(pageSize));
            r.Ok? && SmallKeys(r.value, k)
  {
    hide Sound, SliceFits, SmallKeys, PutIn, DeleteIn, Apply, Ordered;
    var cap := BodyCapacity(pageSize);
    var h: nat :| Sound(t, None, None, h, cap);
    ApplyKeepsSmall(t, op, k, cap);
    match op
    case PutOp(x) =>
      AloneFits(x, cap);
      SmallPut(t, x, k, cap, None, None, h);
    case DeleteOp(key) => DeleteReturns(t, key, cap);
  }

  lemma DeleteReturns(t: Tree, key: seq<byte>, cap: nat)
    requires LegalCapacity(cap) && Good(t, cap)
    ensures Apply(t, DeleteOp(key), cap).Ok?
  {
  }

  // ---------------------------------------------------------------------
  // The new root
  // ---------------------------------------------------------------------

  /** The longest key the preflight lets through. */
  function LongestKey(cap: nat): nat
    requires LegalCapacity(cap)
  {
    cap - HEADER_LEN - 12
  }

  lemma {:induction false} RunKeysFitASeparator(ops: seq<Op>, cap: nat)
    requires LegalCapacity(cap) && Run(ops, cap).Ok?
    ensures SmallKeys(Run(ops, cap).value, LongestKey(cap))
  {
    hide Represents, Apply, MapOf, Good;
    if ops != [] {
      var init, op := ops[..|ops| - 1], ops[|ops| - 1];
      RunKeysFitASeparator(init, cap);
      RepresentsIsGood(Run(init, cap).value, MapOf(init, cap), cap);
      if op.PutOp? { AcceptedFits(op.record, cap); }
      ApplyKeepsSmall(Run(init, cap).value, op, LongestKey(cap), cap);
    }
  }

  /** After every run, a put that returns from below the root returns: no new root over one separator is refused. */
  lemma NewRootFits(ops: seq<Op>, x: Record, cap: nat)
    requires LegalCapacity(cap) && Run(ops, cap).Ok? && SliceFits([x], cap)
    ensures var t := Run(ops, cap).value;
            && Good(t, cap) && Ordered(t, None, None)
            && (PutIn(t, x, cap, None, None).Grew? ==> Apply(t, PutOp(x), cap).Ok?)
  {
    hide Represents, Apply, MapOf, Good, PutIn, SliceFits, Run, SmallKeys;
    var t := Run(ops, cap).value;
    RunKeysFitASeparator(ops, cap);
    RepresentsIsGood(t, MapOf(ops, cap), cap);
    AcceptedFits(x, cap);
    ApplyKeepsSmall(t, PutOp(x), LongestKey(cap), cap);
  }

  // ---------------------------------------------------------------------
  // Whole runs
  // ---------------------------------------------------------------------

  /** Every run of puts and deletes with keys within the bound succeeds, so it realises its map. */
  lemma {:induction false} SmallKeyRunsSucceed(ops: seq<Op>, k: nat, pageSize: nat)
    requires LegalPageSize(pageSize) && k <= KeyBound(BodyCapacity(pageSize)) && SmallOps(ops, k, pageSize)
    ensures var r := Run(ops, BodyCapacity(pageSize));
            r.Ok? && SmallKeys(r.value, k)
  {
    hide Represents, SmallOp, Apply, KeyBound;
    if ops != [] {
      var init, cap := ops[..|ops| - 1], BodyCapacity(pageSize);
      SmallKeyRunsSucceed(init, k, pageSize);
      RepresentsIsGood(Run(init, cap).value, MapOf(init, cap), cap);
      SmallApply(Run(init, cap).value, ops[|ops| - 1], k, pageSize);
    }
  }

  lemma RepresentsIsGood(t: Tree, m: map<seq<byte>, LeafValue>, cap: nat)
    requires Represents(t, m, cap)
    ensures Good(t, cap)
  {
  }
}
