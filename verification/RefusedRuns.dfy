/** Runs that fail one byte past the key bound: the bound of `SmallKeyRuns` is exact. */
module RefusedRuns {
  import opened Bytes
  import opened NodeLayout
  import opened Leaves
  import opened LeafAccess
  import opened Internals
  import opened KeyBounds
  import opened Splitting
  import opened Trees
  import opened SmallKeyRuns

  ghost predicate RunsSucceed(k: nat, pageSize: nat)
    requires LegalPageSize(pageSize)
  {
    forall ops :: SmallOps(ops, k, pageSize) ==> Run(ops, BodyCapacity(pageSize)).Ok?
  }

  /** Some run of small operations leaves `t`. */
  ghost predicate Reachable(t: Tree, k: nat, pageSize: nat)
    requires LegalPageSize(pageSize)
  {
    exists ops :: SmallOps(ops, k, pageSize) && Run(ops, BodyCapacity(pageSize)) == Ok(t)
  }

  lemma ReachableIsGood(t: Tree, k: nat, pageSize: nat)
    requires LegalPageSize(pageSize) && Reachable(t, k, pageSize)
    ensures Good(t, BodyCapacity(pageSize)) && Ordered(t, None, None)
  {
    hide Run, Represents, Sound;
    var cap := BodyCapacity(pageSize);
    var ops :| SmallOps(ops, k, pageSize) && Run(ops, cap) == Ok(t);
    RepresentsIsGood(t, MapOf(ops, cap), cap);
    var h: nat :| Sound(t, None, None, h, cap);
    SoundIsOrdered(t, h, cap);
  }

  /** One more operation: another reachable tree, or a failing run. */
  lemma ReachStep(t: Tree, op: Op, k: nat, pageSize: nat)
    requires LegalPageSize(pageSize) && Reachable(t, k, pageSize) && SmallOp(op, k, pageSize)
    ensures Good(t, BodyCapacity(pageSize))
    ensures var r := Apply(t, op, BodyCapacity(pageSize));
            if r.Ok? then Reachable(r.value, k, pageSize) else !RunsSucceed(k, pageSize)
  {
    hide Apply, SmallOp, Represents, Good;
    ReachableIsGood(t, k, pageSize);
    var cap := BodyCapacity(pageSize);
    var ops :| SmallOps(ops, k, pageSize) && Run(ops, cap) == Ok(t);
    var more := ops + [op];
    assert more[..|ops|] == ops;
    assert SmallOps(more, k, pageSize) && Run(more, cap) == Apply(t, op, cap);
  }

  // ---------------------------------------------------------------------
  // Leaves of quarter-page records
  // ---------------------------------------------------------------------

  /** The largest value stored inline. */
  function Quarter(key: seq<byte>, pageSize: nat): Record
  {
    Record(key, Inline(Zeros(pageSize / 4)))
  }

  ghost predicate Quarters(rs: seq<Record>, k: nat, pageSize: nat)
  {
    forall i :: 0 <= i < |rs| ==> rs[i] == Quarter(rs[i].key, pageSize) && |rs[i].key| <= k
  }

  lemma {:induction false} QuarterSizes(rs: seq<Record>, p: nat, k: nat, pageSize: nat)
    requires Quarters(rs, k, pageSize)
    ensures |rs| * (pageSize / 4) <= RecordsSize(rs, p) <= |rs| * (pageSize / 4 + k + 4)
  {
    if rs != [] {
      var init, v := rs[..|rs| - 1], pageSize / 4;
      QuarterSizes(init, p, k, pageSize);
      OneMoreShare(|init|, v);
      OneMoreShare(|init|, v + k + 4);
      assert v <= RecordSize(rs[|rs| - 1], p) <= v + k + 4;
    }
  }

  lemma ThreeQuartersFit(rs: seq<Record>, k: nat, pageSize: nat)
    requires LegalPageSize(pageSize) && k <= KeyBound(BodyCapacity(pageSize)) + 1
    requires Quarters(rs, k, pageSize) && Sorted(rs) && 1 <= |rs| <= 3
    ensures SliceFits(rs, BodyCapacity(pageSize))
  {
    hide RecordsSize, LcpLen, Sorted, Quarters;
    SizeAtSharedPrefix(rs, 0);
    QuarterSizes(rs, 0, k, pageSize);
  }

  lemma FourQuartersDoNot(rs: seq<Record>, k: nat, pageSize: nat)
    requires LegalPageSize(pageSize) && Quarters(rs, k, pageSize) && |rs| == 4
    ensures !SliceFits(rs, BodyCapacity(pageSize))
  {
    hide RecordsSize, LcpLen, Quarters;
    QuarterSizes(rs, LcpLen(rs), k, pageSize);
  }

  /** Four quarter-page records in order. */
  ghost predicate Four(p: Record, q: Record, s: Record, c: Record, k: nat, pageSize: nat)
  {
    && Sorted([p, q, s, c]) && Quarters([p, q, s, c], k, pageSize)
  }

  lemma FourParts(p: Record, q: Record, s: Record, c: Record, k: nat, pageSize: nat)
    requires LegalPageSize(pageSize) && k <= KeyBound(BodyCapacity(pageSize)) + 1 && Four(p, q, s, c, k, pageSize)
    ensures var cap := BodyCapacity(pageSize);
            && Sorted([p, q]) && SliceFits([p, q], cap) && SliceFits([s, c], cap) && SliceFits([s], cap)
            && Sorted([p, q, c]) && SliceFits([p, q, c], cap) && SliceFits([c], cap)
            && !SliceFits([p, q, s, c], cap)
  {
    hide Lt, SliceFits, KeyBound;
    var all := [p, q, s, c];
    assert all[0] == p && all[1] == q && all[2] == s && all[3] == c;
    ThreeQuartersFit([p, q], k, pageSize);
    ThreeQuartersFit([s, c], k, pageSize);
    ThreeQuartersFit([s], k, pageSize);
    ThreeQuartersFit([c], k, pageSize);
    ThreeQuartersFit([p, q, c], k, pageSize);
    FourQuartersDoNot(all, k, pageSize);
  }

  /** The third record stays in the leaf. */
  lemma ThirdStays(p: Record, q: Record, s: Record, c: Record, k: nat, pageSize: nat)
    requires LegalPageSize(pageSize) && k <= KeyBound(BodyCapacity(pageSize)) + 1 && Four(p, q, s, c, k, pageSize)
    ensures Sorted([p, q]) && SliceFits([c], BodyCapacity(pageSize))
    ensures PutLeaf([p, q], c, BodyCapacity(pageSize)) == Grew(One(LeafTree([p, q, c])))
  {
    hide Lt, SliceFits, Below, KeyBound, Settles, StopFrom;
    var all := [p, q, s, c];
    assert all[0] == p && all[1] == q && all[2] == s && all[3] == c;
    FourParts(p, q, s, c, k, pageSize);
    BelowIs([p, q], c.key, 2);
    assert Upserted([p, q], c) == [p, q, c];
  }

  /** The fourth splits it in the middle, under its own key. */
  lemma FourthSplits(p: Record, q: Record, s: Record, c: Record, k: nat, pageSize: nat)
    requires LegalPageSize(pageSize) && k <= KeyBound(BodyCapacity(pageSize)) + 1 && Four(p, q, s, c, k, pageSize)
    ensures Sorted([p, q, c]) && SliceFits([s], BodyCapacity(pageSize))
    ensures PutLeaf([p, q, c], s, BodyCapacity(pageSize)) == Grew(Two(LeafTree([p, q]), s.key, LeafTree([s, c])))
  {
    hide Lt, SliceFits, Below, KeyBound;
    var all, cap := [p, q, s, c], BodyCapacity(pageSize);
    assert all[0] == p && all[1] == q && all[2] == s && all[3] == c;
    FourParts(p, q, s, c, k, pageSize);
    LtTotal(s.key, c.key);
    BelowIs([p, q, c], s.key, 2);
    assert Upserted([p, q, c], s) == all;
    assert all[..2] == [p, q] && all[2..] == [s, c];
    assert GoodPoint(all, cap, 2);
  }

  // ---------------------------------------------------------------------
  // Two puts into one leaf of a height-one tree
  // ---------------------------------------------------------------------

  lemma PutAt(node: Internal<Tree>, i: nat, rs: seq<Record>, x: Record, cap: nat)
    requires Ordered(InnerTree(node), None, None) && SliceFits([x], cap)
    requires i <= |node.entries| && ChildAt(node, i) == LeafTree(rs) && Rank(node.entries, x.key) == i
    ensures Sorted(rs)
    ensures PutLeaf(rs, x, cap).Grew? ==>
              PutIn(InnerTree(node), x, cap, None, None) == GrowParent(node, i, PutLeaf(rs, x, cap).grown, cap)
  {
    hide PutLeaf, GrowParent, SliceFits, Rank, Lt;
  }

  /** Where keys route does not depend on the children. */
  lemma SameRank(node: Internal<Tree>, i: nat, c: Tree, q: seq<byte>)
    requires SortedEntries(node.entries) && i <= |node.entries|
    ensures Rank(WithChild(node, i, c).entries, q) == Rank(node.entries, q)
  {
    WithChildKeeps(node, i, c, q);
  }

  lemma ChildTwice(node: Internal<Tree>, i: nat, c: Tree, l: Tree, separator: seq<byte>, r: Tree)
    requires i <= |node.entries|
    ensures |WithChild(node, i, c).entries| == |node.entries| && ChildAt(WithChild(node, i, c), i) == c
    ensures Absorb(WithChild(node, i, c), i, l, separator, r) == Absorb(node, i, l, separator, r)
  {
    assert WithChild(WithChild(node, i, c), i, l) == WithChild(node, i, l);
  }

  /** The companion and then the separator's own record: leaf `i` splits, and the parent takes the separator or refuses. */
  lemma TwoPuts(node: Internal<Tree>, i: nat, p: Record, q: Record, s: Record, c: Record, k: nat, pageSize: nat)
    requires LegalPageSize(pageSize) && k <= KeyBound(BodyCapacity(pageSize)) + 1 && Four(p, q, s, c, k, pageSize)
    requires Reachable(InnerTree(node), k, pageSize) && i <= |node.entries| && ChildAt(node, i) == LeafTree([p, q])
    requires Rank(node.entries, c.key) == i == Rank(node.entries, s.key)
    ensures var n, cap := Absorb(node, i, LeafTree([p, q]), s.key, LeafTree([s, c])), BodyCapacity(pageSize);
            && (InternalFits(n, cap) ==> Reachable(InnerTree(n), k, pageSize))
            && (!HalvesFit(n, cap) ==> !RunsSucceed(k, pageSize))
  {
    hide PutLeaf, SliceFits, Rank, Lt, InternalFits, Reachable, RunsSucceed, Absorb, KeyBound, PutIn, Good, WithChild, Four;
    var cap, three := BodyCapacity(pageSize), LeafTree([p, q, c]);
    FourIsSmall(p, q, s, c, k, pageSize);
    ThirdStays(p, q, s, c, k, pageSize);
    FourthSplits(p, q, s, c, k, pageSize);
    ReachableIsGood(InnerTree(node), k, pageSize);
    PutAt(node, i, [p, q], c, cap);
    ReachStep(InnerTree(node), PutOp(c), k, pageSize);
    var node2 := WithChild(node, i, three);
    assert Reachable(InnerTree(node2), k, pageSize);
    ChildTwice(node, i, three, LeafTree([p, q]), s.key, LeafTree([s, c]));
    SameRank(node, i, three, s.key);
    ReachableIsGood(InnerTree(node2), k, pageSize);
    PutAt(node2, i, [p, q, c], s, cap);
    ReachStep(InnerTree(node2), PutOp(s), k, pageSize);
    var n := Absorb(node, i, LeafTree([p, q]), s.key, LeafTree([s, c]));
    AbsorbEntries(node, i, LeafTree([p, q]), s.key, LeafTree([s, c]));
    if InternalFits(n, cap) { FittingHalves(n, cap); }
  }

  lemma FourIsSmall(p: Record, q: Record, s: Record, c: Record, k: nat, pageSize: nat)
    requires LegalPageSize(pageSize) && k <= KeyBound(BodyCapacity(pageSize)) + 1 && Four(p, q, s, c, k, pageSize)
    ensures SmallOp(PutOp(p), k, pageSize) && SmallOp(PutOp(q), k, pageSize)
    ensures SmallOp(PutOp(s), k, pageSize) && SmallOp(PutOp(c), k, pageSize)
    ensures var cap := BodyCapacity(pageSize);
            Accepted(p, cap) && Accepted(q, cap) && Accepted(s, cap) && Accepted(c, cap)
  {
    var all := [p, q, s, c];
    assert all[0] == p && all[1] == q && all[2] == s && all[3] == c;
  }

  // ---------------------------------------------------------------------
  // The tree that will refuse
  // ---------------------------------------------------------------------

  /** Separator `j` of the tree under construction. */
  function CombKey(j: nat, m: nat, first: nat, long: nat): seq<byte>
    requires 2 <= m < 255 && 3 <= first <= long && j < 2 * m - 1
  {
    if j < m - 1 then LongKey(j, first, long) else ShortKey(j - (m - 1))
  }

  /** A short key between separator `j` and the next. */
  function Companion(j: nat, m: nat): seq<byte>
    requires 2 <= m < 255 && j < 2 * m - 1
  {
    if j < m - 1 then [0, j, 1] else [j - (m - 1) + 1, 1]
  }

  lemma CombOrder(i: nat, j: nat, m: nat, first: nat, long: nat)
    requires 2 <= m < 255 && 3 <= first <= long && i <= j < 2 * m - 1
    ensures i < j ==> Lt(CombKey(i, m, first, long), CombKey(j, m, first, long))
    ensures i < j ==> Lt(Companion(i, m), CombKey(j, m, first, long))
    ensures Lt(CombKey(i, m, first, long), Companion(j, m))
  {
    hide LongKey, ShortKey;
    if j < m - 1 {
      LongOrder(i, j, first, long);
    } else if i < m - 1 {
      LongOrder(i, i, first, long);
    } else {
      ShortOrder(i - (m - 1), j - (m - 1));
    }
    if i < m - 1 <= j { LongShortOrder(i, j - (m - 1), first, long); }
  }

  lemma LongOrder(i: nat, j: nat, first: nat, long: nat)
    requires i <= j < 255 && 3 <= first <= long
    ensures i < j ==> Lt(LongKey(i, first, long), LongKey(j, first, long)) && Lt([0, i, 1], LongKey(j, first, long))
    ensures Lt(LongKey(i, first, long), [0, j, 1])
  {
    var a, b, c, d := LongKey(i, first, long), LongKey(j, first, long), [0, i, 1], [0, j, 1];
    assert a[1..][0] == c[1..][0] == i && b[1..][0] == d[1..][0] == j;
    assert a[1..][1..][0] == 0 && d[1..][1..][0] == 1;
  }

  lemma ShortOrder(i: nat, j: nat)
    requires i <= j < 254
    ensures i < j ==> Lt(ShortKey(i), ShortKey(j)) && Lt([i + 1, 1], ShortKey(j))
    ensures Lt(ShortKey(i), [j + 1, 1])
  {
  }

  lemma LongShortOrder(i: nat, j: nat, first: nat, long: nat)
    requires i < 255 && j < 254 && 3 <= first <= long
    ensures Lt(LongKey(i, first, long), ShortKey(j)) && Lt([0, i, 1], ShortKey(j))
    ensures Lt(LongKey(i, first, long), [j + 1, 1])
  {
  }

  /** Leaf `j`: the record under its separator and that record's companion. */
  function LeafNo(j: nat, m: nat, first: nat, long: nat, pageSize: nat): seq<Record>
    requires 2 <= m < 255 && 3 <= first <= long
  {
    if j == 0 then [Quarter([0], pageSize), Quarter([0, 0], pageSize)]
    else if j < 2 * m then [Quarter(CombKey(j - 1, m, first, long), pageSize), Quarter(Companion(j - 1, m), pageSize)]
    else []
  }

  function Full(m: nat, first: nat, long: nat, pageSize: nat): Internal<Tree>
    requires 2 <= m < 255 && 3 <= first <= long
  {
    LongThenShort(j => LeafTree(LeafNo(j, m, first, long, pageSize)), m - 1, m, first, long)
  }

  /** The first `t` separators of it. */
  function Comb(t: nat, m: nat, first: nat, long: nat, pageSize: nat): Internal<Tree>
    requires 2 <= m < 255 && 3 <= first <= long && t <= 2 * m - 1
  {
    var full := Full(m, first, long, pageSize);
    Internal(full.leftmost, full.entries[..t])
  }

  lemma CombParts(t: nat, m: nat, first: nat, long: nat, pageSize: nat)
    requires 2 <= m < 255 && 3 <= first <= long && t <= 2 * m - 1
    ensures var node := Comb(t, m, first, long, pageSize);
            && |node.entries| == t
            && (forall j :: 0 <= j < t ==> node.entries[j].key == CombKey(j, m, first, long))
            && (forall j :: 0 <= j <= t ==> ChildAt(node, j) == LeafTree(LeafNo(j, m, first, long, pageSize)))
  {
    hide LongThenShort, LongKey, ShortKey, LeafNo;
    var full, node := Full(m, first, long, pageSize), Comb(t, m, first, long, pageSize);
    forall j | 0 <= j <= t ensures ChildAt(node, j) == LeafTree(LeafNo(j, m, first, long, pageSize)) {
      assert ChildAt(node, j) == ChildAt(full, j);
    }
  }

  /** A key past the last separator goes to the last leaf. */
  lemma LastRank(t: nat, q: seq<byte>, m: nat, first: nat, long: nat, pageSize: nat)
    requires 2 <= m < 255 && 3 <= first <= long && t <= 2 * m - 1
    requires forall j :: 0 <= j < t ==> Lt(CombKey(j, m, first, long), q)
    ensures Rank(Comb(t, m, first, long, pageSize).entries, q) == t
  {
    hide Lt, CombKey, Comb, Rank;
    CombParts(t, m, first, long, pageSize);
    CombSorted(t, m, first, long, pageSize);
    PartsIsRank(Comb(t, m, first, long, pageSize).entries, q, t);
  }

  lemma CombSorted(t: nat, m: nat, first: nat, long: nat, pageSize: nat)
    requires 2 <= m < 255 && 3 <= first <= long && t <= 2 * m - 1
    ensures SortedEntries(Comb(t, m, first, long, pageSize).entries)
  {
    hide Lt, CombKey, Comb, Companion;
    CombParts(t, m, first, long, pageSize);
    forall i, j | 0 <= i < j < t ensures Lt(CombKey(i, m, first, long), CombKey(j, m, first, long)) {
      CombOrder(i, j, m, first, long);
    }
  }

  lemma CombGrows(t: nat, m: nat, first: nat, long: nat, pageSize: nat)
    requires 2 <= m < 255 && 3 <= first <= long && t < 2 * m - 1
    ensures Absorb(Comb(t, m, first, long, pageSize), t, LeafTree(LeafNo(t, m, first, long, pageSize)),
                   CombKey(t, m, first, long), LeafTree(LeafNo(t + 1, m, first, long, pageSize)))
         == Comb(t + 1, m, first, long, pageSize)
  {
    hide CombKey, LeafNo, LongThenShort;
    var a, b := Comb(t, m, first, long, pageSize), Comb(t + 1, m, first, long, pageSize);
    CombParts(t, m, first, long, pageSize);
    CombParts(t + 1, m, first, long, pageSize);
    assert ChildAt(b, t + 1) == b.entries[t].child;
    assert WithChild(a, t, ChildAt(a, t)) == a;
    assert forall j :: 0 <= j < t ==> a.entries[j] == b.entries[j];
    assert b.entries == a.entries + [b.entries[t]];
  }

  lemma CombFits(t: nat, m: nat, first: nat, long: nat, pageSize: nat, cap: nat)
    requires 2 <= m < 255 && 3 <= first <= long && t <= 2 * m - 1
    requires InternalFits(Full(m, first, long, pageSize), cap)
    ensures InternalFits(Comb(t, m, first, long, pageSize), cap)
  {
    hide EntriesSize, LongThenShort, LeafNo;
    EntriesSizeSplit(Full(m, first, long, pageSize).entries, t);
  }

  lemma StepFour(t: nat, m: nat, first: nat, long: nat, pageSize: nat)
    requires 2 <= m < 255 && 3 <= first <= long && t < 2 * m - 1
    ensures var before, after := LeafNo(t, m, first, long, pageSize), LeafNo(t + 1, m, first, long, pageSize);
            Four(before[0], before[1], after[0], after[1], long, pageSize)
  {
    hide CombKey, Companion;
    KeyLengths(t, m, first, long);
    CombOrder(t, t, m, first, long);
    if t == 0 {
      FirstKeys(m, first, long);
    } else {
      KeyLengths(t - 1, m, first, long);
      CombOrder(t - 1, t - 1, m, first, long);
      CombOrder(t - 1, t, m, first, long);
    }
    var before, after := LeafNo(t, m, first, long, pageSize), LeafNo(t + 1, m, first, long, pageSize);
    FourSorted(before[0], before[1], after[0], after[1]);
  }

  lemma FourSorted(p: Record, q: Record, s: Record, c: Record)
    requires Lt(p.key, q.key) && Lt(q.key, s.key) && Lt(s.key, c.key)
    ensures Sorted([p, q, s, c])
  {
    hide Lt;
    LtTransitive(p.key, q.key, s.key);
    LtTransitive(q.key, s.key, c.key);
    LtTransitive(p.key, q.key, c.key);
  }

  lemma FirstKeys(m: nat, first: nat, long: nat)
    requires 2 <= m < 255 && 3 <= first <= long
    ensures Lt([0], [0, 0]) && Lt([0, 0], CombKey(0, m, first, long))
  {
    var k := CombKey(0, m, first, long);
    assert k[1..][0] == 0;
  }

  lemma KeyLengths(j: nat, m: nat, first: nat, long: nat)
    requires 2 <= m < 255 && 3 <= first <= long && j < 2 * m - 1
    ensures |CombKey(j, m, first, long)| <= long && |Companion(j, m)| <= long
  {
  }

  // ---------------------------------------------------------------------
  // Building it
  // ---------------------------------------------------------------------

  /** Four puts into an empty tree make the first two leaves and their root. */
  lemma FirstLeaves(p: Record, q: Record, s: Record, c: Record, k: nat, pageSize: nat)
    requires LegalPageSize(pageSize) && k <= KeyBound(BodyCapacity(pageSize)) + 1 && Four(p, q, s, c, k, pageSize)
    ensures Reachable(InnerTree(Internal(LeafTree([p, q]), [Entry(s.key, LeafTree([s, c]))])), k, pageSize)
  {
    hide PutLeaf, SliceFits, Lt, InternalFits, Reachable, RunsSucceed, KeyBound, Good, Four;
    var cap := BodyCapacity(pageSize);
    FourIsSmall(p, q, s, c, k, pageSize);
    FirstTwo(p, q, s, c, k, pageSize);
    ReachableIsGood(LeafTree([p, q]), k, pageSize);
    ThirdStays(p, q, s, c, k, pageSize);
    ReachStep(LeafTree([p, q]), PutOp(c), k, pageSize);
    ReachableIsGood(LeafTree([p, q, c]), k, pageSize);
    FourthSplits(p, q, s, c, k, pageSize);
    ReachStep(LeafTree([p, q, c]), PutOp(s), k, pageSize);
    RootFits(LeafTree([p, q]), s, LeafTree([s, c]), k, pageSize);
  }

  lemma RootFits(l: Tree, s: Record, r: Tree, k: nat, pageSize: nat)
    requires LegalPageSize(pageSize) && k <= KeyBound(BodyCapacity(pageSize)) + 1 && SmallOp(PutOp(s), k, pageSize)
    ensures InternalFits(Internal(l, [Entry(s.key, r)]), BodyCapacity(pageSize))
  {
    OneWeight(Entry(s.key, r));
  }

  lemma FirstTwo(p: Record, q: Record, s: Record, c: Record, k: nat, pageSize: nat)
    requires LegalPageSize(pageSize) && k <= KeyBound(BodyCapacity(pageSize)) + 1 && Four(p, q, s, c, k, pageSize)
    ensures Reachable(LeafTree([p, q]), k, pageSize)
  {
    hide SliceFits, Lt, RunsSucceed, KeyBound, Good, Settles, StopFrom, Below;
    var cap, all := BodyCapacity(pageSize), [p, q, s, c];
    assert all[0] == p && all[1] == q && all[2] == s && all[3] == c;
    FourParts(p, q, s, c, k, pageSize);
    FourIsSmall(p, q, s, c, k, pageSize);
    ThreeQuartersFit([p], k, pageSize);
    ThreeQuartersFit([q], k, pageSize);
    assert SmallOps([], k, pageSize) && Run([], cap) == Ok(LeafTree([]));
    ReachableIsGood(LeafTree([]), k, pageSize);
    BelowIs([], p.key, 0);
    assert Upserted([], p) == [p];
    ReachStep(LeafTree([]), PutOp(p), k, pageSize);
    ReachableIsGood(LeafTree([p]), k, pageSize);
    BelowIs([p], q.key, 1);
    assert Upserted([p], q) == [p, q];
    ReachStep(LeafTree([p]), PutOp(q), k, pageSize);
  }

  lemma {:induction false} CombReachable(t: nat, m: nat, first: nat, long: nat, pageSize: nat)
    requires LegalPageSize(pageSize) && 2 <= m < 255 && 3 <= first <= long && 1 <= t <= 2 * m - 1
    requires long <= KeyBound(BodyCapacity(pageSize)) + 1
    requires InternalFits(Full(m, first, long, pageSize), BodyCapacity(pageSize))
    ensures Reachable(InnerTree(Comb(t, m, first, long, pageSize)), long, pageSize)
  {
    hide Reachable, InternalFits, KeyBound, Four, CombKey, Companion, Comb, Absorb, HalvesFit, RunsSucceed, Lt, Rank, Full;
    var u := t - 1;
    var before, after := LeafNo(u, m, first, long, pageSize), LeafNo(t, m, first, long, pageSize);
    var p, q, s, c := before[0], before[1], after[0], after[1];
    assert before == [p, q] && after == [s, c] && s.key == CombKey(u, m, first, long) && c.key == Companion(u, m);
    StepFour(u, m, first, long, pageSize);
    CombParts(u, m, first, long, pageSize);
    CombGrows(u, m, first, long, pageSize);
    if u == 0 {
      FirstLeaves(p, q, s, c, long, pageSize);
      OneComb(Comb(0, m, first, long, pageSize), p, q, s, c);
    } else {
      CombReachable(u, m, first, long, pageSize);
      forall j | 0 <= j < u
        ensures Lt(CombKey(j, m, first, long), s.key) && Lt(CombKey(j, m, first, long), c.key)
      {
        CombOrder(j, u, m, first, long);
      }
      LastRank(u, s.key, m, first, long, pageSize);
      LastRank(u, c.key, m, first, long, pageSize);
      CombFits(t, m, first, long, pageSize, BodyCapacity(pageSize));
      TwoPuts(Comb(u, m, first, long, pageSize), u, p, q, s, c, long, pageSize);
    }
  }

  lemma OneComb(bare: Internal<Tree>, p: Record, q: Record, s: Record, c: Record)
    requires bare.entries == [] && ChildAt(bare, 0) == LeafTree([p, q])
    ensures Absorb(bare, 0, LeafTree([p, q]), s.key, LeafTree([s, c]))
         == Internal(LeafTree([p, q]), [Entry(s.key, LeafTree([s, c]))])
  {
  }

  // ---------------------------------------------------------------------
  // The refusal
  // ---------------------------------------------------------------------

  /** The separator that overfills it routes, with its companion, to leaf `m - 1`. */
  lemma LastStraw(m: nat, first: nat, long: nat, pageSize: nat)
    requires 2 <= m < 255 && 3 <= first <= long
    ensures var full, leaf := Comb(2 * m - 1, m, first, long, pageSize), LeafNo(m - 1, m, first, long, pageSize);
            var s, c := Quarter(LongKey(m - 1, first, long), pageSize), Quarter([0, m - 1, 1], pageSize);
            && Rank(full.entries, s.key) == m - 1 == Rank(full.entries, c.key)
            && Four(leaf[0], leaf[1], s, c, long, pageSize)
  {
    hide Lt, LongKey, ShortKey, Comb, Rank;
    var full, leaf := Comb(2 * m - 1, m, first, long, pageSize), LeafNo(m - 1, m, first, long, pageSize);
    var s, c := Quarter(LongKey(m - 1, first, long), pageSize), Quarter([0, m - 1, 1], pageSize);
    CombParts(2 * m - 1, m, first, long, pageSize);
    CombSorted(2 * m - 1, m, first, long, pageSize);
    forall j | 0 <= j < m - 1 ensures Lt(full.entries[j].key, s.key) && Lt(full.entries[j].key, c.key) {
      LongOrder(j, m - 1, first, long);
    }
    forall j | m - 1 <= j < 2 * m - 1 ensures Lt(s.key, full.entries[j].key) && Lt(c.key, full.entries[j].key) {
      LongShortOrder(m - 1, j - (m - 1), first, long);
    }
    PartsIsRank(full.entries, s.key, m - 1);
    PartsIsRank(full.entries, c.key, m - 1);
    LongOrder(m - 2, m - 2, first, long);
    LongOrder(m - 2, m - 1, first, long);
    LongOrder(m - 1, m - 1, first, long);
    FourSorted(leaf[0], leaf[1], s, c);
  }

  lemma FullComb(m: nat, first: nat, long: nat, pageSize: nat)
    requires 2 <= m < 255 && 3 <= first <= long
    ensures Comb(2 * m - 1, m, first, long, pageSize) == Full(m, first, long, pageSize)
  {
    var full := Full(m, first, long, pageSize);
    assert full.entries[..2 * m - 1] == full.entries;
  }

  /** For every page size, some run with keys one byte past the bound fails. */
  lemma BoundPlusOneFails(pageSize: nat)
    requires LegalPageSize(pageSize)
    ensures !RunsSucceed(KeyBound(BodyCapacity(pageSize)) + 1, pageSize)
  {
    hide Growing, Reachable, RunsSucceed, HalvesFit, Absorb, KeyBound, Comb, LongKey, Lt, Rank, InternalFits, Shape, CombKey;
    hide Companion, Four;
    var cap := BodyCapacity(pageSize);
    var (m, first) := Shape(cap);
    var long := KeyBound(cap) + 1;
    PastTheBound(j => LeafTree([]), LeafTree([]), LeafTree([]), cap);
    var leaf := LeafNo(m - 1, m, first, long, pageSize);
    var s, c := Quarter(LongKey(m - 1, first, long), pageSize), Quarter([0, m - 1, 1], pageSize);
    assert leaf == [leaf[0], leaf[1]];
    PastTheBound(j => LeafTree(LeafNo(j, m, first, long, pageSize)), LeafTree(leaf), LeafTree([s, c]), cap);
    GrowingFits(Full(m, first, long, pageSize), m - 1, s.key, long, cap);
    CombReachable(2 * m - 1, m, first, long, pageSize);
    CombParts(2 * m - 1, m, first, long, pageSize);
    FullComb(m, first, long, pageSize);
    LastStraw(m, first, long, pageSize);
    TwoPuts(Full(m, first, long, pageSize), m - 1, leaf[0], leaf[1], s, c, long, pageSize);
  }

  lemma GrowingFits(node: Internal<Tree>, i: nat, separator: seq<byte>, k: nat, cap: nat)
    requires Growing(node, i, separator, k, cap)
    ensures InternalFits(node, cap)
  {
  }

  /** Every run of puts and deletes with keys of at most `k` bytes succeeds, exactly when `k` is at most the bound. */
  lemma RunsSucceedIff(k: nat, pageSize: nat)
    requires LegalPageSize(pageSize)
    ensures RunsSucceed(k, pageSize) <==> k <= KeyBound(BodyCapacity(pageSize))
  {
    hide KeyBound, Run, SmallKeys;
    var bound := KeyBound(BodyCapacity(pageSize));
    if k <= bound {
      forall ops | SmallOps(ops, k, pageSize) ensures Run(ops, BodyCapacity(pageSize)).Ok? {
        SmallKeyRunsSucceed(ops, k, pageSize);
      }
    } else {
      BoundPlusOneFails(pageSize);
      var ops :| SmallOps(ops, bound + 1, pageSize) && Run(ops, BodyCapacity(pageSize)).Err?;
      assert SmallOps(ops, k, pageSize);
    }
  }
}
