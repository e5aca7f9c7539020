/** Whole trees: descent, put with splits up to a new root, and delete, against a finite map. */
module Trees {
  import opened Bytes
  import opened NodeLayout
  import opened Leaves
  import opened LeafAccess
  import opened Internals
  import opened Splitting

  datatype Tree = LeafTree(records: seq<Record>) | InnerTree(node: Internal<Tree>)

  /** A separator above or below a subtree, if any. */
  type Bound = Option<seq<byte>>

  predicate AtLeast(lo: Bound, k: seq<byte>) { lo.None? || Le(lo.value, k) }
  predicate Over(lo: Bound, k: seq<byte>) { lo.None? || Lt(lo.value, k) }
  predicate Under(k: seq<byte>, hi: Bound) { hi.None? || Lt(k, hi.value) }

  function LowerOf<C>(es: seq<Entry<C>>, lo: Bound, j: nat): Bound
    requires j <= |es|
  {
    if j == 0 then lo else Some(es[j - 1].key)
  }

  function UpperOf<C>(es: seq<Entry<C>>, hi: Bound, j: nat): Bound
    requires j <= |es|
  {
    if j == |es| then hi else Some(es[j].key)
  }

  /** Keys and separators are sorted, and each subtree stays inside its separators. */
  ghost predicate Ordered(t: Tree, lo: Bound, hi: Bound)
  {
    match t
    case LeafTree(rs) =>
      && Sorted(rs)
      && forall i :: 0 <= i < |rs| ==> AtLeast(lo, rs[i].key) && Under(rs[i].key, hi)
    case InnerTree(node) =>
      && SortedEntries(node.entries)
      && (forall j :: 0 <= j < |node.entries| ==> Over(lo, node.entries[j].key) && Under(node.entries[j].key, hi))
      && (forall j :: 0 <= j <= |node.entries| ==>
            Ordered(ChildAt(node, j), LowerOf(node.entries, lo, j), UpperOf(node.entries, hi, j)))
  }

  /** Every leaf is `h` levels down. */
  ghost predicate Level(t: Tree, h: nat)
  {
    match t
    case LeafTree(_) => h == 0
    case InnerTree(node) => h > 0 && forall j :: 0 <= j <= |node.entries| ==> Level(ChildAt(node, j), h - 1)
  }

  /** Every node encodes into a page. */
  ghost predicate PagesFit(t: Tree, cap: nat)
  {
    match t
    case LeafTree(rs) => SliceFits(rs, cap)
    case InnerTree(node) =>
      InternalFits(node, cap) && forall j :: 0 <= j <= |node.entries| ==> PagesFit(ChildAt(node, j), cap)
  }

  ghost function InMap(rs: seq<Record>, q: seq<byte>): Option<LeafValue>
  {
    if q in AsMap(rs) then Some(AsMap(rs)[q]) else None
  }

  /** Descent by `child_for`, then the leaf's own lookup. */
  ghost function Lookup(t: Tree, q: seq<byte>): Option<LeafValue>
  {
    match t
    case LeafTree(rs) => InMap(rs, q)
    case InnerTree(node) => Lookup(ChildAt(node, Rank(node.entries, q)), q)
  }

  // ---------------------------------------------------------------------
  // Put
  // ---------------------------------------------------------------------

  /** A subtree after a put: itself, or two with a separator for the parent. */
  datatype Grown = One(tree: Tree) | Two(left: Tree, separator: seq<byte>, right: Tree)

  /** `Refused`: some page would not encode. `Spins`: the split loop never stops. */
  datatype Outcome = Grew(grown: Grown) | Refused | Spins

  lemma OverfullHasTwo(rs: seq<Record>, x: Record, cap: nat)
    requires SliceFits([x], cap) && !SliceFits(Upserted(rs, x), cap)
    ensures |Upserted(rs, x)| >= 2
  {
    var up := Upserted(rs, x);
    assert |up| == 1 ==> up == [x];
  }

  ghost function PutLeaf(rs: seq<Record>, x: Record, cap: nat): Outcome
    requires Sorted(rs) && SliceFits([x], cap)
  {
    UpsertedIsPut(rs, x);
    var up := Upserted(rs, x);
    if SliceFits(up, cap) then Grew(One(LeafTree(up)))
    else
      OverfullHasTwo(rs, x, cap);
      if !Settles(up, cap) then Spins
      else
        var monotonic := rs != [] && Lt(rs[|rs| - 1].key, x.key);
        var at := StopFrom(up, cap, Guess(|up|, monotonic));
        if !SliceFits(up[..at], cap) || !SliceFits(up[at..], cap) then Refused
        else Grew(Two(LeafTree(up[..at]), up[at].key, LeafTree(up[at..])))
  }

  /** Where a full leaf is cut when the first cut is good: after nine tenths of the records if the new one comes last,
      in the middle otherwise. */
  lemma LeafCut(rs: seq<Record>, x: Record, cap: nat)
    requires Sorted(rs) && SliceFits([x], cap) && !SliceFits(Upserted(rs, x), cap)
    ensures var up, last := Upserted(rs, x), rs != [] && Lt(rs[|rs| - 1].key, x.key);
            var at := if last then |up| * 9 / 10 else |up| / 2;
            GoodPoint(up, cap, at) ==>
              PutLeaf(rs, x, cap) == Grew(Two(LeafTree(up[..at]), up[at].key, LeafTree(up[at..])))
  {
    hide SliceFits, StopFrom, Settles, Guess, Upserted, Lt;
    UpsertedIsPut(rs, x);
    OverfullHasTwo(rs, x, cap);
    var up, last := Upserted(rs, x), rs != [] && Lt(rs[|rs| - 1].key, x.key);
    if GoodPoint(up, cap, if last then |up| * 9 / 10 else |up| / 2) { FirstCutStands(up, cap, last); }
  }

  /** What a parent becomes once its child `i` became `g`. */
  ghost function GrowParent(node: Internal<Tree>, i: nat, g: Grown, cap: nat): Outcome
    requires i <= |node.entries|
  {
    match g
    case One(tree) => Grew(One(InnerTree(WithChild(node, i, tree))))
    case Two(left, separator, right) =>
      var n := Absorb(node, i, left, separator, right);
      if InternalFits(n, cap) then Grew(One(InnerTree(n)))
      else
        var (a, b, promoted) := Halves(n);
        if InternalFits(a, cap) && InternalFits(b, cap)
        then Grew(Two(InnerTree(a), promoted, InnerTree(b)))
        else Refused
  }

  ghost function PutIn(t: Tree, x: Record, cap: nat, lo: Bound, hi: Bound): Outcome
    requires Ordered(t, lo, hi) && SliceFits([x], cap)
    decreases t
  {
    match t
    case LeafTree(rs) => PutLeaf(rs, x, cap)
    case InnerTree(node) =>
      var i := Rank(node.entries, x.key);
      var below := PutIn(ChildAt(node, i), x, cap, LowerOf(node.entries, lo, i), UpperOf(node.entries, hi, i));
      if below.Grew? then GrowParent(node, i, below.grown, cap) else below
  }

  // ---------------------------------------------------------------------
  // What a put keeps
  // ---------------------------------------------------------------------

  ghost predicate Sound(t: Tree, lo: Bound, hi: Bound, h: nat, cap: nat)
  {
    Ordered(t, lo, hi) && Level(t, h) && PagesFit(t, cap)
  }

  ghost predicate SoundGrown(g: Grown, lo: Bound, hi: Bound, h: nat, cap: nat)
  {
    match g
    case One(t) => Sound(t, lo, hi, h, cap)
    case Two(left, separator, right) =>
      && Over(lo, separator) && Under(separator, hi)
      && Sound(left, lo, Some(separator), h, cap)
      && Sound(right, Some(separator), hi, h, cap)
  }

  ghost function LookupGrown(g: Grown, q: seq<byte>): Option<LeafValue>
  {
    match g
    case One(t) => Lookup(t, q)
    case Two(left, separator, right) => Lookup(if Lt(q, separator) then left else right, q)
  }

  lemma OverUnder(lo: Bound, a: seq<byte>, b: seq<byte>, hi: Bound)
    requires Lt(a, b)
    ensures AtLeast(lo, a) ==> Over(lo, b)
    ensures Under(b, hi) ==> Under(a, hi)
  {
    if lo.Some? && AtLeast(lo, a) { LtLeTransitive(lo.value, a, b); }
    if hi.Some? && Under(b, hi) { LtTransitive(a, b, hi.value); }
  }

  lemma NotAmongLarger(rs: seq<Record>, separator: seq<byte>, q: seq<byte>)
    requires Lt(q, separator) && forall i :: 0 <= i < |rs| ==> Le(separator, rs[i].key)
    ensures q !in AsMap(rs)
  {
    hide AsMap;
    NotLt(q, separator);
    if q in AsMap(rs) { KeyIsSome(rs, q); }
  }

  lemma NotAmongSmaller(rs: seq<Record>, separator: seq<byte>, q: seq<byte>)
    requires !Lt(q, separator) && forall i :: 0 <= i < |rs| ==> Lt(rs[i].key, separator)
    ensures q !in AsMap(rs)
  {
    hide AsMap;
    if q in AsMap(rs) { KeyIsSome(rs, q); }
  }

  /** Cutting a sorted leaf at `at` cuts its map at the separator. */
  lemma CutLeaf(rs: seq<Record>, at: nat, q: seq<byte>)
    requires Sorted(rs) && 1 <= at < |rs|
    ensures InMap(if Lt(q, rs[at].key) then rs[..at] else rs[at..], q) == InMap(rs, q)
  {
    hide AsMap, Lt;
    var left, right, separator := rs[..at], rs[at..], rs[at].key;
    assert rs == left + right;
    AsMapConcat(left, right);
    if Lt(q, separator) {
      NotAmongLarger(right, separator, q);
    } else {
      NotAmongSmaller(left, separator, q);
    }
  }

  lemma CutOrdered(rs: seq<Record>, at: nat, lo: Bound, hi: Bound)
    requires Ordered(LeafTree(rs), lo, hi) && 1 <= at < |rs|
    ensures Over(lo, rs[at].key) && Under(rs[at].key, hi)
    ensures Ordered(LeafTree(rs[..at]), lo, Some(rs[at].key))
    ensures Ordered(LeafTree(rs[at..]), Some(rs[at].key), hi)
  {
    hide Lt;
    OverUnder(lo, rs[0].key, rs[at].key, hi);
  }

  lemma UpsertedInRange(rs: seq<Record>, x: Record, lo: Bound, hi: Bound)
    requires Ordered(LeafTree(rs), lo, hi) && AtLeast(lo, x.key) && Under(x.key, hi)
    ensures Ordered(LeafTree(Upserted(rs, x)), lo, hi)
  {
    hide Lt, Below;
    UpsertedIsPut(rs, x);
    var up, b, t := Upserted(rs, x), Below(rs, x.key), Through(rs, x.key);
    forall i | 0 <= i < |up| ensures AtLeast(lo, up[i].key) && Under(up[i].key, hi) {
      assert up[i] == if i < b then rs[i] else if i == b then x else rs[t + i - b - 1];
    }
  }

  lemma LeafPutLaws(rs: seq<Record>, x: Record, cap: nat, lo: Bound, hi: Bound, q: seq<byte>)
    requires Ordered(LeafTree(rs), lo, hi) && AtLeast(lo, x.key) && Under(x.key, hi) && SliceFits([x], cap)
    ensures var r := PutLeaf(rs, x, cap);
            r.Grew? ==>
              && SoundGrown(r.grown, lo, hi, 0, cap)
              && LookupGrown(r.grown, q) == if q == x.key then Some(x.value) else InMap(rs, q)
  {
    hide SliceFits, Lt, AsMap, Upserted, StopFrom, Settles;
    UpsertedIsPut(rs, x);
    UpsertedInRange(rs, x, lo, hi);
    var r, up := PutLeaf(rs, x, cap), Upserted(rs, x);
    if r.Grew? && r.grown.Two? {
      var at := |r.grown.left.records|;
      CutOrdered(up, at, lo, hi);
      CutLeaf(up, at, q);
    }
  }

  // Parents

  /** The children of a node, each sound between its own separators. */
  ghost predicate SoundChildren(node: Internal<Tree>, lo: Bound, hi: Bound, h: nat, cap: nat)
  {
    && SortedEntries(node.entries)
    && (forall j :: 0 <= j < |node.entries| ==> Over(lo, node.entries[j].key) && Under(node.entries[j].key, hi))
    && (forall j :: 0 <= j <= |node.entries| ==>
          Sound(ChildAt(node, j), LowerOf(node.entries, lo, j), UpperOf(node.entries, hi, j), h, cap))
  }

  lemma SoundByChildren(node: Internal<Tree>, lo: Bound, hi: Bound, h: nat, cap: nat)
    requires InternalFits(node, cap) && h > 0
    ensures Sound(InnerTree(node), lo, hi, h, cap) <==> SoundChildren(node, lo, hi, h - 1, cap)
  {
    hide Lt, InternalFits;
    if SoundChildren(node, lo, hi, h - 1, cap) {
      assert forall j :: 0 <= j <= |node.entries| ==>
          Sound(ChildAt(node, j), LowerOf(node.entries, lo, j), UpperOf(node.entries, hi, j), h - 1, cap);
    }
  }

  lemma ReplaceChild(node: Internal<Tree>, i: nat, c: Tree, lo: Bound, hi: Bound, h: nat, cap: nat)
    requires SoundChildren(node, lo, hi, h, cap) && i <= |node.entries|
    requires Sound(c, LowerOf(node.entries, lo, i), UpperOf(node.entries, hi, i), h, cap)
    ensures SoundChildren(WithChild(node, i, c), lo, hi, h, cap)
    ensures InternalFits(WithChild(node, i, c), cap) == InternalFits(node, cap)
  {
    hide Lt, Sound;
    var n := WithChild(node, i, c);
    SameKeysSameSize(node.entries, n.entries);
    forall j | 0 <= j <= |n.entries|
      ensures Sound(ChildAt(n, j), LowerOf(n.entries, lo, j), UpperOf(n.entries, hi, j), h, cap)
    {
      assert ChildAt(n, j) == if j == i then c else ChildAt(node, j);
    }
  }

  lemma SeparatorIsBetween(node: Internal<Tree>, i: nat, separator: seq<byte>, lo: Bound, hi: Bound)
    requires i <= |node.entries|
    requires Over(LowerOf(node.entries, lo, i), separator) && Under(separator, UpperOf(node.entries, hi, i))
    requires forall j :: 0 <= j < |node.entries| ==> Over(lo, node.entries[j].key) && Under(node.entries[j].key, hi)
    ensures Between(node.entries, i, separator) && Over(lo, separator) && Under(separator, hi)
  {
    if i > 0 && lo.Some? { LtTransitive(lo.value, node.entries[i - 1].key, separator); }
    if i < |node.entries| && hi.Some? { LtTransitive(separator, node.entries[i].key, hi.value); }
  }

  lemma AbsorbBounds(node: Internal<Tree>, i: nat, l: Tree, separator: seq<byte>, r: Tree, lo: Bound, hi: Bound, j: nat)
    requires i <= |node.entries| && j <= |node.entries| + 1
    ensures var es, fs := node.entries, Absorb(node, i, l, separator, r).entries;
            && |fs| == |es| + 1
            && LowerOf(fs, lo, j) == (if j <= i then LowerOf(es, lo, j) else if j == i + 1 then Some(separator)
                                      else LowerOf(es, lo, j - 1))
            && UpperOf(fs, hi, j) == (if j < i then UpperOf(es, hi, j) else if j == i then Some(separator)
                                      else UpperOf(es, hi, j - 1))
  {
    hide Absorb;
    AbsorbEntries(node, i, l, separator, r);
  }

  lemma AbsorbTwo(node: Internal<Tree>, i: nat, l: Tree, separator: seq<byte>, r: Tree, lo: Bound, hi: Bound, h: nat,
                  cap: nat)
    requires SoundChildren(node, lo, hi, h, cap) && i <= |node.entries|
    requires SoundGrown(Two(l, separator, r), LowerOf(node.entries, lo, i), UpperOf(node.entries, hi, i), h, cap)
    ensures SoundChildren(Absorb(node, i, l, separator, r), lo, hi, h, cap)
  {
    hide Lt, Sound, Absorb;
    var n, es := Absorb(node, i, l, separator, r), node.entries;
    SeparatorIsBetween(node, i, separator, lo, hi);
    AbsorbEntries(node, i, l, separator, r);
    AbsorbStaysSorted(node, i, l, separator, r);
    forall j | 0 <= j <= |n.entries|
      ensures Sound(ChildAt(n, j), LowerOf(n.entries, lo, j), UpperOf(n.entries, hi, j), h, cap)
    {
      AbsorbChild(node, i, l, separator, r, j);
      AbsorbBounds(node, i, l, separator, r, lo, hi, j);
    }
  }

  lemma HalveChildren(n: Internal<Tree>, lo: Bound, hi: Bound, h: nat, cap: nat)
    requires SoundChildren(n, lo, hi, h, cap) && n.entries != []
    ensures var (a, b, promoted) := Halves(n);
            && Over(lo, promoted) && Under(promoted, hi)
            && SoundChildren(a, lo, Some(promoted), h, cap)
            && SoundChildren(b, Some(promoted), hi, h, cap)
  {
    hide Lt, Sound;
    LeftHalfSound(n, lo, hi, h, cap);
    RightHalfSound(n, lo, hi, h, cap);
  }

  lemma LeftHalfSound(n: Internal<Tree>, lo: Bound, hi: Bound, h: nat, cap: nat)
    requires SoundChildren(n, lo, hi, h, cap) && n.entries != []
    ensures var (a, _, promoted) := Halves(n);
            SoundChildren(a, lo, Some(promoted), h, cap)
  {
    hide Lt, Sound;
    var (a, _, promoted) := Halves(n);
    HalvesSeparate(n);
    forall j | 0 <= j <= |a.entries|
      ensures Sound(ChildAt(a, j), LowerOf(a.entries, lo, j), UpperOf(a.entries, Some(promoted), j), h, cap)
    {
      LeftHalfChild(n, j);
    }
  }

  lemma RightHalfSound(n: Internal<Tree>, lo: Bound, hi: Bound, h: nat, cap: nat)
    requires SoundChildren(n, lo, hi, h, cap) && n.entries != []
    ensures var (_, b, promoted) := Halves(n);
            SoundChildren(b, Some(promoted), hi, h, cap)
  {
    hide Lt, Sound;
    var (_, b, promoted) := Halves(n);
    HalvesSeparate(n);
    forall j | 0 <= j <= |b.entries|
      ensures Sound(ChildAt(b, j), LowerOf(b.entries, Some(promoted), j), UpperOf(b.entries, hi, j), h, cap)
    {
      RightHalfChild(n, j);
    }
  }

  lemma ParentIsSound(node: Internal<Tree>, i: nat, g: Grown, lo: Bound, hi: Bound, h: nat, cap: nat)
    requires Sound(InnerTree(node), lo, hi, h, cap) && h > 0 && i <= |node.entries|
    requires SoundGrown(g, LowerOf(node.entries, lo, i), UpperOf(node.entries, hi, i), h - 1, cap)
    ensures var r := GrowParent(node, i, g, cap);
            r.Grew? ==> SoundGrown(r.grown, lo, hi, h, cap)
  {
    hide Lt, Sound, InternalFits, Absorb, WithChild, Halves, SoundChildren;
    NodeFits(node, lo, hi, h, cap);
    SoundByChildren(node, lo, hi, h, cap);
    match g
    case One(t) =>
      ReplaceChild(node, i, t, lo, hi, h - 1, cap);
      SoundByChildren(WithChild(node, i, t), lo, hi, h, cap);
    case Two(l, separator, r) =>
      var n := Absorb(node, i, l, separator, r);
      AbsorbTwo(node, i, l, separator, r, lo, hi, h - 1, cap);
      if InternalFits(n, cap) {
        SoundByChildren(n, lo, hi, h, cap);
      } else {
        AbsorbEntries(node, i, l, separator, r);
        var (a, b, promoted) := Halves(n);
        HalveChildren(n, lo, hi, h - 1, cap);
        if InternalFits(a, cap) && InternalFits(b, cap) {
          SoundByChildren(a, lo, Some(promoted), h, cap);
          SoundByChildren(b, Some(promoted), hi, h, cap);
        }
      }
  }

  lemma NodeFits(node: Internal<Tree>, lo: Bound, hi: Bound, h: nat, cap: nat)
    requires Sound(InnerTree(node), lo, hi, h, cap)
    ensures InternalFits(node, cap) && SortedEntries(node.entries)
  {
  }

  /** Through the new parent, a query meets the changed child only where it met the old one. */
  lemma ParentRoutes(node: Internal<Tree>, i: nat, g: Grown, lo: Bound, hi: Bound, h: nat, cap: nat, q: seq<byte>)
    requires Sound(InnerTree(node), lo, hi, h, cap) && h > 0 && i <= |node.entries|
    requires SoundGrown(g, LowerOf(node.entries, lo, i), UpperOf(node.entries, hi, i), h - 1, cap)
    ensures var r := GrowParent(node, i, g, cap);
            r.Grew? ==>
              LookupGrown(r.grown, q) ==
              if Rank(node.entries, q) == i then LookupGrown(g, q) else Lookup(InnerTree(node), q)
  {
    hide Lt, Sound, InternalFits, Absorb, WithChild, Halves, Rank;
    NodeFits(node, lo, hi, h, cap);
    match g
    case One(t) =>
      WithChildKeeps(node, i, t, q);
    case Two(l, separator, r) =>
      SoundByChildren(node, lo, hi, h, cap);
      SeparatorIsBetween(node, i, separator, lo, hi);
      AbsorbRoutes(node, i, l, separator, r, q);
      var n := Absorb(node, i, l, separator, r);
      if !InternalFits(n, cap) {
        AbsorbEntries(node, i, l, separator, r);
        HalvesRoute(n, q);
      }
  }

  /** A put anywhere below: the subtree stays sound, and every query but the key's sees what it saw. */
  lemma {:induction false} PutLaws(t: Tree, x: Record, cap: nat, lo: Bound, hi: Bound, h: nat, q: seq<byte>)
    requires Sound(t, lo, hi, h, cap) && AtLeast(lo, x.key) && Under(x.key, hi) && SliceFits([x], cap)
    ensures var r := PutIn(t, x, cap, lo, hi);
            r.Grew? ==>
              && SoundGrown(r.grown, lo, hi, h, cap)
              && LookupGrown(r.grown, q) == if q == x.key then Some(x.value) else Lookup(t, q)
    decreases t
  {
    hide SliceFits, Lt, PutLeaf, GrowParent, Rank, InMap, SoundGrown, LookupGrown;
    match t
    case LeafTree(rs) => LeafPutLaws(rs, x, cap, lo, hi, q);
    case InnerTree(node) =>
      var i := Rank(node.entries, x.key);
      var child := ChildAt(node, i);
      KeyInChild(node, x.key, lo, hi);
      PutLaws(child, x, cap, LowerOf(node.entries, lo, i), UpperOf(node.entries, hi, i), h - 1, q);
      var below := PutIn(child, x, cap, LowerOf(node.entries, lo, i), UpperOf(node.entries, hi, i));
      if below.Grew? {
        ParentIsSound(node, i, below.grown, lo, hi, h, cap);
        ParentRoutes(node, i, below.grown, lo, hi, h, cap, q);
      }
  }

  /** The child a key routes to is the one whose separators enclose it. */
  lemma KeyInChild(node: Internal<Tree>, k: seq<byte>, lo: Bound, hi: Bound)
    requires SortedEntries(node.entries) && AtLeast(lo, k) && Under(k, hi)
    ensures var i := Rank(node.entries, k);
            AtLeast(LowerOf(node.entries, lo, i), k) && Under(k, UpperOf(node.entries, hi, i))
  {
    hide Lt, Rank;
    RankParts(node.entries, k);
  }

  // ---------------------------------------------------------------------
  // Delete
  // ---------------------------------------------------------------------

  /** Removes from the leaf; no node is merged. */
  ghost function DeleteIn(t: Tree, k: seq<byte>): Tree
  {
    match t
    case LeafTree(rs) => LeafTree(Removed(rs, k))
    case InnerTree(node) =>
      var i := Rank(node.entries, k);
      InnerTree(WithChild(node, i, DeleteIn(ChildAt(node, i), k)))
  }

  lemma RemovedFits(rs: seq<Record>, k: seq<byte>, cap: nat)
    requires Sorted(rs) && SliceFits(rs, cap)
    ensures SliceFits(Removed(rs, k), cap)
  {
    hide NeededBytes, Below, Lt;
    var b, t := Below(rs, k), Through(rs, k);
    var left, right := rs[..b], rs[t..];
    if b == t {
      assert left + right == rs;
    } else if left == [] {
      SizeIsMonotone(rs, t, |rs|);
      assert left + right == rs[t..|rs|];
    } else if right == [] {
      SizeIsMonotone(rs, 0, b);
      assert left + right == rs[0..b];
    } else {
      assert rs == left + [rs[b]] + right;
      WithoutMiddle(left, rs[b], right);
    }
  }

  lemma LeafDeleteLaws(rs: seq<Record>, k: seq<byte>, lo: Bound, hi: Bound, cap: nat, q: seq<byte>)
    requires Sound(LeafTree(rs), lo, hi, 0, cap)
    ensures Sound(LeafTree(Removed(rs, k)), lo, hi, 0, cap)
    ensures InMap(Removed(rs, k), q) == if q == k then None else InMap(rs, q)
  {
    hide Lt, AsMap, Below, SliceFits;
    RemovedIsDelete(rs, k);
    RemovedFits(rs, k, cap);
  }

  lemma {:induction false} DeleteLaws(t: Tree, k: seq<byte>, cap: nat, lo: Bound, hi: Bound, h: nat, q: seq<byte>)
    requires Sound(t, lo, hi, h, cap)
    ensures Sound(DeleteIn(t, k), lo, hi, h, cap)
    ensures Lookup(DeleteIn(t, k), q) == if q == k then None else Lookup(t, q)
    decreases t
  {
    hide Lt, Rank, InMap, SliceFits, InternalFits;
    match t
    case LeafTree(rs) => LeafDeleteLaws(rs, k, lo, hi, cap, q);
    case InnerTree(node) =>
      var i := Rank(node.entries, k);
      DeleteLaws(ChildAt(node, i), k, cap, LowerOf(node.entries, lo, i), UpperOf(node.entries, hi, i), h - 1, q);
      var g := One(DeleteIn(ChildAt(node, i), k));
      ParentIsSound(node, i, g, lo, hi, h, cap);
      ParentRoutes(node, i, g, lo, hi, h, cap, q);
  }

  // ---------------------------------------------------------------------
  // Whole runs
  // ---------------------------------------------------------------------

  datatype Op = PutOp(record: Record) | DeleteOp(key: seq<byte>)
  datatype Failure = PageTooLarge | NeverReturns

  /** Some height makes the tree sound. */
  ghost predicate Good(t: Tree, cap: nat)
  {
    exists h: nat :: Sound(t, None, None, h, cap)
  }

  ghost function NewRoot(g: Grown, cap: nat): Result<Tree, Failure>
  {
    match g
    case One(t) => Ok(t)
    case Two(left, separator, right) =>
      var root := Internal(left, [Entry(separator, right)]);
      if InternalFits(root, cap) then Ok(InnerTree(root)) else Err(PageTooLarge)
  }

  /** A record too large for an empty leaf, or a key too large for a separator, is turned away before anything changes. */
  ghost function Apply(t: Tree, op: Op, cap: nat): Result<Tree, Failure>
    requires Good(t, cap) && LegalCapacity(cap)
  {
    match op
    case PutOp(x) =>
      if !Accepted(x, cap) then Ok(t)
      else
        AcceptedFits(x, cap);
        (match PutIn(t, x, cap, None, None)
         case Grew(g) => NewRoot(g, cap)
         case Refused => Err(PageTooLarge)
         case Spins => Err(NeverReturns))
    case DeleteOp(k) => Ok(DeleteIn(t, k))
  }

  ghost function MapAfter(m: map<seq<byte>, LeafValue>, op: Op, cap: nat): map<seq<byte>, LeafValue>
  {
    match op
    case PutOp(x) => if Accepted(x, cap) then m[x.key := x.value] else m
    case DeleteOp(k) => m - {k}
  }

  ghost predicate Represents(t: Tree, m: map<seq<byte>, LeafValue>, cap: nat)
  {
    && Good(t, cap)
    && forall q: seq<byte> :: Lookup(t, q) == if q in m then Some(m[q]) else None
  }

  lemma RootLaws(g: Grown, h: nat, cap: nat, q: seq<byte>)
    requires SoundGrown(g, None, None, h, cap)
    ensures var r := NewRoot(g, cap);
            r.Ok? ==> Good(r.value, cap) && Lookup(r.value, q) == LookupGrown(g, q)
  {
    hide Lt, Sound, InternalFits;
    match g
    case One(t) =>
    case Two(left, separator, right) =>
      var root := Internal(left, [Entry(separator, right)]);
      NotLt(q, separator);
      PartsIsRank(root.entries, q, if Lt(q, separator) then 0 else 1);
      if InternalFits(root, cap) { SoundByChildren(root, None, None, h + 1, cap); }
  }

  /** One operation on a tree that stands for `m` leaves a tree that stands for the updated map. */
  lemma ApplyRefines(t: Tree, m: map<seq<byte>, LeafValue>, op: Op, cap: nat)
    requires Represents(t, m, cap) && LegalCapacity(cap)
    ensures var r := Apply(t, op, cap);
            r.Ok? ==> Represents(r.value, MapAfter(m, op, cap), cap)
  {
    hide SliceFits, Accepted, PutIn, DeleteIn, Sound, SoundGrown, LookupGrown, NewRoot, Lookup;
    var h: nat :| Sound(t, None, None, h, cap);
    var r := Apply(t, op, cap);
    if r.Ok? {
      forall q: seq<byte>
        ensures Good(r.value, cap)
        ensures Lookup(r.value, q) == if q in MapAfter(m, op, cap) then Some(MapAfter(m, op, cap)[q]) else None
      {
        match op
        case PutOp(x) =>
          if Accepted(x, cap) {
            AcceptedFits(x, cap);
            SoundIsOrdered(t, h, cap);
            PutLaws(t, x, cap, None, None, h, q);
            RootLaws(PutIn(t, x, cap, None, None).grown, h, cap, q);
          }
        case DeleteOp(k) =>
          DeleteLaws(t, k, cap, None, None, h, q);
      }
      var q0: seq<byte> := [];
      assert Good(r.value, cap) by { assert Lookup(r.value, q0) == Lookup(r.value, q0); }
    }
  }

  lemma SoundIsOrdered(t: Tree, h: nat, cap: nat)
    requires Sound(t, None, None, h, cap)
    ensures Ordered(t, None, None)
  {
  }

  ghost function MapOf(ops: seq<Op>, cap: nat): map<seq<byte>, LeafValue>
  {
    if ops == [] then map[] else MapAfter(MapOf(ops[..|ops| - 1], cap), ops[|ops| - 1], cap)
  }

  lemma EmptyTree(cap: nat)
    requires LegalCapacity(cap)
    ensures Represents(LeafTree([]), map[], cap)
  {
    assert Sound(LeafTree([]), None, None, 0, cap);
  }

  /** Every run from the empty tree that returns leaves exactly the map its operations describe. */
  ghost function Run(ops: seq<Op>, cap: nat): (r: Result<Tree, Failure>)
    requires LegalCapacity(cap)
    ensures r.Ok? ==> Represents(r.value, MapOf(ops, cap), cap)
  {
    if ops == [] then
      EmptyTree(cap);
      Ok(LeafTree([]))
    else
      var before := Run(ops[..|ops| - 1], cap);
      if before.Err? then before
      else
        ApplyRefines(before.value, MapOf(ops[..|ops| - 1], cap), ops[|ops| - 1], cap);
        Apply(before.value, ops[|ops| - 1], cap)
  }
}
