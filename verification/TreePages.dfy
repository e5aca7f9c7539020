/** A tree laid out in pages, and point lookup over the raw page bytes. */
module TreePages {
  import opened Bytes
  import opened NodeLayout
  import opened Leaves
  import opened LeafCodec
  import opened LeafAccess
  import opened Internals
  import opened InternalCodec
  import opened Trees
  import Chains = OverflowChains

  type PageBodies = map<u64, seq<byte>>
  datatype ReadError = Unreadable | BadNode | RevisitedPage | BadChain

  /** The page at `id` and those it leads to hold the nodes of `t`. */
  ghost predicate Stored(pages: PageBodies, id: u64, t: Tree)
    decreases t
  {
    && id != 0 && id in pages
    && match t
       case LeafTree(rs) => WellFormedLeaf(pages[id]) && DecodedLeaf(pages[id]).records == rs
       case InnerTree(node) =>
         && WellFormedInternal(pages[id]) && ReadHeader(pages[id]).value.prefixLen == 0
         && SameKeys(DecodedInternal(pages[id]), node)
         && forall j :: 0 <= j <= |node.entries| ==>
              Stored(pages, ChildAt(DecodedInternal(pages[id]), j), ChildAt(node, j))
  }

  ghost predicate SameKeys(a: Pointers, b: Internal<Tree>)
  {
    |a.entries| == |b.entries| && forall j :: 0 <= j < |a.entries| ==> a.entries[j].key == b.entries[j].key
  }

  lemma {:induction false} SameKeysRank(a: seq<Separator>, b: seq<Entry<Tree>>, q: seq<byte>)
    requires |a| == |b| && forall j :: 0 <= j < |a| ==> a[j].key == b[j].key
    ensures Rank(a, q) == Rank(b, q)
  {
    if a != [] { SameKeysRank(a[..|a| - 1], b[..|b| - 1], q); }
  }

  /** An encoded leaf stores its records. */
  lemma EncodedLeafIsStored(pages: PageBodies, id: u64, leaf: Leaf, cap: nat)
    requires id != 0 && id in pages && LeafCodec.Fitting(leaf, cap) && pages[id] == LeafCodec.EncodedBody(leaf, cap)
    ensures Stored(pages, id, LeafTree(leaf.records))
  {
    hide LeafCodec.EncodedBody, DecodedLeaf, WellFormedNode;
    LeafRoundTrip(leaf, cap);
  }

  /** An encoded internal node over stored children stores the subtree. */
  lemma EncodedInternalIsStored(pages: PageBodies, id: u64, pointers: Pointers, node: Internal<Tree>, cap: nat)
    requires id != 0 && id in pages
    requires InternalCodec.Fitting(pointers, cap) && pages[id] == InternalCodec.EncodedBody(pointers, cap)
    requires SameKeys(pointers, node)
    requires forall j :: 0 <= j <= |node.entries| ==> Stored(pages, ChildAt(pointers, j), ChildAt(node, j))
    ensures Stored(pages, id, InnerTree(node))
  {
    hide InternalCodec.EncodedBody, DecodedInternal, WellFormedNode, ReadHeader;
    InternalRoundTrip(pointers, cap);
  }

  /** Pages determine the height of what they hold. */
  lemma {:induction false} StoredLevel(pages: PageBodies, id: u64, t: Tree, u: Tree, h: nat, k: nat)
    requires Stored(pages, id, t) && Stored(pages, id, u) && Level(t, h) && Level(u, k)
    ensures h == k
    decreases t
  {
    hide DecodedInternal, DecodedLeaf, WellFormedNode, SameKeys, ReadHeader;
    if t.InnerTree? && u.InnerTree? {
      var child := ChildAt(DecodedInternal(pages[id]), 0);
      assert Stored(pages, child, ChildAt(t.node, 0)) && Stored(pages, child, ChildAt(u.node, 0));
      StoredLevel(pages, child, ChildAt(t.node, 0), ChildAt(u.node, 0), h - 1, k - 1);
    }
  }

  /** Each page already passed on the way down holds a taller tree than the one ahead. */
  ghost predicate TallerBehind(pages: PageBodies, seen: set<u64>, h: nat)
  {
    forall id :: id in seen ==> id in pages && exists t, k: nat :: k > h && Stored(pages, id, t) && Level(t, k)
  }

  lemma NeverRevisits(pages: PageBodies, seen: set<u64>, id: u64, t: Tree, h: nat)
    requires Stored(pages, id, t) && Level(t, h) && TallerBehind(pages, seen, h)
    ensures id !in seen
  {
    hide Stored, Level;
    if id in seen {
      var u, k: nat :| k > h && Stored(pages, id, u) && Level(u, k);
      StoredLevel(pages, id, t, u, h, k);
    }
  }

  /** One step down: the child the page routes to holds the child the tree routes to. */
  lemma StepDown(pages: PageBodies, seen: set<u64>, id: u64, t: Tree, h: nat, lo: Bound, hi: Bound, q: seq<byte>)
    requires t.InnerTree? && Stored(pages, id, t) && Level(t, h) && Ordered(t, lo, hi) && TallerBehind(pages, seen, h)
    ensures var r := Rank(t.node.entries, q);
            && WellFormedInternal(pages[id]) && ReadHeader(pages[id]).value.prefixLen == 0
            && SortedEntries(DecodedInternal(pages[id]).entries)
            && Stored(pages, Route(DecodedInternal(pages[id]), q), ChildAt(t.node, r))
            && h > 0 && Level(ChildAt(t.node, r), h - 1)
            && Ordered(ChildAt(t.node, r), LowerOf(t.node.entries, lo, r), UpperOf(t.node.entries, hi, r))
            && TallerBehind(pages, seen + {id}, h - 1)
  {
    hide Lt, Rank, DecodedInternal, WellFormedNode, ReadHeader, DecodedLeaf;
    var d := DecodedInternal(pages[id]);
    SameKeysRank(d.entries, t.node.entries, q);
    assert Stored(pages, ChildAt(d, Rank(d.entries, q)), ChildAt(t.node, Rank(d.entries, q)));
  }

  /** Descends by the zero-copy accessors. On every set of pages it returns; on a stored tree it is the tree's lookup. */
  method Get(pages: PageBodies, root: u64, q: seq<byte>, ghost t: Tree, ghost h: nat)
    returns (r: Result<Option<LeafValue>, ReadError>)
    ensures Stored(pages, root, t) && Level(t, h) && Ordered(t, None, None) ==> r == Ok(Lookup(t, q))
  {
    hide Stored, Level, Ordered, TallerBehind, DecodedLeaf, DecodedInternal, WellFormedNode, ReadHeader;
    hide Route, Sorted, AsMap;
    ghost var good := Stored(pages, root, t) && Level(t, h) && Ordered(t, None, None);
    ghost var here, height, lo: Bound, hi: Bound := t, h, None, None;
    var id, seen: set<u64> := root, {};
    NothingBehind(pages, h);
    while true
      invariant good ==>
                  && Stored(pages, id, here) && Level(here, height) && Ordered(here, lo, hi)
                  && TallerBehind(pages, seen, height) && Lookup(here, q) == Lookup(t, q)
      decreases |pages.Keys - seen|
    {
      if good { NeverRevisits(pages, seen, id, here, height); IsPresent(pages, id, here); }
      if id == 0 || id in seen { return Err(RevisitedPage); }
      if id !in pages { return Err(Unreadable); }
      Shrinks(pages, id, seen);
      var header := ValidateNodeBody(pages[id]);
      if good { KindOf(pages, id, here); }
      if header.Err? { return Err(BadNode); }
      if header.value.kind.LeafNode? {
        var acc := LeafAccessor(pages[id], header.value.prefixLen, header.value.slotCount);
        var found := acc.Get(q);
        if good { LeafAnswer(pages, id, here, lo, hi, q, found); }
        return Ok(found);
      }
      if header.value.prefixLen != 0 { return Err(BadNode); }
      var acc := InternalAccessor(pages[id], header.value.slotCount, header.value.dualUse);
      var child := acc.ChildFor(q);
      if good {
        StepDown(pages, seen, id, here, height, lo, hi, q);
        ghost var k := Rank(here.node.entries, q);
        here, height, lo, hi :=
          ChildAt(here.node, k), height - 1, LowerOf(here.node.entries, lo, k), UpperOf(here.node.entries, hi, k);
      }
      seen := seen + {id};
      id := child;
    }
  }

  lemma NothingBehind(pages: PageBodies, h: nat)
    ensures TallerBehind(pages, {}, h)
  {
  }

  lemma IsPresent(pages: PageBodies, id: u64, t: Tree)
    requires Stored(pages, id, t)
    ensures id != 0 && id in pages
  {
  }

  lemma Shrinks(pages: PageBodies, id: u64, seen: set<u64>)
    requires id in pages && id !in seen
    ensures |pages.Keys - (seen + {id})| < |pages.Keys - seen|
  {
    assert pages.Keys - seen == (pages.Keys - (seen + {id})) + {id};
  }

  lemma KindOf(pages: PageBodies, id: u64, t: Tree)
    requires Stored(pages, id, t)
    ensures WellFormedNode(pages[id])
    ensures ReadHeader(pages[id]).value.kind.LeafNode? <==> t.LeafTree?
    ensures t.InnerTree? ==> ReadHeader(pages[id]).value.prefixLen == 0
  {
  }

  lemma LeafAnswer(pages: PageBodies, id: u64, t: Tree, lo: Bound, hi: Bound, q: seq<byte>, found: Option<LeafValue>)
    requires Stored(pages, id, t) && t.LeafTree? && Ordered(t, lo, hi)
    requires var rs := DecodedLeaf(pages[id]).records;
             Sorted(rs) ==> (found.Some? <==> q in AsMap(rs)) && (found.Some? ==> found.value == AsMap(rs)[q])
    ensures found == Lookup(t, q)
  {
    hide AsMap, DecodedLeaf;
  }

  /** The bytes a stored value stands for, if its chain reads at the length the leaf declares. */
  ghost function ValueBytesOf(v: LeafValue, chains: Chains.Pages): Option<seq<byte>>
  {
    match v
    case Inline(bytes) => Some(bytes)
    case Overflow(totalLen, rootId) =>
      var chain := Chains.Chain(chains, rootId);
      if totalLen < Chains.MAX_LENGTH && chain.Ok? && |Chains.Data(chain.value)| == totalLen
      then Some(Chains.Data(chain.value)) else None
  }

  /** Lookup down to the value's bytes, over its overflow pages if it has them. */
  method GetBytes(pages: PageBodies, root: u64, q: seq<byte>, chains: Chains.PageStore, ghost t: Tree, ghost h: nat)
    returns (r: Result<Option<seq<byte>>, ReadError>)
    ensures Stored(pages, root, t) && Level(t, h) && Ordered(t, None, None) ==>
              match Lookup(t, q)
              case None => r == Ok(None)
              case Some(v) =>
                var bytes := ValueBytesOf(v, chains.pages);
                if bytes.Some? then r == Ok(bytes) else r == Err(BadChain)
  {
    hide Stored, Level, Ordered, Lookup;
    var found := Get(pages, root, q, t, h);
    if found.Err? { return Err(found.error); }
    if found.value.None? { return Ok(None); }
    match found.value.value
    case Inline(bytes) =>
      return Ok(Some(bytes));
    case Overflow(totalLen, rootId) =>
      var read := chains.ReadChain(rootId, totalLen);
      if read.Err? { return Err(BadChain); }
      return Ok(Some(read.value));
  }

  /** A value as a put stores it: inline up to a quarter page, on an overflow chain beyond. */
  method StoreValue(value: seq<byte>, pageSize: nat, chains: Chains.PageStore, alloc: nat -> u64,
                    faults: nat -> Chains.WriteFault)
    returns (r: Result<LeafValue, ReadError>)
    requires LegalPageSize(pageSize) && chains.Valid() && chains.cap == BodyCapacity(pageSize)
    requires |value| < U64_LIMIT
    requires |value| > pageSize / 4 ==> Chains.FreshIds(Chains.Allocated(value, alloc, chains.cap))
    modifies chains`pages
    ensures chains.Valid()
    ensures |value| <= pageSize / 4 ==> r == Ok(Inline(value)) && chains.pages == old(chains.pages)
    ensures |value| > pageSize / 4 ==>
              && (r.Ok? <==> Chains.AllStored(faults, |Chains.Allocated(value, alloc, chains.cap)|))
              && (r.Ok? ==> r.value.Overflow? && r.value.totalLen == |value|)
    ensures r.Ok? && |value| < Chains.MAX_LENGTH ==> ValueBytesOf(r.value, chains.pages) == Some(value)
  {
    hide Chains.Chain, Chains.Data, Chains.Ids, Chains.FreshIds, Chains.AllStored, Chains.Allocated, Chains.OnlyChanged;
    if |value| <= pageSize / 4 { return Ok(Inline(value)); }
    var root := chains.WriteChain(value, alloc, faults);
    if root.Err? { return Err(BadChain); }
    return Ok(Overflow(|value|, root.value));
  }
}
