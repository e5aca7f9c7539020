/** Internal nodes: routing by separators, parent updates, splits, and the page codec. */
module Internals {
  import opened Bytes
  import opened NodeLayout

  /** A separator key with the child to its right. */
  datatype Entry<+C> = Entry(key: seq<byte>, child: C)

  /** `leftmost` is the child left of the first separator. */
  datatype Internal<+C> = Internal(leftmost: C, entries: seq<Entry<C>>)

  ghost predicate SortedEntries<C>(es: seq<Entry<C>>)
  {
    forall i, j :: 0 <= i < j < |es| ==> Lt(es[i].key, es[j].key)
  }

  /** Child `i`, counting the leftmost as 0. */
  function ChildAt<C>(node: Internal<C>, i: nat): C
    requires i <= |node.entries|
  {
    if i == 0 then node.leftmost else node.entries[i - 1].child
  }

  // ---------------------------------------------------------------------
  // Sizes
  // ---------------------------------------------------------------------

  function EntrySize<C>(e: Entry<C>): nat
  {
    |e.key| + 10
  }

  function EntriesSize<C>(es: seq<Entry<C>>): nat
  {
    if es == [] then 0 else EntriesSize(es[..|es| - 1]) + EntrySize(es[|es| - 1])
  }

  predicate InternalFits<C>(node: Internal<C>, cap: nat)
  {
    HEADER_LEN + 2 * |node.entries| + EntriesSize(node.entries) <= cap
  }

  lemma {:induction false} SameKeysSameSize<C>(es: seq<Entry<C>>, fs: seq<Entry<C>>)
    requires |es| == |fs| && forall j :: 0 <= j < |es| ==> es[j].key == fs[j].key
    ensures EntriesSize(es) == EntriesSize(fs)
  {
    if es != [] { SameKeysSameSize(es[..|es| - 1], fs[..|fs| - 1]); }
  }

  lemma {:induction false} EntriesSizeSplit<C>(es: seq<Entry<C>>, k: nat)
    requires k <= |es|
    ensures EntriesSize(es) == EntriesSize(es[..k]) + EntriesSize(es[k..])
    decreases |es|
  {
    if k == |es| {
      assert es[..k] == es && es[k..] == [];
    } else {
      var init, rest := es[..|es| - 1], es[k..];
      EntriesSizeSplit(init, k);
      assert init[..k] == es[..k];
      assert rest[..|rest| - 1] == init[k..];
    }
  }

  // ---------------------------------------------------------------------
  // Routing
  // ---------------------------------------------------------------------

  /** `i` separators are at or below `query` and the rest above it. */
  ghost predicate Parts<C>(es: seq<Entry<C>>, query: seq<byte>, i: nat)
  {
    && i <= |es|
    && (forall j :: 0 <= j < i ==> Le(es[j].key, query))
    && (forall j :: i <= j < |es| ==> Lt(query, es[j].key))
  }

  /** How many separators are at or below `query`, scanning from the right. */
  function Rank<C>(es: seq<Entry<C>>, query: seq<byte>): (i: nat)
    ensures i <= |es|
  {
    if es == [] then 0
    else if Le(es[|es| - 1].key, query) then |es|
    else Rank(es[..|es| - 1], query)
  }

  /** The child a descent for `query` takes. */
  function Route<C>(node: Internal<C>, query: seq<byte>): C
  {
    ChildAt(node, Rank(node.entries, query))
  }

  lemma {:induction false} RankParts<C>(es: seq<Entry<C>>, query: seq<byte>)
    requires SortedEntries(es)
    ensures Parts(es, query, Rank(es, query))
  {
    if es != [] {
      var n := |es| - 1;
      NotLt(query, es[n].key);
      if Le(es[n].key, query) {
        forall j | 0 <= j < n ensures Le(es[j].key, query) { LeTransitive(es[j].key, es[n].key, query); }
      } else {
        RankParts(es[..n], query);
        forall j | Rank(es, query) <= j < |es| ensures Lt(query, es[j].key) {
          assert j < n ==> es[..n][j] == es[j];
        }
      }
    }
  }

  /** A sorted separator list parts in one place only. */
  lemma PartsIsRank<C>(es: seq<Entry<C>>, query: seq<byte>, i: nat)
    requires SortedEntries(es) && Parts(es, query, i)
    ensures Rank(es, query) == i
  {
    hide Rank, Lt;
    RankParts(es, query);
    var r := Rank(es, query);
    if r < i {
      NotLt(query, es[r].key);
    } else if i < r {
      NotLt(query, es[i].key);
    }
  }

  /** One comparison settles every separator on its side. */
  lemma PartsAt<C>(es: seq<Entry<C>>, query: seq<byte>, mid: nat)
    requires SortedEntries(es) && mid < |es|
    ensures Le(es[mid].key, query) ==> forall j :: 0 <= j <= mid ==> Le(es[j].key, query)
    ensures !Le(es[mid].key, query) ==> forall j :: mid <= j < |es| ==> Lt(query, es[j].key)
  {
    hide Lt;
    NotLt(query, es[mid].key);
    if Le(es[mid].key, query) {
      forall j | 0 <= j < mid ensures Le(es[j].key, query) { LeTransitive(es[j].key, es[mid].key, query); }
    } else {
      forall j | mid < j < |es| ensures Lt(query, es[j].key) { LtTransitive(query, es[mid].key, es[j].key); }
    }
  }

  // ---------------------------------------------------------------------
  // A child replaced by two
  // ---------------------------------------------------------------------

  /** `node` with child `i` replaced. */
  function WithChild<C>(node: Internal<C>, i: nat, child: C): Internal<C>
    requires i <= |node.entries|
  {
    if i == 0 then Internal(child, node.entries)
    else Internal(node.leftmost, node.entries[i - 1 := Entry(node.entries[i - 1].key, child)])
  }

  /** `node` with child `i` replaced by `left`, and `right` added above `separator`. */
  function Absorb<C>(node: Internal<C>, i: nat, left: C, separator: seq<byte>, right: C): Internal<C>
    requires i <= |node.entries|
  {
    var n := WithChild(node, i, left);
    Internal(n.leftmost, n.entries[..i] + [Entry(separator, right)] + n.entries[i..])
  }

  /** `separator` falls strictly inside the key range of child `i`. */
  ghost predicate Between<C>(es: seq<Entry<C>>, i: nat, separator: seq<byte>)
  {
    && i <= |es|
    && (i > 0 ==> Lt(es[i - 1].key, separator))
    && (i < |es| ==> Lt(separator, es[i].key))
  }

  /** Replacing a child moves no separator and no other child. */
  lemma WithChildKeeps<C>(node: Internal<C>, i: nat, child: C, query: seq<byte>)
    requires SortedEntries(node.entries) && i <= |node.entries|
    ensures SortedEntries(WithChild(node, i, child).entries)
    ensures Rank(WithChild(node, i, child).entries, query) == Rank(node.entries, query)
    ensures Route(WithChild(node, i, child), query) ==
            if Rank(node.entries, query) == i then child else Route(node, query)
  {
    hide Lt, Rank;
    RankParts(node.entries, query);
    PartsIsRank(WithChild(node, i, child).entries, query, Rank(node.entries, query));
  }

  lemma AbsorbEntries<C>(node: Internal<C>, i: nat, left: C, separator: seq<byte>, right: C)
    requires i <= |node.entries|
    ensures var fs := Absorb(node, i, left, separator, right).entries;
            && |fs| == |node.entries| + 1
            && fs[i].key == separator
            && (forall j :: 0 <= j < i ==> fs[j].key == node.entries[j].key)
            && (forall j :: i < j < |fs| ==> fs[j].key == node.entries[j - 1].key)
  {
  }

  lemma AbsorbChild<C>(node: Internal<C>, i: nat, left: C, separator: seq<byte>, right: C, j: nat)
    requires i <= |node.entries| && j <= |node.entries| + 1
    ensures ChildAt(Absorb(node, i, left, separator, right), j) ==
            if j < i then ChildAt(node, j) else if j == i then left
            else if j == i + 1 then right else ChildAt(node, j - 1)
  {
  }

  lemma AbsorbStaysSorted<C>(node: Internal<C>, i: nat, left: C, separator: seq<byte>, right: C)
    requires SortedEntries(node.entries) && Between(node.entries, i, separator)
    ensures SortedEntries(Absorb(node, i, left, separator, right).entries)
  {
    hide Lt, Absorb;
    AbsorbEntries(node, i, left, separator, right);
    var es, fs := node.entries, Absorb(node, i, left, separator, right).entries;
    forall j, k | 0 <= j < k < |fs| ensures Lt(fs[j].key, fs[k].key) {
      if k == i && j < i - 1 { LtTransitive(es[j].key, es[i - 1].key, separator); }
      if j == i && k > i + 1 { LtTransitive(separator, es[i].key, es[k - 1].key); }
    }
  }

  /** Every query reaches the child it reached before; those of the split child now part at `separator`. */
  lemma AbsorbRoutes<C>(node: Internal<C>, i: nat, left: C, separator: seq<byte>, right: C, query: seq<byte>)
    requires SortedEntries(node.entries) && Between(node.entries, i, separator)
    ensures SortedEntries(Absorb(node, i, left, separator, right).entries)
    ensures Rank(node.entries, query) != i ==>
              Route(Absorb(node, i, left, separator, right), query) == Route(node, query)
    ensures Rank(node.entries, query) == i ==>
              Route(Absorb(node, i, left, separator, right), query) == if Lt(query, separator) then left else right
  {
    hide Lt, Absorb, Rank, Parts;
    AbsorbEntries(node, i, left, separator, right);
    AbsorbStaysSorted(node, i, left, separator, right);
    RankParts(node.entries, query);
    var r := Rank(node.entries, query);
    var n := Absorb(node, i, left, separator, right);
    var s := AbsorbParts(node, i, left, separator, right, query, r);
    PartsIsRank(n.entries, query, s);
    AbsorbChild(node, i, left, separator, right, s);
  }

  lemma AbsorbParts<C>(node: Internal<C>, i: nat, left: C, separator: seq<byte>, right: C, query: seq<byte>, r: nat)
    returns (s: nat)
    requires SortedEntries(node.entries) && Between(node.entries, i, separator) && Parts(node.entries, query, r)
    ensures Parts(Absorb(node, i, left, separator, right).entries, query, s)
    ensures s == if r < i || (r == i && Lt(query, separator)) then r else r + 1
  {
    hide Lt, Absorb;
    AbsorbEntries(node, i, left, separator, right);
    var es, fs := node.entries, Absorb(node, i, left, separator, right).entries;
    NotLt(query, separator);
    s := if r < i || (r == i && Lt(query, separator)) then r else r + 1;
    if r < i {
      assert Le(es[r].key, es[i - 1].key);
      LtLeTransitive(query, es[r].key, es[i - 1].key);
      LtTransitive(query, es[i - 1].key, separator);
    } else if r > i {
      assert Le(es[i].key, es[r - 1].key);
      LeTransitive(es[i].key, es[r - 1].key, query);
      LtLeTransitive(separator, es[i].key, query);
    }
  }

  // ---------------------------------------------------------------------
  // Splitting a node
  // ---------------------------------------------------------------------

  /** The left half, the right half and the promoted key; the promoted entry's child leads the right half. */
  function Halves<C>(node: Internal<C>): (r: (Internal<C>, Internal<C>, seq<byte>))
    requires node.entries != []
    ensures node.entries == r.0.entries + [Entry(r.2, r.1.leftmost)] + r.1.entries
    ensures node.leftmost == r.0.leftmost
  {
    var mid := |node.entries| / 2;
    (Internal(node.leftmost, node.entries[..mid]),
     Internal(node.entries[mid].child, node.entries[mid + 1..]),
     node.entries[mid].key)
  }

  lemma LeftHalfChild<C>(node: Internal<C>, j: nat)
    requires node.entries != [] && j <= |Halves(node).0.entries|
    ensures j <= |node.entries| && ChildAt(Halves(node).0, j) == ChildAt(node, j)
  {
  }

  lemma RightHalfChild<C>(node: Internal<C>, j: nat)
    requires node.entries != [] && j <= |Halves(node).1.entries|
    ensures |node.entries| / 2 + 1 + j <= |node.entries|
    ensures ChildAt(Halves(node).1, j) == ChildAt(node, |node.entries| / 2 + 1 + j)
  {
  }

  /** Descent through the halves and their promoted key is descent through the node. */
  lemma HalvesRoute<C>(node: Internal<C>, query: seq<byte>)
    requires SortedEntries(node.entries) && node.entries != []
    ensures var (left, right, promoted) := Halves(node);
            && SortedEntries(left.entries) && SortedEntries(right.entries)
            && Route(node, query) == Route(if Lt(query, promoted) then left else right, query)
  {
    hide Lt, Rank;
    var (left, right, promoted) := Halves(node);
    var es, mid, r := node.entries, |node.entries| / 2, Rank(node.entries, query);
    RankParts(es, query);
    NotLt(query, promoted);
    if r <= mid {
      assert Lt(query, promoted);
      PartsIsRank(left.entries, query, r);
    } else {
      assert Le(promoted, query);
      PartsIsRank(right.entries, query, r - mid - 1);
    }
  }

  /** Every separator of the halves keeps its side of the promoted key. */
  lemma HalvesSeparate<C>(node: Internal<C>)
    requires SortedEntries(node.entries) && node.entries != []
    ensures var (left, right, promoted) := Halves(node);
            && (forall j :: 0 <= j < |left.entries| ==> Lt(left.entries[j].key, promoted))
            && (forall j :: 0 <= j < |right.entries| ==> Lt(promoted, right.entries[j].key))
  {
    hide Lt;
  }

  // ---------------------------------------------------------------------
  // The mutable node
  // ---------------------------------------------------------------------

  class InternalBuffer<C(==)> {
    var leftmost: C
    var entries: seq<Entry<C>>

    ghost function Node(): Internal<C>
      reads this
    {
      Internal(leftmost, entries)
    }

    constructor (node: Internal<C>)
      ensures Node() == node
    {
      leftmost := node.leftmost;
      entries := node.entries;
    }

    /** Points the first link to `from` at `to`. */
    method Repoint(from: C, to: C, ghost i: nat)
      requires i <= |entries| && ChildAt(Node(), i) == from
      requires forall j :: 0 <= j < i ==> ChildAt(Node(), j) != from
      modifies this
      ensures Node() == WithChild(old(Node()), i, to)
    {
      assert leftmost == ChildAt(Node(), 0);
      if leftmost == from {
        leftmost := to;
        return;
      }
      var e := 0;
      while e < |entries|
        invariant 0 <= e < i && leftmost == old(leftmost) && entries == old(entries)
      {
        assert entries[e].child == ChildAt(Node(), e + 1);
        if entries[e].child == from {
          entries := entries[e := Entry(entries[e].key, to)];
          return;
        }
        e := e + 1;
      }
    }

    /** Sorted insert, or a new child for an existing separator. */
    method Upsert(key: seq<byte>, child: C)
      requires SortedEntries(entries)
      modifies this`entries
      ensures SortedEntries(entries)
      ensures var i := Rank(old(entries), key);
              if i > 0 && old(entries)[i - 1].key == key
              then entries == old(entries)[i - 1 := Entry(key, child)]
              else entries == old(entries)[..i] + [Entry(key, child)] + old(entries)[i..]
    {
      hide Lt, Rank;
      var lo, hi := 0, |entries|;
      while lo < hi
        invariant 0 <= lo <= hi <= |entries| && entries == old(entries)
        invariant forall j :: 0 <= j < lo ==> Lt(entries[j].key, key)
        invariant forall j :: hi <= j < |entries| ==> Lt(key, entries[j].key)
      {
        var mid := lo + (hi - lo) / 2;
        LtTotal(entries[mid].key, key);
        if entries[mid].key == key {
          PartsIsRank(entries, key, mid + 1);
          entries := entries[mid := Entry(entries[mid].key, child)];
          return;
        } else if Lt(entries[mid].key, key) {
          forall j | 0 <= j < mid ensures Lt(entries[j].key, key) {
            LtTransitive(entries[j].key, entries[mid].key, key);
          }
          lo := mid + 1;
        } else {
          forall j | mid < j < |entries| ensures Lt(key, entries[j].key) {
            LtTransitive(key, entries[mid].key, entries[j].key);
          }
          hi := mid;
        }
      }
      PartsIsRank(entries, key, lo);
      LtIrreflexive(key);
      assert lo > 0 ==> Lt(entries[lo - 1].key, key);
      entries := entries[..lo] + [Entry(key, child)] + entries[lo..];
    }

    /** The parent's part of a split: repoint the old child, then add the separator. */
    method AbsorbSplit(from: C, left: C, separator: seq<byte>, right: C, ghost i: nat)
      requires SortedEntries(entries) && Between(entries, i, separator)
      requires ChildAt(Node(), i) == from
      requires forall j :: 0 <= j < i ==> ChildAt(Node(), j) != from
      modifies this
      ensures Node() == Absorb(old(Node()), i, left, separator, right)
    {
      hide Lt, Rank;
      Repoint(from, left, i);
      assert SortedEntries(entries) && Between(entries, i, separator);
      SeparatorRank(entries, i, separator);
      Upsert(separator, right);
    }
  }

  lemma SeparatorRank<C>(es: seq<Entry<C>>, i: nat, separator: seq<byte>)
    requires SortedEntries(es) && Between(es, i, separator)
    ensures Rank(es, separator) == i
    ensures i > 0 ==> es[i - 1].key != separator
  {
    hide Lt, Rank;
    LtIrreflexive(separator);
    forall j | 0 <= j < i ensures Le(es[j].key, separator) {
      if j < i - 1 { LtTransitive(es[j].key, es[i - 1].key, separator); }
    }
    forall j | i <= j < |es| ensures Lt(separator, es[j].key) {
      if i < j { LtTransitive(separator, es[i].key, es[j].key); }
    }
    PartsIsRank(es, separator, i);
  }
}
