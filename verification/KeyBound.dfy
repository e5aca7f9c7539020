/** How long separators may be for an overfull internal node to halve into two that fit. */
module KeyBounds {
  import opened Arithmetic
  import opened Bytes
  import opened NodeLayout
  import opened Internals

  /** The longest key length for which every overfull node halves, per page size. */
  function KeyBound(cap: nat): nat
    requires LegalCapacity(cap)
  {
    match cap + ENVELOPE_OVERHEAD
    case 4096 => 222
    case 8192 => 313
    case 16384 => 454
    case 32768 => 642
    case _ => 911
  }

  ghost predicate SeparatorsUpTo<C>(es: seq<Entry<C>>, k: nat)
  {
    forall j :: 0 <= j < |es| ==> |es[j].key| <= k
  }

  /** A node with keys of at most `k` bytes that fits, about to take such a separator into child `i`. */
  ghost predicate Growing<C>(node: Internal<C>, i: nat, separator: seq<byte>, k: nat, cap: nat)
  {
    && SortedEntries(node.entries) && Between(node.entries, i, separator)
    && SeparatorsUpTo(node.entries, k) && |separator| <= k && InternalFits(node, cap)
  }

  ghost predicate HalvesFit<C>(n: Internal<C>, cap: nat)
  {
    n.entries != [] && InternalFits(Halves(n).0, cap) && InternalFits(Halves(n).1, cap)
  }

  ghost predicate AlwaysHalves<C(!new)>(k: nat, cap: nat)
  {
    forall node: Internal<C>, i: nat, l: C, separator: seq<byte>, r: C ::
      Growing(node, i, separator, k, cap) ==> HalvesFit(Absorb(node, i, l, separator, r), cap)
  }

  // ---------------------------------------------------------------------
  // Weights
  // ---------------------------------------------------------------------

  /** Entry bytes with their slots. */
  function Weight<C>(es: seq<Entry<C>>): nat
  {
    2 * |es| + EntriesSize(es)
  }

  lemma WeightSplit<C>(es: seq<Entry<C>>, k: nat)
    requires k <= |es|
    ensures Weight(es) == Weight(es[..k]) + Weight(es[k..])
  {
    hide EntriesSize;
    EntriesSizeSplit(es, k);
  }

  lemma {:induction false} WeightAtMost<C>(es: seq<Entry<C>>, k: nat)
    requires SeparatorsUpTo(es, k)
    ensures Weight(es) <= |es| * (k + 12)
  {
    if es != [] { WeightAtMost(es[..|es| - 1], k); }
  }

  /** Sorted keys past the first are not empty. */
  lemma {:induction false} WeightAtLeast<C>(es: seq<Entry<C>>)
    requires SortedEntries(es)
    ensures Weight(es) >= 13 * |es| - 1
    ensures es != [] && es[0].key != [] ==> Weight(es) >= 13 * |es|
  {
    if es != [] {
      var n := |es| - 1;
      WeightAtLeast(es[..n]);
      assert n > 0 ==> Lt(es[0].key, es[n].key);
    }
  }

  lemma TailWeight<C>(es: seq<Entry<C>>, k: nat)
    requires SortedEntries(es) && 0 < k <= |es|
    ensures Weight(es[k..]) >= 13 * (|es| - k)
  {
    hide EntriesSize;
    var tail := es[k..];
    assert tail != [] ==> tail[0] == es[k] && Lt(es[0].key, es[k].key);
    WeightAtLeast(tail);
  }

  lemma AbsorbWeight<C>(node: Internal<C>, i: nat, l: C, separator: seq<byte>, r: C)
    requires i <= |node.entries|
    ensures Weight(Absorb(node, i, l, separator, r).entries) == Weight(node.entries) + |separator| + 12
  {
    hide EntriesSize;
    var m := WithChild(node, i, l);
    SameKeysSameSize(node.entries, m.entries);
    var fs := Absorb(node, i, l, separator, r).entries;
    WeightSplit(m.entries, i);
    WeightSplit(fs, i);
    WeightSplit(fs[i..], 1);
    assert fs[..i] == m.entries[..i] && fs[i..][1..] == m.entries[i..] && fs[i..][..1] == [Entry(separator, r)];
    OneWeight(Entry(separator, r));
  }

  lemma OneWeight<C>(e: Entry<C>)
    ensures Weight([e]) == |e.key| + 12
  {
    assert [e][..0] == [];
    assert EntriesSize([e]) == EntriesSize([e][..0]) + EntrySize(e);
  }

  lemma FittingHalves<C>(n: Internal<C>, cap: nat)
    requires n.entries != [] && InternalFits(n, cap)
    ensures HalvesFit(n, cap)
  {
    hide EntriesSize;
    EntriesSizeSplit(n.entries, |n.entries| / 2);
    EntriesSizeSplit(n.entries, |n.entries| / 2 + 1);
  }

  // ---------------------------------------------------------------------
  // Up to the bound
  // ---------------------------------------------------------------------

  /** So few entries that as many others could be light enough weigh no more than a page. */
  lemma FewAreLight(m: nat, k: nat, cap: nat)
    requires LegalCapacity(cap) && k <= KeyBound(cap) && 13 * m <= k + 11
    ensures m * (k + 12) <= cap - HEADER_LEN
  {
    var most := (KeyBound(cap) + 11) / 13;
    assert most * (KeyBound(cap) + 12) <= cap - HEADER_LEN;
    MulMonotone(k + 12, KeyBound(cap) + 12, m);
    MulMonotone(m, most, KeyBound(cap) + 12);
  }

  /** A part that outweighs the page would leave less than its own count in light entries for the rest. */
  lemma PartFits(part: nat, rest: nat, m: nat, k: nat, cap: nat)
    requires LegalCapacity(cap) && k <= KeyBound(cap)
    requires part + rest <= cap - HEADER_LEN + k + 12
    requires part <= m * (k + 12) && rest >= 13 * m
    ensures part <= cap - HEADER_LEN
  {
    if 13 * m <= k + 11 { FewAreLight(m, k, cap); }
  }

  lemma AbsorbedHalves<C>(node: Internal<C>, i: nat, l: C, separator: seq<byte>, r: C, k: nat, cap: nat)
    requires LegalCapacity(cap) && k <= KeyBound(cap) && Growing(node, i, separator, k, cap)
    ensures HalvesFit(Absorb(node, i, l, separator, r), cap)
  {
    hide EntriesSize, KeyBound, Lt, Absorb;
    var n := Absorb(node, i, l, separator, r);
    AbsorbEntries(node, i, l, separator, r);
    AbsorbWeight(node, i, l, separator, r);
    AbsorbStaysSorted(node, i, l, separator, r);
    SortedHalves(n, k, cap);
  }

  lemma SortedHalves<C>(n: Internal<C>, k: nat, cap: nat)
    requires LegalCapacity(cap) && k <= KeyBound(cap)
    requires n.entries != [] && SortedEntries(n.entries) && SeparatorsUpTo(n.entries, k)
    requires Weight(n.entries) <= cap - HEADER_LEN + k + 12
    ensures HalvesFit(n, cap)
  {
    hide EntriesSize, KeyBound, Lt;
    var es, mid := n.entries, |n.entries| / 2;
    WeightSplit(es, mid);
    WeightAtMost(es[..mid], k);
    if mid > 0 {
      TailWeight(es, mid);
      PartFits(Weight(es[..mid]), Weight(es[mid..]), mid, k, cap);
    }
    var right := |es| - mid - 1;
    WeightSplit(es, mid + 1);
    WeightAtMost(es[mid + 1..], k);
    WeightAtLeast(es[..mid + 1]);
    PartFits(Weight(es[mid + 1..]), Weight(es[..mid + 1]), right, k, cap);
  }

  // ---------------------------------------------------------------------
  // One byte past the bound
  // ---------------------------------------------------------------------

  /** Long keys: `m` of them, the first cut to `first` bytes, in order by their second byte. */
  function LongKey(j: nat, first: nat, long: nat): (key: seq<byte>)
    requires j < 256 && 2 <= first <= long
    ensures |key| == if j == 0 then first else long
  {
    [0, j] + Zeros((if j == 0 then first else long) - 2)
  }

  function ShortKey(j: nat): seq<byte>
    requires j < 255
  {
    [j + 1]
  }

  /** `a` long keys and then `m` one-byte keys, over the given children. */
  function LongThenShort<C>(child: nat -> C, a: nat, m: nat, first: nat, long: nat): (node: Internal<C>)
    requires a <= m < 255 && 2 <= first <= long
    ensures |node.entries| == a + m
    ensures forall j :: 0 <= j < a ==> node.entries[j].key == LongKey(j, first, long)
    ensures forall j :: a <= j < a + m ==> node.entries[j].key == ShortKey(j - a)
    ensures forall j :: 0 <= j <= a + m ==> ChildAt(node, j) == child(j)
  {
    Internal(child(0), seq(a + m, j requires 0 <= j < a + m =>
      Entry(if j < a then LongKey(j, first, long) else ShortKey(j - a), child(j + 1))))
  }

  lemma KeyOrder(i: nat, j: nat, first: nat, long: nat)
    requires i < 255 && j < 255 && 2 <= first <= long
    ensures i < j ==> Lt(LongKey(i, first, long), LongKey(j, first, long)) && Lt(ShortKey(i), ShortKey(j))
    ensures Lt(LongKey(i, first, long), ShortKey(j))
  {
    var a, b := LongKey(i, first, long), LongKey(j, first, long);
    assert a[0] == b[0] == 0 && a[1..][0] == i && b[1..][0] == j;
  }

  lemma LongThenShortSorted<C>(child: nat -> C, a: nat, m: nat, first: nat, long: nat)
    requires a <= m < 255 && 2 <= first <= long
    ensures SortedEntries(LongThenShort(child, a, m, first, long).entries)
  {
    hide Lt, LongKey, ShortKey, LongThenShort;
    var es := LongThenShort(child, a, m, first, long).entries;
    forall i, j | 0 <= i < j < |es| ensures Lt(es[i].key, es[j].key) {
      KeyOrder(if i < a then i else i - a, if j < a then j else j - a, first, long);
    }
  }

  lemma {:induction false} UniformWeight<C>(es: seq<Entry<C>>, x: nat)
    requires forall j :: 0 <= j < |es| ==> |es[j].key| == x
    ensures Weight(es) == |es| * (x + 12)
  {
    if es != [] { UniformWeight(es[..|es| - 1], x); }
  }

  lemma LongWeight<C>(es: seq<Entry<C>>, first: nat, long: nat)
    requires es != [] && |es[0].key| == first && forall j :: 0 < j < |es| ==> |es[j].key| == long
    ensures Weight(es) == first + 12 + (|es| - 1) * (long + 12)
  {
    hide EntriesSize;
    WeightSplit(es, 1);
    assert es[..1] == [es[0]];
    OneWeight(es[0]);
    UniformWeight(es[1..], long);
  }

  lemma LongThenShortWeight<C>(child: nat -> C, a: nat, m: nat, first: nat, long: nat)
    requires 0 < a <= m < 255 && 2 <= first <= long
    ensures var es := LongThenShort(child, a, m, first, long).entries;
            Weight(es) == first + 12 + (a - 1) * (long + 12) + 13 * m && SeparatorsUpTo(es, long)
  {
    hide Weight, LongThenShort, LongKey;
    var es := LongThenShort(child, a, m, first, long).entries;
    WeightSplit(es, a);
    LongWeight(es[..a], first, long);
    forall j | 0 <= j < m ensures |es[a..][j].key| == 1 { assert es[a..][j].key == ShortKey(a + j - a); }
    UniformWeight(es[a..], 1);
  }

  /** `m - 1` long and `m` one-byte separators fit a page, and with one more long one the left half does not. */
  lemma LeftHalfOverflows<C>(child: nat -> C, l: C, r: C, m: nat, first: nat, long: nat, cap: nat)
    requires 2 <= m < 255 && 2 <= first <= long
    requires first + 12 + (m - 2) * (long + 12) + 13 * m <= cap - HEADER_LEN < first + 12 + (m - 1) * (long + 12)
    ensures var node, separator := LongThenShort(child, m - 1, m, first, long), LongKey(m - 1, first, long);
            && Growing(node, m - 1, separator, long, cap)
            && !HalvesFit(Absorb(node, m - 1, l, separator, r), cap)
  {
    hide EntriesSize, Lt, LongKey, Absorb, LongThenShort;
    var node, separator := LongThenShort(child, m - 1, m, first, long), LongKey(m - 1, first, long);
    LongThenShortSorted(child, m - 1, m, first, long);
    LongThenShortWeight(child, m - 1, m, first, long);
    KeyOrder(m - 2, m - 1, first, long);
    KeyOrder(m - 1, 0, first, long);
    assert node.entries[m - 1].key == ShortKey(0);
    LongHalf(node, m, first, long, separator, l, r);
  }

  lemma LongHalf<C>(node: Internal<C>, m: nat, first: nat, long: nat, separator: seq<byte>, l: C, r: C)
    requires 2 <= m < 255 && 2 <= first <= long && |node.entries| == 2 * m - 1 && |separator| == long
    requires forall j :: 0 <= j < m - 1 ==> node.entries[j].key == LongKey(j, first, long)
    ensures var n := Absorb(node, m - 1, l, separator, r);
            n.entries != [] && Weight(Halves(n).0.entries) == first + 12 + (m - 1) * (long + 12)
  {
    hide Weight, LongKey, Absorb;
    AbsorbEntries(node, m - 1, l, separator, r);
    LongWeight(Absorb(node, m - 1, l, separator, r).entries[..m], first, long);
  }

  /** How many long keys, and how long the first, overfill a half with keys one byte past the bound. */
  function Shape(cap: nat): (nat, nat)
    requires LegalCapacity(cap)
  {
    match cap + ENVELOPE_OVERHEAD
    case 4096 => (18, 26)
    case 8192 => (25, 293)
    case 16384 => (35, 431)
    case 32768 => (50, 598)
    case _ => (71, 781)
  }

  /** Keys one byte past the bound, for every page size: a node that fits, and a separator it cannot take. */
  lemma PastTheBound<C>(child: nat -> C, l: C, r: C, cap: nat)
    requires LegalCapacity(cap)
    ensures var (m, first) := Shape(cap);
            var long := KeyBound(cap) + 1;
            && 2 <= m < 255 && 3 <= first <= long
            && var node, separator := LongThenShort(child, m - 1, m, first, long), LongKey(m - 1, first, long);
               && Growing(node, m - 1, separator, long, cap)
               && !HalvesFit(Absorb(node, m - 1, l, separator, r), cap)
  {
    hide HalvesFit, Growing, Absorb, LongKey, LongThenShort;
    var (m, first) := Shape(cap);
    LeftHalfOverflows(child, l, r, m, first, KeyBound(cap) + 1, cap);
  }

  /** Every node with keys of at most `k` bytes that outgrows its page halves into two that fit, exactly when `k` is at
      most the bound. */
  lemma AlwaysHalvesIff<C(!new)>(c: C, k: nat, cap: nat)
    requires LegalCapacity(cap)
    ensures AlwaysHalves<C>(k, cap) <==> k <= KeyBound(cap)
  {
    hide KeyBound, HalvesFit, Absorb, SortedEntries, Lt, InternalFits, Shape, LongThenShort, LongKey;
    if k <= KeyBound(cap) {
      forall node: Internal<C>, i: nat, l: C, separator: seq<byte>, r: C | Growing(node, i, separator, k, cap)
        ensures HalvesFit(Absorb(node, i, l, separator, r), cap)
      {
        AbsorbedHalves(node, i, l, separator, r, k, cap);
      }
    } else {
      var (m, first) := Shape(cap);
      PastTheBound(_ => c, c, c, cap);
      var long := KeyBound(cap) + 1;
      var node, separator := LongThenShort(_ => c, m - 1, m, first, long), LongKey(m - 1, first, long);
      assert Growing(node, m - 1, separator, k, cap);
    }
  }
}
