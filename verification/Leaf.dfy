/** Leaf nodes: records, shared prefixes, and encoded sizes under prefix compression. */
module Leaves {
  import opened Bytes
  import opened NodeLayout

  datatype LeafValue = Inline(bytes: seq<byte>) | Overflow(totalLen: u64, rootPageId: u64) {
    /** Bytes the value costs after the key suffix. */
    function EncodedSize(): nat { if Inline? then 2 + |bytes| else 18 }
  }

  datatype Record = Record(key: seq<byte>, value: LeafValue)
  datatype Leaf = Leaf(leftSibling: u64, rightSibling: u64, records: seq<Record>)

  ghost predicate Sorted(rs: seq<Record>)
  {
    forall i, j :: 0 <= i < j < |rs| ==> Lt(rs[i].key, rs[j].key)
  }

  // ---------------------------------------------------------------------
  // Prefix compression
  // ---------------------------------------------------------------------

  /** Common prefix length of a sorted slice, from its first and last keys alone. */
  function LcpLen(rs: seq<Record>): (n: nat)
    ensures rs != [] ==> n <= |rs[0].key| && n <= |rs[|rs| - 1].key|
  {
    if rs == [] then 0 else CommonLen(rs[0].key, rs[|rs| - 1].key)
  }

  function Lcp(rs: seq<Record>): seq<byte>
  {
    if rs == [] then [] else rs[0].key[..LcpLen(rs)]
  }

  /** First and last bracket the slice, so their common prefix is every key's. */
  lemma LcpIsSharedByAll(rs: seq<Record>, i: nat)
    requires Sorted(rs) && i < |rs|
    ensures Lcp(rs) <= rs[i].key
    ensures LcpLen(rs) <= |rs[i].key|
  {
    var p, a, b := Lcp(rs), rs[0].key, rs[|rs| - 1].key;
    assert p <= a && p <= b;
    BetweenSharesPrefix(p, a, rs[i].key, b);
  }

  /** And none longer is: every prefix all keys share is within it. */
  lemma LcpIsLongest(rs: seq<Record>, p: seq<byte>)
    requires rs != [] && forall i :: 0 <= i < |rs| ==> p <= rs[i].key
    ensures p <= Lcp(rs)
  {
    hide CommonLen;
    CommonLenIsLongest(rs[0].key, rs[|rs| - 1].key, p);
  }

  /** Record bytes with the first `p` key bytes factored out. */
  function RecordSize(r: Record, p: nat): nat
  {
    2 + (if |r.key| < p then 0 else |r.key| - p) + r.value.EncodedSize()
  }

  function RecordsSize(rs: seq<Record>, p: nat): nat
  {
    if rs == [] then 0 else RecordsSize(rs[..|rs| - 1], p) + RecordSize(rs[|rs| - 1], p)
  }

  /** Body bytes of the slice when `p` key bytes are shared. */
  function SizeAt(rs: seq<Record>, p: nat): nat
  {
    HEADER_LEN + p + 2 * |rs| + RecordsSize(rs, p)
  }

  function NeededBytes(rs: seq<Record>): nat
  {
    SizeAt(rs, LcpLen(rs))
  }

  predicate SliceFits(rs: seq<Record>, cap: nat)
  {
    NeededBytes(rs) <= cap
  }

  lemma {:induction false} RecordsSizeSplit(rs: seq<Record>, k: nat, p: nat)
    requires k <= |rs|
    ensures RecordsSize(rs, p) == RecordsSize(rs[..k], p) + RecordsSize(rs[k..], p)
    decreases |rs|
  {
    if k == |rs| {
      assert rs[..k] == rs && rs[k..] == [];
    } else {
      var init := rs[..|rs| - 1];
      RecordsSizeSplit(init, k, p);
      assert init[..k] == rs[..k];
      assert rs[k..][..|rs[k..]| - 1] == init[k..];
      assert rs[k..][|rs[k..]| - 1] == rs[|rs| - 1];
    }
  }

  lemma OneMoreShare(n: nat, d: nat)
    ensures (n + 1) * d == n * d + d
  {
  }

  /** Sharing more bytes never costs more: `n` keys save `n` bytes and the prefix costs one. */
  lemma {:induction false} LongerPrefixIsCheaper(rs: seq<Record>, p: nat, q: nat)
    requires p <= q
    requires forall i :: 0 <= i < |rs| ==> q <= |rs[i].key|
    ensures RecordsSize(rs, q) + |rs| * (q - p) == RecordsSize(rs, p)
  {
    if rs != [] {
      var init := rs[..|rs| - 1];
      LongerPrefixIsCheaper(init, p, q);
      OneMoreShare(|init|, q - p);
    }
  }

  /** Compressed size at any shared prefix bounds the size the encoder uses. */
  lemma SizeAtSharedPrefix(rs: seq<Record>, p: nat)
    requires Sorted(rs) && rs != [] && p <= LcpLen(rs)
    ensures NeededBytes(rs) <= SizeAt(rs, p)
  {
    var q := LcpLen(rs);
    forall i | 0 <= i < |rs| ensures q <= |rs[i].key| { LcpIsSharedByAll(rs, i); }
    LongerPrefixIsCheaper(rs, p, q);
    AtLeastOneShare(|rs|, q - p);
  }

  lemma AtLeastOneShare(n: nat, d: nat)
    requires n > 0
    ensures n * d >= d
  {
    assert n * d == (n - 1) * d + d;
  }

  /** A contiguous sub-slice shares at least as much. */
  lemma SubSliceSharesMore(rs: seq<Record>, i: nat, j: nat)
    requires Sorted(rs) && i < j <= |rs|
    ensures Sorted(rs[i..j]) && LcpLen(rs) <= LcpLen(rs[i..j])
  {
    hide CommonLen, Lt;
    LcpIsSharedByAll(rs, i);
    LcpIsSharedByAll(rs, j - 1);
    CommonLenIsLongest(rs[i].key, rs[j - 1].key, Lcp(rs));
  }

  /** Compressed size is monotone under contiguous sub-slices. */
  lemma SizeIsMonotone(rs: seq<Record>, i: nat, j: nat)
    requires Sorted(rs) && i <= j <= |rs|
    ensures NeededBytes(rs[i..j]) <= NeededBytes(rs)
  {
    if i < j {
      var p := LcpLen(rs);
      SubSliceSharesMore(rs, i, j);
      SizeAtSharedPrefix(rs[i..j], p);
      RecordsSizeSplit(rs, j, p);
      RecordsSizeSplit(rs[..j], i, p);
      assert rs[..j][i..] == rs[i..j];
    }
  }
}
