/** The leaf page codec. */
module LeafCodec {
  import opened Bytes
  import opened NodeLayout
  import opened SlottedPage
  import opened Leaves

  const FIRST_ALLOCATABLE_PAGE_ID := 4

  function ValueBytes(v: LeafValue): (s: seq<byte>)
    ensures |s| == v.EncodedSize()
  {
    if v.Inline? then LE(|v.bytes|, 2) + v.bytes
    else LE(OVERFLOW_SENTINEL, 2) + LE64(v.totalLen) + LE64(v.rootPageId)
  }

  /** One record with its first `p` key bytes factored out. */
  function RecordBytes(r: Record, p: nat): (s: seq<byte>)
    requires p <= |r.key|
    ensures |s| == RecordSize(r, p)
  {
    LE(|r.key| - p, 2) + r.key[p..] + ValueBytes(r.value)
  }

  ghost predicate KeysAtLeast(rs: seq<Record>, p: nat)
  {
    forall i :: 0 <= i < |rs| ==> p <= |rs[i].key|
  }

  ghost function Blocks(rs: seq<Record>, p: nat): (bs: seq<seq<byte>>)
    requires KeysAtLeast(rs, p)
    ensures |bs| == |rs|
    ensures forall i :: 0 <= i < |rs| ==> bs[i] == RecordBytes(rs[i], p)
  {
    seq(|rs|, i requires 0 <= i < |rs| => RecordBytes(rs[i], p))
  }

  lemma {:induction false} BlocksSize(rs: seq<Record>, p: nat)
    requires KeysAtLeast(rs, p)
    ensures StackLen(Blocks(rs, p)) == RecordsSize(rs, p)
    ensures RecordsSize(rs, p) >= 4 * |rs|
  {
    hide RecordBytes;
    if rs != [] {
      BlocksSize(rs[..|rs| - 1], p);
      assert Blocks(rs, p)[..|rs| - 1] == Blocks(rs[..|rs| - 1], p);
    }
  }

  lemma KeysShareLcp(rs: seq<Record>)
    requires Sorted(rs)
    ensures KeysAtLeast(rs, LcpLen(rs))
  {
    forall i | 0 <= i < |rs| ensures LcpLen(rs) <= |rs[i].key| { LcpIsSharedByAll(rs, i); }
  }

  /** What the encoder's callers guarantee: sorted keys and no overflow reference into a reserved page. */
  ghost predicate Encodable(leaf: Leaf)
  {
    && Sorted(leaf.records)
    && forall i :: 0 <= i < |leaf.records| && leaf.records[i].value.Overflow? ==>
                     leaf.records[i].value.rootPageId >= FIRST_ALLOCATABLE_PAGE_ID
  }

  function LeafHeader(leaf: Leaf): NodeHeader
    requires |leaf.records| < U16_LIMIT && LcpLen(leaf.records) < U16_LIMIT
  {
    NodeHeader(LeafNode, |leaf.records|, LcpLen(leaf.records), leaf.leftSibling, leaf.rightSibling)
  }

  /** Header and shared prefix. */
  function LeafHead(leaf: Leaf): (h: seq<byte>)
    requires |leaf.records| < U16_LIMIT && LcpLen(leaf.records) < U16_LIMIT
    ensures |h| == HEADER_LEN + LcpLen(leaf.records)
  {
    HeaderBytes(LeafHeader(leaf)) + Lcp(leaf.records)
  }

  ghost predicate Fitting(leaf: Leaf, cap: nat)
  {
    Encodable(leaf) && LegalCapacity(cap) && SliceFits(leaf.records, cap)
  }

  lemma FittingBounds(leaf: Leaf, cap: nat)
    requires Fitting(leaf, cap)
    ensures KeysAtLeast(leaf.records, LcpLen(leaf.records))
    ensures cap < OVERFLOW_SENTINEL && |leaf.records| < U16_LIMIT && LcpLen(leaf.records) < U16_LIMIT
    ensures PageSize(LeafHead(leaf), Blocks(leaf.records, LcpLen(leaf.records))) == NeededBytes(leaf.records) <= cap
  {
    KeysShareLcp(leaf.records);
    BlocksSize(leaf.records, LcpLen(leaf.records));
  }

  /** The whole page body, as one expression. */
  ghost function EncodedBody(leaf: Leaf, cap: nat): (body: seq<byte>)
    requires Fitting(leaf, cap)
    ensures |body| == cap
  {
    FittingBounds(leaf, cap);
    PageBody(LeafHead(leaf), Blocks(leaf.records, LcpLen(leaf.records)), cap)
  }

  // ---------------------------------------------------------------------
  // Encoding
  // ---------------------------------------------------------------------

  /** Bytes the records need, summed as the encoder sums them. */
  method RecordBytesTotal(rs: seq<Record>, p: nat) returns (total: nat)
    ensures total == RecordsSize(rs, p)
  {
    total := 0;
    var i := 0;
    while i < |rs|
      invariant 0 <= i <= |rs| && total == RecordsSize(rs[..i], p)
    {
      assert rs[..i + 1][..i] == rs[..i];
      total := total + RecordSize(rs[i], p);
      i := i + 1;
    }
    assert rs[..i] == rs;
  }

  method WriteValue(body: array<byte>, off: nat, v: LeafValue)
    requires off + v.EncodedSize() <= body.Length < OVERFLOW_SENTINEL
    modifies body
    ensures body[..] == Splice(old(body[..]), off, ValueBytes(v))
  {
    hide LE, Splice;
    ghost var was := body[..];
    if v.Inline? {
      CopyInto(body, off, LE16(|v.bytes|));
      CopyInto(body, off + 2, v.bytes);
      SpliceAdjacent(was, off, LE16(|v.bytes|), v.bytes);
    } else {
      CopyInto(body, off, LE16(OVERFLOW_SENTINEL));
      CopyInto(body, off + 2, LE64(v.totalLen));
      CopyInto(body, off + 10, LE64(v.rootPageId));
      SpliceAdjacent(was, off, LE16(OVERFLOW_SENTINEL), LE64(v.totalLen));
      SpliceAdjacent(was, off, LE16(OVERFLOW_SENTINEL) + LE64(v.totalLen), LE64(v.rootPageId));
    }
  }

  method WriteRecord(body: array<byte>, off: nat, r: Record, p: nat)
    requires p <= |r.key| && off + RecordSize(r, p) <= body.Length < OVERFLOW_SENTINEL
    modifies body
    ensures body[..] == Splice(old(body[..]), off, RecordBytes(r, p))
  {
    hide LE, Splice, ValueBytes;
    ghost var was := body[..];
    var suffix := r.key[p..];
    CopyInto(body, off, LE16(|suffix|));
    CopyInto(body, off + 2, suffix);
    WriteValue(body, off + 2 + |suffix|, r.value);
    SpliceAdjacent(was, off, LE16(|suffix|), suffix);
    SpliceAdjacent(was, off, LE16(|suffix|) + suffix, ValueBytes(r.value));
  }

  lemma NextBlock(rs: seq<Record>, p: nat, i: nat)
    requires KeysAtLeast(rs, p) && i < |rs|
    ensures KeysAtLeast(rs[..i], p) && KeysAtLeast(rs[..i + 1], p)
    ensures Blocks(rs[..i + 1], p) == Blocks(rs[..i], p) + [RecordBytes(rs[i], p)]
    ensures StackLen(Blocks(rs[..i + 1], p)) == StackLen(Blocks(rs[..i], p)) + RecordSize(rs[i], p)
    ensures StackLen(Blocks(rs[..i + 1], p)) <= RecordsSize(rs, p)
  {
    hide RecordBytes, StackLen, RecordSize;
    Unfold(Blocks(rs[..i], p), RecordBytes(rs[i], p), 0);
    BlocksSize(rs, p);
    StackLenSplit(Blocks(rs, p), i + 1);
    assert Blocks(rs, p)[..i + 1] == Blocks(rs[..i + 1], p);
  }

  /** One turn of the encode loop: record `i` goes below the tail and its offset into slot `i`. */
  method EncodeRecord(body: array<byte>, ghost head: seq<byte>, slotAt: nat, tail: nat, rs: seq<Record>, p: nat, i: nat)
    returns (newTail: nat)
    requires KeysAtLeast(rs, p) && i < |rs| && body.Length < OVERFLOW_SENTINEL
    requires |head| + 2 * |rs| + RecordsSize(rs, p) <= body.Length
    requires slotAt == |head| + 2 * i
    requires KeysAtLeast(rs[..i], p) && tail == body.Length - StackLen(Blocks(rs[..i], p))
    requires PageSize(head, Blocks(rs[..i], p)) <= body.Length
    requires body[..] == PageBody(head, Blocks(rs[..i], p), body.Length)
    modifies body
    ensures KeysAtLeast(rs[..i + 1], p) && newTail == body.Length - StackLen(Blocks(rs[..i + 1], p))
    ensures PageSize(head, Blocks(rs[..i + 1], p)) <= body.Length
    ensures body[..] == PageBody(head, Blocks(rs[..i + 1], p), body.Length)
  {
    hide LE, Splice, PageBody, RecordBytes, StackLen, RecordsSize, RecordSize;
    NextBlock(rs, p, i);
    newTail := tail - RecordSize(rs[i], p);
    AddBlock(head, Blocks(rs[..i], p), body.Length, RecordBytes(rs[i], p), newTail);
    WriteRecord(body, newTail, rs[i], p);
    CopyInto(body, slotAt, LE16(newTail));
  }

  /** Fills the page body with exactly the encoded leaf, or refuses a leaf that does not fit. */
  method Encode(leaf: Leaf, body: array<byte>) returns (r: Result<(), NodeError>)
    requires Encodable(leaf) && LegalCapacity(body.Length)
    modifies body
    ensures r.Ok? <==> Fitting(leaf, body.Length)
    ensures r.Ok? ==> body[..] == EncodedBody(leaf, body.Length)
    ensures r.Err? ==> r.error == TooLarge && body[..] == old(body[..])
  {
    hide LE, HeaderBytes, PageBody, StackLen, RecordsSize, RecordBytes, LcpLen;
    var rs, cap := leaf.records, body.Length;
    var p := LcpLen(rs);
    var recordBytes := RecordBytesTotal(rs, p);
    if HEADER_LEN + p + 2 * |rs| + recordBytes > cap {
      return Err(TooLarge);
    }
    FittingBounds(leaf, cap);
    BlocksSize(rs, p);
    StartPage(body, HeaderBytes(LeafHeader(leaf)), Lcp(rs));
    var i, tail := 0, cap;
    ghost var head := LeafHead(leaf);
    NoBlocks(rs, p);
    while i < |rs|
      invariant 0 <= i <= |rs| && KeysAtLeast(rs[..i], p)
      invariant tail == cap - StackLen(Blocks(rs[..i], p))
      invariant PageSize(head, Blocks(rs[..i], p)) <= cap
      invariant body[..] == PageBody(head, Blocks(rs[..i], p), cap)
    {
      tail := EncodeRecord(body, head, HEADER_LEN + p + 2 * i, tail, rs, p, i);
      i := i + 1;
    }
    assert rs[..i] == rs;
    return Ok(());
  }

  lemma NoBlocks(rs: seq<Record>, p: nat)
    ensures KeysAtLeast(rs[..0], p) && Blocks(rs[..0], p) == [] && StackLen(Blocks(rs[..0], p)) == 0
  {
  }

  // ---------------------------------------------------------------------
  // Decoding
  // ---------------------------------------------------------------------

  function SuffixAt(body: seq<byte>, off: nat): seq<byte>
    requires LeafRecordInside(body, off)
  {
    body[off + 2..off + 2 + U16At(body, off)]
  }

  function ValueAt(body: seq<byte>, off: nat): LeafValue
    requires LeafRecordInside(body, off)
  {
    var afterKey := off + 2 + U16At(body, off);
    var valueLen := U16At(body, afterKey);
    if valueLen == OVERFLOW_SENTINEL
    then Overflow(U64At(body, afterKey + 2), U64At(body, afterKey + 10))
    else Inline(body[afterKey + 2..afterKey + 2 + valueLen])
  }

  /** The record slot `i` names, with the shared prefix restored. */
  function RecordAt(body: seq<byte>, prefixLen: nat, i: nat): Record
    requires HEADER_LEN + prefixLen + 2 * i + 2 <= |body|
    requires LeafRecordInside(body, SlotOffset(body, prefixLen, i))
  {
    var off := SlotOffset(body, prefixLen, i);
    Record(body[HEADER_LEN..HEADER_LEN + prefixLen] + SuffixAt(body, off), ValueAt(body, off))
  }

  ghost predicate WellFormedLeaf(body: seq<byte>)
  {
    WellFormedNode(body) && ReadHeader(body).value.kind.LeafNode?
  }

  /** The leaf a well-formed body stands for. */
  ghost function DecodedLeaf(body: seq<byte>): (leaf: Leaf)
    requires WellFormedLeaf(body)
    ensures |leaf.records| == ReadHeader(body).value.slotCount
  {
    var h := ReadHeader(body).value;
    Leaf(h.leftSibling, h.dualUse,
         seq(h.slotCount, i requires 0 <= i < h.slotCount => RecordAt(body, h.prefixLen, i)))
  }

  method Decode(body: seq<byte>) returns (r: Result<Leaf, NodeError>)
    ensures r.Ok? <==> WellFormedLeaf(body)
    ensures r.Ok? ==> r.value == DecodedLeaf(body)
    ensures r == Err(KindMismatch) <==> WellFormedNode(body) && ReadHeader(body).value.kind.InternalNode?
  {
    hide LE, FromLE, U16At, U64At, ValueAt, SuffixAt, LeafRecordInside;
    var header := ValidateNodeBody(body);
    if header.Err? { return Err(Malformed); }
    var h := header.value;
    if h.kind != LeafNode { return Err(KindMismatch); }
    var records: seq<Record> := [];
    var i := 0;
    while i < h.slotCount
      invariant 0 <= i == |records| <= h.slotCount
      invariant records == DecodedLeaf(body).records[..i]
    {
      records := records + [RecordAt(body, h.prefixLen, i)];
      i := i + 1;
    }
    return Ok(Leaf(h.leftSibling, h.dualUse, records));
  }

  // ---------------------------------------------------------------------
  // Round trip
  // ---------------------------------------------------------------------

  lemma ValueRoundTrip(body: seq<byte>, k: nat, v: LeafValue)
    requires k + v.EncodedSize() <= |body| <= OVERFLOW_SENTINEL
    requires body[k..k + v.EncodedSize()] == ValueBytes(v)
    ensures v.Inline? ==> U16At(body, k) == |v.bytes| && body[k + 2..k + 2 + |v.bytes|] == v.bytes
    ensures v.Overflow? ==> U16At(body, k) == OVERFLOW_SENTINEL
    ensures v.Overflow? ==> U64At(body, k + 2) == v.totalLen && U64At(body, k + 10) == v.rootPageId
  {
    hide LE, U16At, U64At;
    var vb := ValueBytes(v);
    if v.Inline? {
      SliceOfLeft(LE16(|v.bytes|), v.bytes, 0, 2);
      SliceOfRight(LE16(|v.bytes|), v.bytes, 0, |v.bytes|);
      PieceOfBlock(body, k, vb, 0, 2, LE16(|v.bytes|));
      U16AtLE16(body, k, |v.bytes|);
      PieceOfBlock(body, k, vb, 2, |vb|, v.bytes);
    } else {
      var mark, total, root := LE16(OVERFLOW_SENTINEL), LE64(v.totalLen), LE64(v.rootPageId);
      assert vb[0..2] == mark && vb[2..10] == total && vb[10..18] == root;
      PieceOfBlock(body, k, vb, 0, 2, mark);
      U16AtLE16(body, k, OVERFLOW_SENTINEL);
      PieceOfBlock(body, k, vb, 2, 10, total);
      U64AtLE64(body, k + 2, v.totalLen);
      PieceOfBlock(body, k, vb, 10, 18, root);
      U64AtLE64(body, k + 10, v.rootPageId);
    }
  }

  /** A record written anywhere in a body reads back. */
  lemma RecordRoundTrip(body: seq<byte>, off: nat, r: Record, p: nat)
    requires p <= |r.key| && off + RecordSize(r, p) <= |body| <= OVERFLOW_SENTINEL
    requires body[off..off + RecordSize(r, p)] == RecordBytes(r, p)
    ensures LeafRecordInside(body, off)
    ensures SuffixAt(body, off) == r.key[p..]
    ensures ValueAt(body, off) == r.value
  {
    hide LE, U16At, U64At, ValueBytes;
    var n := |r.key| - p;
    var suffix, vb := r.key[p..], ValueBytes(r.value);
    var rb := RecordBytes(r, p);
    assert rb[0..2] == LE16(n) && rb[2..2 + n] == suffix && rb[2 + n..|rb|] == vb;
    PieceOfBlock(body, off, rb, 0, 2, LE16(n));
    U16AtLE16(body, off, n);
    PieceOfBlock(body, off, rb, 2, 2 + n, suffix);
    PieceOfBlock(body, off, rb, 2 + n, |rb|, vb);
    ValueRoundTrip(body, off + 2 + n, r.value);
  }

  /** What one slot of a body means, given where its parts sit. */
  lemma SlotMeaning(body: seq<byte>, p: nat, i: nat, r: Record, prefix: seq<byte>)
    requires |prefix| == p <= |r.key| && prefix <= r.key && |body| <= OVERFLOW_SENTINEL
    requires HEADER_LEN + p + 2 * i + 2 <= |body| && body[HEADER_LEN..HEADER_LEN + p] == prefix
    requires var off := SlotOffset(body, p, i);
             off + RecordSize(r, p) <= |body| && body[off..off + RecordSize(r, p)] == RecordBytes(r, p)
    ensures LeafRecordInside(body, SlotOffset(body, p, i))
    ensures RecordAt(body, p, i) == r
  {
    hide LE, U16At, U64At, RecordBytes, ValueAt, SuffixAt;
    RecordRoundTrip(body, SlotOffset(body, p, i), r, p);
    assert r.key == prefix + r.key[p..];
  }

  lemma HeadReadsBack(leaf: Leaf, body: seq<byte>)
    requires |leaf.records| < U16_LIMIT && LcpLen(leaf.records) < U16_LIMIT && LeafHead(leaf) <= body
    ensures ReadHeader(body) == Ok(LeafHeader(leaf))
    ensures body[HEADER_LEN..HEADER_LEN + LcpLen(leaf.records)] == Lcp(leaf.records)
  {
    hide LE, HeaderBytes, ReadHeader, LcpLen;
    var h, l := HeaderBytes(LeafHeader(leaf)), Lcp(leaf.records);
    assert body[..|h + l|] == h + l;
    HeaderRoundTrip(LeafHeader(leaf), body);
    SliceOfSlice(body, 0, |h + l|, |h|, |h + l|);
  }

  /** Every slot of an encoded body reads back its own record. */
  lemma SlotRoundTrip(leaf: Leaf, cap: nat, i: nat)
    requires Fitting(leaf, cap) && i < |leaf.records|
    ensures var body, p := EncodedBody(leaf, cap), LcpLen(leaf.records);
            && HEADER_LEN + p + 2 * i + 2 <= |body|
            && LeafRecordInside(body, SlotOffset(body, p, i))
            && RecordAt(body, p, i) == leaf.records[i]
  {
    hide LE, U16At, RecordBytes, PageBody, RecordAt, LeafRecordInside, LcpLen, StackLen;
    var rs, body := leaf.records, EncodedBody(leaf, cap);
    var p := LcpLen(rs);
    FittingBounds(leaf, cap);
    PageReadsBack(LeafHead(leaf), Blocks(rs, p), cap, i);
    HeadReadsBack(leaf, body);
    LcpIsSharedByAll(rs, i);
    SlotMeaning(body, p, i, rs[i], Lcp(rs));
  }

  /** Decoding an encoded leaf returns it exactly. */
  lemma LeafRoundTrip(leaf: Leaf, cap: nat)
    requires Fitting(leaf, cap)
    ensures WellFormedLeaf(EncodedBody(leaf, cap))
    ensures DecodedLeaf(EncodedBody(leaf, cap)) == leaf
  {
    hide LE, U16At, RecordBytes, RecordAt, LeafRecordInside, LcpLen, StackLen, SlotOffset;
    var rs, body := leaf.records, EncodedBody(leaf, cap);
    var p := LcpLen(rs);
    FittingBounds(leaf, cap);
    HeadOfPage(LeafHead(leaf), Blocks(rs, p), cap);
    hide PageBody;
    HeadReadsBack(leaf, body);
    forall i | 0 <= i < |rs|
      ensures LeafRecordInside(body, SlotOffset(body, p, i)) && RecordAt(body, p, i) == rs[i]
    {
      SlotRoundTrip(leaf, cap, i);
    }
    assert DecodedLeaf(body).records == rs;
  }
}
