/** The internal page codec and its zero-copy accessor. */
module InternalCodec {
  import opened Bytes
  import opened NodeLayout
  import opened SlottedPage
  import opened Internals

  type Pointers = Internal<u64>
  type Separator = Entry<u64>

  /** `u16 key_len ‖ key ‖ u64 right_child`. */
  function EntryBytes(e: Separator): (s: seq<byte>)
    ensures |s| == EntrySize(e)
  {
    LE(|e.key|, 2) + e.key + LE64(e.child)
  }

  ghost function Blocks(es: seq<Separator>): (bs: seq<seq<byte>>)
    ensures |bs| == |es|
    ensures forall i :: 0 <= i < |es| ==> bs[i] == EntryBytes(es[i])
  {
    seq(|es|, i requires 0 <= i < |es| => EntryBytes(es[i]))
  }

  lemma {:induction false} BlocksSize(es: seq<Separator>)
    ensures StackLen(Blocks(es)) == EntriesSize(es)
    ensures EntriesSize(es) >= 10 * |es|
  {
    hide EntryBytes;
    if es != [] {
      BlocksSize(es[..|es| - 1]);
      assert Blocks(es)[..|es| - 1] == Blocks(es[..|es| - 1]);
    }
  }

  function InternalHeader(node: Pointers): NodeHeader
    requires |node.entries| < U16_LIMIT
  {
    NodeHeader(InternalNode, |node.entries|, 0, 0, node.leftmost)
  }

  function InternalHead(node: Pointers): (h: seq<byte>)
    requires |node.entries| < U16_LIMIT
    ensures |h| == HEADER_LEN
  {
    HeaderBytes(InternalHeader(node)) + []
  }

  ghost predicate Fitting(node: Pointers, cap: nat)
  {
    LegalCapacity(cap) && InternalFits(node, cap)
  }

  lemma FittingBounds(node: Pointers, cap: nat)
    requires Fitting(node, cap)
    ensures cap < OVERFLOW_SENTINEL && |node.entries| < U16_LIMIT
    ensures PageSize(InternalHead(node), Blocks(node.entries)) <= cap
  {
    BlocksSize(node.entries);
  }

  ghost function EncodedBody(node: Pointers, cap: nat): (body: seq<byte>)
    requires Fitting(node, cap)
    ensures |body| == cap
  {
    FittingBounds(node, cap);
    PageBody(InternalHead(node), Blocks(node.entries), cap)
  }

  // ---------------------------------------------------------------------
  // Encoding
  // ---------------------------------------------------------------------

  method EntryBytesTotal(es: seq<Separator>) returns (total: nat)
    ensures total == EntriesSize(es)
  {
    total := 0;
    var i := 0;
    while i < |es|
      invariant 0 <= i <= |es| && total == EntriesSize(es[..i])
    {
      assert es[..i + 1][..i] == es[..i];
      total := total + EntrySize(es[i]);
      i := i + 1;
    }
    assert es[..i] == es;
  }

  method WriteEntry(body: array<byte>, off: nat, e: Separator)
    requires off + EntrySize(e) <= body.Length < OVERFLOW_SENTINEL
    modifies body
    ensures body[..] == Splice(old(body[..]), off, EntryBytes(e))
  {
    hide LE, Splice;
    ghost var was := body[..];
    CopyInto(body, off, LE16(|e.key|));
    CopyInto(body, off + 2, e.key);
    CopyInto(body, off + 2 + |e.key|, LE64(e.child));
    SpliceAdjacent(was, off, LE16(|e.key|), e.key);
    SpliceAdjacent(was, off, LE16(|e.key|) + e.key, LE64(e.child));
  }

  lemma BlocksExtend(es: seq<Separator>, e: Separator)
    ensures Blocks(es + [e]) == Blocks(es) + [EntryBytes(e)]
  {
    hide EntryBytes;
  }

  lemma BlocksPrefix(es: seq<Separator>, k: nat)
    requires k <= |es|
    ensures Blocks(es)[..k] == Blocks(es[..k])
  {
    hide EntryBytes;
  }

  lemma NextBlock(es: seq<Separator>, i: nat)
    requires i < |es|
    ensures Blocks(es[..i + 1]) == Blocks(es[..i]) + [EntryBytes(es[i])]
    ensures StackLen(Blocks(es[..i + 1])) == StackLen(Blocks(es[..i])) + EntrySize(es[i])
  {
    hide *;
    assert es[..i + 1] == es[..i] + [es[i]];
    BlocksExtend(es[..i], es[i]);
    Unfold(Blocks(es[..i]), EntryBytes(es[i]), 0);
  }

  lemma BlocksWithin(es: seq<Separator>, k: nat)
    requires k <= |es|
    ensures StackLen(Blocks(es[..k])) <= EntriesSize(es)
  {
    hide *;
    BlocksSize(es);
    StackLenSplit(Blocks(es), k);
    BlocksPrefix(es, k);
  }

  /** One turn of the encode loop: entry `i` goes below the tail and its offset into slot `i`. */
  method EncodeEntry(body: array<byte>, ghost head: seq<byte>, slotAt: nat, tail: nat, es: seq<Separator>, i: nat)
    returns (newTail: nat)
    requires i < |es| && body.Length < OVERFLOW_SENTINEL && slotAt == |head| + 2 * i
    requires |head| + 2 * |es| + EntriesSize(es) <= body.Length
    requires tail == body.Length - StackLen(Blocks(es[..i])) && PageSize(head, Blocks(es[..i])) <= body.Length
    requires body[..] == PageBody(head, Blocks(es[..i]), body.Length)
    modifies body
    ensures newTail == body.Length - StackLen(Blocks(es[..i + 1]))
    ensures PageSize(head, Blocks(es[..i + 1])) <= body.Length
    ensures body[..] == PageBody(head, Blocks(es[..i + 1]), body.Length)
  {
    hide LE, Splice, PageBody, EntryBytes, StackLen, EntriesSize, EntrySize;
    NextBlock(es, i);
    BlocksWithin(es, i + 1);
    newTail := tail - EntrySize(es[i]);
    AddBlock(head, Blocks(es[..i]), body.Length, EntryBytes(es[i]), newTail);
    WriteEntry(body, newTail, es[i]);
    CopyInto(body, slotAt, LE16(newTail));
  }

  /** Fills the page body with exactly the encoded node, or refuses a node that does not fit. */
  method Encode(node: Pointers, body: array<byte>) returns (r: Result<(), NodeError>)
    requires LegalCapacity(body.Length)
    modifies body
    ensures r.Ok? <==> Fitting(node, body.Length)
    ensures r.Ok? ==> body[..] == EncodedBody(node, body.Length)
    ensures r.Err? ==> r.error == TooLarge && body[..] == old(body[..])
  {
    hide LE, HeaderBytes, PageBody, StackLen, EntriesSize, EntryBytes;
    var es, cap := node.entries, body.Length;
    var recordBytes := EntryBytesTotal(es);
    if HEADER_LEN + 2 * |es| + recordBytes > cap {
      return Err(TooLarge);
    }
    FittingBounds(node, cap);
    StartPage(body, HeaderBytes(InternalHeader(node)), []);
    var i, tail := 0, cap;
    ghost var head := InternalHead(node);
    NoBlocks(es);
    while i < |es|
      invariant 0 <= i <= |es|
      invariant tail == cap - StackLen(Blocks(es[..i]))
      invariant PageSize(head, Blocks(es[..i])) <= cap
      invariant body[..] == PageBody(head, Blocks(es[..i]), cap)
    {
      tail := EncodeEntry(body, head, HEADER_LEN + 2 * i, tail, es, i);
      i := i + 1;
    }
    assert es[..i] == es;
    return Ok(());
  }

  lemma NoBlocks(es: seq<Separator>)
    ensures Blocks(es[..0]) == [] && StackLen(Blocks(es[..0])) == 0
  {
  }

  // ---------------------------------------------------------------------
  // Decoding
  // ---------------------------------------------------------------------

  ghost predicate WellFormedInternal(body: seq<byte>)
  {
    WellFormedNode(body) && ReadHeader(body).value.kind.InternalNode?
  }

  function KeyAt(body: seq<byte>, off: nat): seq<byte>
    requires InternalRecordInside(body, off)
  {
    body[off + 2..off + 2 + U16At(body, off)]
  }

  function EntryAt(body: seq<byte>, off: nat): Separator
    requires InternalRecordInside(body, off)
  {
    Entry(KeyAt(body, off), U64At(body, off + 2 + U16At(body, off)))
  }

  /** The node a well-formed body stands for. */
  ghost function DecodedInternal(body: seq<byte>): (node: Pointers)
    requires WellFormedInternal(body)
    ensures |node.entries| == ReadHeader(body).value.slotCount
  {
    var h := ReadHeader(body).value;
    Internal(h.dualUse,
             seq(h.slotCount, i requires 0 <= i < h.slotCount => EntryAt(body, SlotOffset(body, h.prefixLen, i))))
  }

  method Decode(body: seq<byte>) returns (r: Result<Pointers, NodeError>)
    ensures r.Ok? <==> WellFormedInternal(body)
    ensures r.Ok? ==> r.value == DecodedInternal(body)
    ensures r == Err(KindMismatch) <==> WellFormedNode(body) && ReadHeader(body).value.kind.LeafNode?
  {
    hide LE, FromLE, U16At, U64At, EntryAt, InternalRecordInside;
    var header := ValidateNodeBody(body);
    if header.Err? { return Err(Malformed); }
    var h := header.value;
    if h.kind != InternalNode { return Err(KindMismatch); }
    var entries: seq<Separator> := [];
    var i := 0;
    while i < h.slotCount
      invariant 0 <= i == |entries| <= h.slotCount
      invariant entries == DecodedInternal(body).entries[..i]
    {
      entries := entries + [EntryAt(body, SlotOffset(body, h.prefixLen, i))];
      i := i + 1;
    }
    return Ok(Internal(h.dualUse, entries));
  }

  lemma EntryRoundTrip(body: seq<byte>, off: nat, e: Separator)
    requires off + EntrySize(e) <= |body| < U16_LIMIT && body[off..off + EntrySize(e)] == EntryBytes(e)
    ensures InternalRecordInside(body, off) && EntryAt(body, off) == e
  {
    hide LE, U16At, U64At;
    var n, eb := |e.key|, EntryBytes(e);
    assert eb[0..2] == LE16(n) && eb[2..2 + n] == e.key && eb[2 + n..10 + n] == LE64(e.child);
    PieceOfBlock(body, off, eb, 0, 2, LE16(n));
    U16AtLE16(body, off, n);
    PieceOfBlock(body, off, eb, 2, 2 + n, e.key);
    PieceOfBlock(body, off, eb, 2 + n, 10 + n, LE64(e.child));
    U64AtLE64(body, off + 2 + n, e.child);
  }

  lemma SlotRoundTrip(node: Pointers, cap: nat, i: nat)
    requires Fitting(node, cap) && i < |node.entries|
    ensures var body := EncodedBody(node, cap);
            && HEADER_LEN + 2 * i + 2 <= cap
            && InternalRecordInside(body, SlotOffset(body, 0, i))
            && EntryAt(body, SlotOffset(body, 0, i)) == node.entries[i]
  {
    hide LE, U16At, U64At, EntryBytes, PageBody, EntryAt, InternalRecordInside, StackLen;
    FittingBounds(node, cap);
    PageReadsBack(InternalHead(node), Blocks(node.entries), cap, i);
    var body := EncodedBody(node, cap);
    EntryRoundTrip(body, SlotOffset(body, 0, i), node.entries[i]);
  }

  /** Decoding an encoded node returns it exactly, with no shared prefix. */
  lemma InternalRoundTrip(node: Pointers, cap: nat)
    requires Fitting(node, cap)
    ensures WellFormedInternal(EncodedBody(node, cap))
    ensures ReadHeader(EncodedBody(node, cap)).value.prefixLen == 0
    ensures DecodedInternal(EncodedBody(node, cap)) == node
  {
    hide LE, U16At, EntryBytes, EntryAt, InternalRecordInside, StackLen, SlotOffset, HeaderBytes;
    var body, es := EncodedBody(node, cap), node.entries;
    FittingBounds(node, cap);
    HeadOfPage(InternalHead(node), Blocks(es), cap);
    hide PageBody;
    HeaderRoundTrip(InternalHeader(node), body);
    forall i | 0 <= i < |es|
      ensures InternalRecordInside(body, SlotOffset(body, 0, i)) && EntryAt(body, SlotOffset(body, 0, i)) == es[i]
    {
      SlotRoundTrip(node, cap, i);
    }
    assert DecodedInternal(body).entries == es;
  }

  // ---------------------------------------------------------------------
  // The zero-copy accessor
  // ---------------------------------------------------------------------

  /** Reads slots as if no prefix preceded them. */
  datatype InternalAccessor = InternalAccessor(body: seq<byte>, slotCount: nat, leftmost: u64) {

    /** What holds of every accessor made from a validated page without a shared prefix. */
    ghost predicate Valid()
    {
      && WellFormedInternal(body)
      && var h := ReadHeader(body).value;
         h.prefixLen == 0 && slotCount == h.slotCount && leftmost == h.dualUse
    }

    function EntryKey(idx: nat): seq<byte>
      requires Valid() && idx < slotCount
    {
      KeyAt(body, SlotOffset(body, 0, idx))
    }

    function RightChildOffset(idx: nat): nat
      requires Valid() && idx < slotCount
    {
      var off := SlotOffset(body, 0, idx);
      off + 2 + U16At(body, off)
    }

    function RightChildAt(idx: nat): u64
      requires Valid() && idx < slotCount
    {
      U64At(body, RightChildOffset(idx))
    }

    /** Descent over the page bytes takes the child the decoded node routes to. */
    method ChildFor(query: seq<byte>) returns (child: u64)
      requires Valid()
      ensures SortedEntries(DecodedInternal(body).entries) ==> child == Route(DecodedInternal(body), query)
    {
      hide Lt, Rank, U16At, U64At, SortedEntries;
      ghost var node := DecodedInternal(body);
      ghost var sorted := SortedEntries(node.entries);
      var lo, hi := 0, slotCount;
      while lo < hi
        invariant 0 <= lo <= hi <= slotCount
        invariant sorted ==> forall j :: 0 <= j < lo ==> Le(node.entries[j].key, query)
        invariant sorted ==> forall j :: hi <= j < slotCount ==> Lt(query, node.entries[j].key)
      {
        var mid := lo + (hi - lo) / 2;
        assert EntryKey(mid) == node.entries[mid].key;
        if sorted { PartsAt(node.entries, query, mid); }
        if Le(EntryKey(mid), query) {
          lo := mid + 1;
        } else {
          hi := mid;
        }
      }
      if sorted { PartsIsRank(node.entries, query, lo); }
      if lo == 0 {
        return leftmost;
      } else {
        return RightChildAt(lo - 1);
      }
    }
  }

  /** The slot reads the accessor makes stay inside the body. */
  ghost predicate ReadsInRange(body: seq<byte>)
    requires WellFormedInternal(body)
  {
    forall i :: 0 <= i < ReadHeader(body).value.slotCount ==> InternalRecordInside(body, SlotOffset(body, 0, i))
  }

  lemma AccessorReadsInRange(body: seq<byte>)
    requires WellFormedInternal(body) && ReadHeader(body).value.prefixLen == 0
    ensures ReadsInRange(body)
  {
  }

  /** Every accepted node of this capacity with a `p`-byte prefix is safe to read through the accessor. */
  ghost predicate PrefixIsSafe(p: u16, cap: nat)
  {
    forall body: seq<byte> ::
      |body| == cap && WellFormedInternal(body) && ReadHeader(body).value.prefixLen == p ==> ReadsInRange(body)
  }

  /** A node whose one record lies where validation looks for it, and whose prefix bytes the accessor takes for a slot. */
  function PrefixedNode(p: u16, cap: nat): (body: seq<byte>)
    requires p >= 1 && LegalCapacity(cap) && HEADER_LEN + p + 2 <= cap
    ensures |body| == cap
  {
    var head := HeaderBytes(NodeHeader(InternalNode, 1, p, 0, 4)) + seq(p, i => 255) + LE16(RecordSpot(p));
    head + Zeros(cap - |head|)
  }

  /** In the zeros after a one-byte prefix, else in the header's zero sibling field. */
  function RecordSpot(p: u16): u16
  {
    if p == 1 then 255 else 8
  }

  lemma PrefixEscapes(p: u16, cap: nat)
    requires p >= 1 && LegalCapacity(cap) && HEADER_LEN + p + 2 <= cap
    ensures WellFormedInternal(PrefixedNode(p, cap)) && ReadHeader(PrefixedNode(p, cap)).value.prefixLen == p
    ensures !ReadsInRange(PrefixedNode(p, cap))
  {
    hide LE, HeaderBytes, ReadHeader, FromLE;
    var h := NodeHeader(InternalNode, 1, p, 0, 4);
    var hb, ff, d := HeaderBytes(h), seq(p, i => 255), LE16(RecordSpot(p));
    var body := PrefixedNode(p, cap);
    var z := Zeros(cap - |hb + ff + d|);
    assert hb <= body;
    HeaderRoundTrip(h, body);
    assert body == (hb + ff) + (d + z);
    EntryInside(hb + ff, d, z, 0, RecordSpot(p));
    SiblingIsZero(h);
    assert p > 1 ==> body[8..10] == hb[8..10];
    ZeroEntry(body, RecordSpot(p));
    SpotBytes();
    assert p > 1 ==> ff[0] == 255 && ff[1] == 255 && body[HEADER_LEN + 1] == ff[1];
    assert p == 1 ==> body[HEADER_LEN + 1] == d[0];
    assert body[HEADER_LEN..HEADER_LEN + 2] == [255, 255];
    FullSlot(body, HEADER_LEN);
    assert !InternalRecordInside(body, SlotOffset(body, 0, 0));
  }

  lemma SiblingIsZero(h: NodeHeader)
    requires h.leftSibling == 0
    ensures HeaderBytes(h)[8] == 0 && HeaderBytes(h)[9] == 0
  {
    assert HeaderBytes(h)[8..16] == LE64(0);
    assert LE(0, 8) == [0] + LE(0, 7) && LE(0, 7) == [0] + LE(0, 6);
    assert HeaderBytes(h)[8] == LE64(0)[0] && HeaderBytes(h)[9] == LE64(0)[1];
  }

  lemma SpotBytes()
    ensures LE16(255)[0] == 255
  {
  }

  /** The accessor is safe on all accepted nodes exactly when there is no prefix, or no room for a slot behind it. */
  lemma SafePrefixIff(p: u16, cap: nat)
    requires LegalCapacity(cap)
    ensures PrefixIsSafe(p, cap) <==> p == 0 || HEADER_LEN + p + 2 > cap
  {
    hide ReadHeader, U16At, U64At;
    if p >= 1 && HEADER_LEN + p + 2 <= cap { PrefixEscapes(p, cap); }
  }

  lemma ZeroEntry(body: seq<byte>, off: nat)
    requires off + 10 <= |body| && body[off] == 0 && body[off + 1] == 0
    ensures InternalRecordInside(body, off)
  {
    assert FromLE(body[off..off + 2]) == body[off] + 256 * FromLE(body[off..off + 2][1..]);
  }

  lemma FullSlot(body: seq<byte>, off: nat)
    requires off + 2 <= |body| && body[off..off + 2] == [255, 255]
    ensures U16At(body, off) == 0xFFFF
  {
    assert FromLE([255, 255]) == 255 + 256 * FromLE([255, 255][1..]);
  }
}
