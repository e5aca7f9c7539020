/** Node layout shared by leaf and internal pages: `header[24] ‖ prefix ‖ slot directory ‖ free ‖ records`. */
module NodeLayout {
  import opened Bytes

  const HEADER_LEN := 24
  const ENVELOPE_OVERHEAD := 40
  const OVERFLOW_SENTINEL := 0xFFFF

  predicate LegalPageSize(pageSize: nat)
  {
    pageSize in {4096, 8192, 16384, 32768, 65536}
  }

  function BodyCapacity(pageSize: nat): nat
    requires LegalPageSize(pageSize)
  {
    pageSize - ENVELOPE_OVERHEAD
  }

  /** The body length of some legal page. */
  predicate LegalCapacity(cap: nat)
  {
    LegalPageSize(cap + ENVELOPE_OVERHEAD)
  }

  datatype NodeKind = InternalNode | LeafNode
  datatype NodeHeader = NodeHeader(kind: NodeKind, slotCount: u16, prefixLen: u16, leftSibling: u64, dualUse: u64)
  datatype NodeError = Malformed | KindMismatch | TooLarge

  function HeaderBytes(h: NodeHeader): (s: seq<byte>)
    ensures |s| == HEADER_LEN
  {
    [if h.kind.LeafNode? then 1 else 0, 0]
    + LE16(h.slotCount) + LE16(h.prefixLen) + LE16(0) + LE64(h.leftSibling) + LE64(h.dualUse)
  }

  function ReadHeader(body: seq<byte>): Result<NodeHeader, NodeError>
  {
    if |body| < HEADER_LEN || body[0] > 1 then Err(Malformed)
    else Ok(NodeHeader(if body[0] == 1 then LeafNode else InternalNode,
                       U16At(body, 2), U16At(body, 4), U64At(body, 8), U64At(body, 16)))
  }

  /** Reading back a written header returns it, whatever follows it in the page. */
  lemma HeaderRoundTrip(h: NodeHeader, body: seq<byte>)
    requires HeaderBytes(h) <= body
    ensures ReadHeader(body) == Ok(h)
  {
    hide LE, U16At, U64At;
    var s := HeaderBytes(h);
    assert s[2..4] == LE16(h.slotCount) && s[4..6] == LE16(h.prefixLen);
    assert s[8..16] == LE64(h.leftSibling);
    SliceOfRight(s[..16], LE64(h.dualUse), 0, 8);
    assert body[2..4] == s[2..4] && body[4..6] == s[4..6];
    assert body[8..16] == s[8..16] && body[16..24] == s[16..24];
    U16AtLE16(body, 2, h.slotCount);
    U16AtLE16(body, 4, h.prefixLen);
    U64AtLE64(body, 8, h.leftSibling);
    U64AtLE64(body, 16, h.dualUse);
  }

  /** Where the slot directory ends. */
  function DirectoryEnd(h: NodeHeader): nat
  {
    HEADER_LEN + h.prefixLen + 2 * h.slotCount
  }

  /** The record offset slot `i` holds. */
  function SlotOffset(body: seq<byte>, prefixLen: nat, i: nat): u16
    requires HEADER_LEN + prefixLen + 2 * i + 2 <= |body|
  {
    U16At(body, HEADER_LEN + prefixLen + 2 * i)
  }

  /** `u16 suffix_len ‖ suffix ‖ u16 value_len ‖ (inline value | u64 total_len ‖ u64 root)` lies inside the body. */
  predicate LeafRecordInside(body: seq<byte>, off: nat)
  {
    && off + 2 <= |body|
    && var afterSuffix := off + 2 + U16At(body, off);
       && afterSuffix + 2 <= |body|
       && var valueLen := U16At(body, afterSuffix);
          afterSuffix + 2 + (if valueLen == OVERFLOW_SENTINEL then 16 else valueLen) <= |body|
  }

  /** `u16 key_len ‖ key ‖ u64 right_child` lies inside the body. */
  predicate InternalRecordInside(body: seq<byte>, off: nat)
  {
    off + 2 <= |body| && off + 2 + U16At(body, off) + 8 <= |body|
  }

  predicate RecordInside(kind: NodeKind, body: seq<byte>, off: nat)
  {
    if kind.LeafNode? then LeafRecordInside(body, off) else InternalRecordInside(body, off)
  }

  /** Every extent the node names lies inside the body, so no later read can leave it. */
  ghost predicate WellFormedNode(body: seq<byte>)
  {
    && ReadHeader(body).Ok?
    && var h := ReadHeader(body).value;
       && DirectoryEnd(h) <= |body|
       && forall i :: 0 <= i < h.slotCount ==> RecordInside(h.kind, body, SlotOffset(body, h.prefixLen, i))
  }

  /** End of a `len`-byte field at `start`, or an error when it leaves the body. */
  function FieldEnd(body: seq<byte>, start: nat, len: nat): (r: Result<nat, NodeError>)
    ensures r.Ok? <==> start + len <= |body|
    ensures r.Ok? ==> r.value == start + len
  {
    if start + len > |body| then Err(Malformed) else Ok(start + len)
  }

  method ValidateLeafRecord(body: seq<byte>, off: nat) returns (ok: bool)
    ensures ok <==> LeafRecordInside(body, off)
  {
    var afterLen := FieldEnd(body, off, 2);
    if afterLen.Err? { return false; }
    var afterSuffix := FieldEnd(body, afterLen.value, U16At(body, off));
    if afterSuffix.Err? { return false; }
    var afterValueLen := FieldEnd(body, afterSuffix.value, 2);
    if afterValueLen.Err? { return false; }
    var valueLen := U16At(body, afterSuffix.value);
    var end := FieldEnd(body, afterValueLen.value, if valueLen == OVERFLOW_SENTINEL then 16 else valueLen);
    return end.Ok?;
  }

  method ValidateInternalRecord(body: seq<byte>, off: nat) returns (ok: bool)
    ensures ok <==> InternalRecordInside(body, off)
  {
    var afterLen := FieldEnd(body, off, 2);
    if afterLen.Err? { return false; }
    var afterKey := FieldEnd(body, afterLen.value, U16At(body, off));
    if afterKey.Err? { return false; }
    var end := FieldEnd(body, afterKey.value, 8);
    return end.Ok?;
  }

  /** Accepts exactly the bodies whose every extent is in range, and returns their header. */
  method ValidateNodeBody(body: seq<byte>) returns (r: Result<NodeHeader, NodeError>)
    ensures r.Ok? <==> WellFormedNode(body)
    ensures r.Ok? ==> r == ReadHeader(body)
    ensures r.Err? ==> r.error == Malformed
  {
    var read := ReadHeader(body);
    if read.Err? { return Err(Malformed); }
    var h := read.value;
    if DirectoryEnd(h) > |body| { return Err(Malformed); }
    var i := 0;
    while i < h.slotCount
      invariant 0 <= i <= h.slotCount
      invariant forall j :: 0 <= j < i ==> RecordInside(h.kind, body, SlotOffset(body, h.prefixLen, j))
    {
      var off := SlotOffset(body, h.prefixLen, i);
      var ok: bool;
      if h.kind.LeafNode? {
        ok := ValidateLeafRecord(body, off);
      } else {
        ok := ValidateInternalRecord(body, off);
      }
      if !ok { return Err(Malformed); }
      i := i + 1;
    }
    return read;
  }

  /** A cached page: immutable bytes and the flag that remembers they already passed the extent walk. */
  class CachedNode {
    const body: seq<byte>
    var extentsValidated: bool

    ghost predicate Valid()
      reads this
    {
      extentsValidated ==> WellFormedNode(body)
    }

    constructor (body: seq<byte>)
      ensures this.body == body && Valid() && !extentsValidated
    {
      this.body := body;
      extentsValidated := false;
    }

    /** Skipping the walk changes no answer: every call returns what a full validation would. */
    method ValidateMemoised() returns (r: Result<NodeHeader, NodeError>)
      requires Valid()
      modifies this`extentsValidated
      ensures Valid()
      ensures r.Ok? <==> WellFormedNode(body)
      ensures r.Ok? ==> r == ReadHeader(body)
      ensures r.Err? ==> r.error == Malformed
      ensures extentsValidated <==> old(extentsValidated) || WellFormedNode(body)
    {
      if extentsValidated {
        return ReadHeader(body);
      }
      r := ValidateNodeBody(body);
      if r.Ok? {
        extentsValidated := true;
      }
    }
  }

  // ---------------------------------------------------------------------
  // In-place writes
  // ---------------------------------------------------------------------

  /** `s` with `b` written at `off`. */
  function Splice(s: seq<byte>, off: nat, b: seq<byte>): (r: seq<byte>)
    requires off + |b| <= |s|
    ensures |r| == |s|
  {
    s[..off] + b + s[off + |b|..]
  }

  lemma SpliceAdjacent(s: seq<byte>, off: nat, a: seq<byte>, b: seq<byte>)
    requires off + |a| + |b| <= |s|
    ensures Splice(Splice(s, off, a), off + |a|, b) == Splice(s, off, a + b)
  {
  }

  /** One more byte of a splice. */
  lemma SpliceNext(s: seq<byte>, off: nat, bytes: seq<byte>, i: nat)
    requires off + |bytes| <= |s| && i < |bytes|
    ensures Splice(s, off, bytes[..i])[off + i := bytes[i]] == Splice(s, off, bytes[..i + 1])
  {
  }

  method CopyInto(body: array<byte>, off: nat, bytes: seq<byte>)
    requires off + |bytes| <= body.Length
    modifies body
    ensures body[..] == Splice(old(body[..]), off, bytes)
  {
    ghost var was := body[..];
    var i := 0;
    assert body[..] == Splice(was, off, bytes[..0]);
    hide Splice;
    while i < |bytes|
      invariant 0 <= i <= |bytes|
      invariant body[..] == Splice(was, off, bytes[..i])
    {
      SpliceNext(was, off, bytes, i);
      ghost var before := body[..];
      body[off + i] := bytes[i];
      assert body[..] == before[off + i := bytes[i]];
      i := i + 1;
    }
    assert bytes[..i] == bytes;
  }
}
