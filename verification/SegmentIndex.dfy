/** The extent index of a segment: fixed 32-byte entries packed into pages, and the checks that read them back. */
module SegmentIndex {
  import opened Bytes

  const ENTRY_LEN := 32

  datatype Extent = Extent(start: u64, count: u32, logical: u64) {
    function End(): nat { start + count }
  }

  datatype SegmentError =
    | PayloadTooLarge | EmptyExtent | NonceCounterExhausted | OffsetOverflow | WriteFailed
    | GeometryInvalid | MetadataMismatch | PageUnverifiable

  // ---------------------------------------------------------------------
  // One entry
  // ---------------------------------------------------------------------

  function EncodeExtent(e: Extent): (s: seq<byte>)
    ensures |s| == ENTRY_LEN
  {
    LE64(e.start) + LE32(e.count) + Zeros(4) + LE64(e.logical) + Zeros(8)
  }

  function DecodeExtent(s: seq<byte>): Extent
    requires |s| == ENTRY_LEN
  {
    Extent(U64At(s, 0), U32At(s, 8), U64At(s, 16))
  }

  predicate ReservedAreZero(s: seq<byte>)
    requires |s| == ENTRY_LEN
  {
    s[12..16] == Zeros(4) && s[24..32] == Zeros(8)
  }

  lemma ExtentRoundTrip(e: Extent)
    ensures DecodeExtent(EncodeExtent(e)) == e && ReservedAreZero(EncodeExtent(e))
  {
    hide LE, U64At, U32At;
    var s, a, b, c := EncodeExtent(e), LE64(e.start), LE32(e.count), LE64(e.logical);
    assert s[0..8] == a && s[8..12] == b && s[16..24] == c;
    U64AtLE64(s, 0, e.start);
    U32AtLE32(s, 8, e.count);
    U64AtLE64(s, 16, e.logical);
  }

  /** Start page, page count, four reserved bytes, logical bytes, eight reserved bytes, little-endian. */
  lemma ExtentLayout(e: Extent)
    ensures var s := EncodeExtent(e);
            && |s| == 32
            && s[0..8] == LE(e.start, 8) && s[8..12] == LE(e.count, 4) && s[16..24] == LE(e.logical, 8)
            && forall i :: 12 <= i < 16 || 24 <= i < 32 ==> s[i] == 0
  {
    hide LE;
  }

  /** Entries with clear reserved bytes are exactly the encodings. */
  lemma ExtentBytesRoundTrip(s: seq<byte>)
    requires |s| == ENTRY_LEN && ReservedAreZero(s)
    ensures EncodeExtent(DecodeExtent(s)) == s
  {
    hide LE, FromLE;
    LEOfFromLE(s[0..8]);
    LEOfFromLE(s[8..12]);
    LEOfFromLE(s[16..24]);
    assert s == s[0..8] + s[8..12] + s[12..16] + s[16..24] + s[24..32];
  }

  /** A used entry never looks like an unused one. */
  lemma UsedIsNotZero(e: Extent)
    requires e.start != 0
    ensures EncodeExtent(e) != Zeros(ENTRY_LEN)
  {
    ExtentRoundTrip(e);
    var z := Zeros(ENTRY_LEN);
    assert z[0..8] == Zeros(8);
    ZeroInteger(8);
  }

  lemma {:induction false} ZeroInteger(n: nat)
    ensures FromLE(Zeros(n)) == 0
  {
    if n > 0 {
      ZeroInteger(n - 1);
      assert Zeros(n)[1..] == Zeros(n - 1);
    }
  }

  // ---------------------------------------------------------------------
  // Checking index pages
  // ---------------------------------------------------------------------

  datatype IndexState = IndexState(previousEnd: nat, unusedTail: bool, entries: seq<Extent>)

  const EMPTY_INDEX := IndexState(0, false, [])

  /** One 32-byte chunk: unused, or the next extent in order below the index itself. */
  function CheckChunk(chunk: seq<byte>, indexStart: u64, st: IndexState): Result<IndexState, SegmentError>
    requires |chunk| == ENTRY_LEN
  {
    if chunk == Zeros(ENTRY_LEN) then Ok(st.(unusedTail := true))
    else if st.unusedTail || !ReservedAreZero(chunk) then Err(MetadataMismatch)
    else
      var e := DecodeExtent(chunk);
      if e.start == 0 || e.count == 0 then Err(MetadataMismatch)
      else if e.End() >= U64_LIMIT then Err(GeometryInvalid)
      else if e.End() > indexStart then Err(MetadataMismatch)
      else if st.previousEnd != 0 && e.start < st.previousEnd then Err(MetadataMismatch)
      else Ok(IndexState(e.End(), false, st.entries + [e]))
  }

  function ChunkAt(body: seq<byte>, i: nat): (c: seq<byte>)
    requires (i + 1) * ENTRY_LEN <= |body|
    ensures |c| == ENTRY_LEN
  {
    body[i * ENTRY_LEN..(i + 1) * ENTRY_LEN]
  }

  /** The first `n` chunks of a page, one after another. */
  function CheckChunks(body: seq<byte>, n: nat, indexStart: u64, st: IndexState): Result<IndexState, SegmentError>
    requires n * ENTRY_LEN <= |body|
  {
    if n == 0 then Ok(st)
    else
      var before := CheckChunks(body, n - 1, indexStart, st);
      if before.Err? then before else CheckChunk(ChunkAt(body, n - 1), indexStart, before.value)
  }

  /** A whole page: whatever is left after the last full chunk must be zero. */
  function CheckPage(body: seq<byte>, indexStart: u64, st: IndexState): Result<IndexState, SegmentError>
  {
    var n := |body| / ENTRY_LEN;
    if body[n * ENTRY_LEN..] != Zeros(|body| - n * ENTRY_LEN) then Err(MetadataMismatch)
    else CheckChunks(body, n, indexStart, st)
  }

  lemma {:induction false} ErrorSticks(body: seq<byte>, m: nat, n: nat, indexStart: u64, st: IndexState)
    requires m <= n && n * ENTRY_LEN <= |body| && CheckChunks(body, m, indexStart, st).Err?
    ensures CheckChunks(body, n, indexStart, st) == CheckChunks(body, m, indexStart, st)
  {
    hide CheckChunk, ChunkAt;
    if m < n { ErrorSticks(body, m, n - 1, indexStart, st); }
  }

  /** A tail is all zeros when no byte of it is anything else. */
  lemma ZeroTail(body: seq<byte>, from: nat)
    requires from <= |body|
    ensures body[from..] == Zeros(|body| - from) <==> !exists i :: from <= i < |body| && body[i] != 0
  {
    var tail := body[from..];
    assert forall j :: 0 <= j < |tail| ==> tail[j] == body[from + j];
    assert forall i :: from <= i < |body| ==> body[i] == tail[i - from];
  }

  method ValidateIndexEntries(body: seq<byte>, indexStart: u64, st: IndexState)
    returns (r: Result<IndexState, SegmentError>)
    ensures r == CheckPage(body, indexStart, st)
  {
    hide CheckChunk, ChunkAt;
    var n := |body| / ENTRY_LEN;
    ZeroTail(body, n * ENTRY_LEN);
    if exists i :: n * ENTRY_LEN <= i < |body| && body[i] != 0 {
      return Err(MetadataMismatch);
    }
    var cur := st;
    var i := 0;
    while i < n
      invariant 0 <= i <= n && CheckChunks(body, i, indexStart, st) == Ok(cur)
    {
      var next := CheckChunk(ChunkAt(body, i), indexStart, cur);
      if next.Err? {
        ErrorSticks(body, i + 1, n, indexStart, st);
        return next;
      }
      cur := next.value;
      i := i + 1;
    }
    return Ok(cur);
  }

  // ---------------------------------------------------------------------
  // Soundness: what acceptance means
  // ---------------------------------------------------------------------

  /** Non-empty, in range, in order and disjoint. */
  ghost predicate OrderedExtents(es: seq<Extent>, limit: nat)
  {
    && (forall i :: 0 <= i < |es| ==> es[i].start >= 1 && es[i].count >= 1 && es[i].End() <= limit)
    && (forall i, j :: 0 <= i < j < |es| ==> es[i].End() <= es[j].start)
  }

  ghost predicate SoundState(st: IndexState, indexStart: u64)
  {
    && OrderedExtents(st.entries, indexStart)
    && st.previousEnd == (if st.entries == [] then 0 else st.entries[|st.entries| - 1].End())
  }

  lemma ChunkKeepsSound(chunk: seq<byte>, indexStart: u64, st: IndexState)
    requires |chunk| == ENTRY_LEN && SoundState(st, indexStart)
    ensures var r := CheckChunk(chunk, indexStart, st);
            r.Ok? ==> SoundState(r.value, indexStart) && st.entries <= r.value.entries
  {
    hide DecodeExtent, ReservedAreZero;
    var r := CheckChunk(chunk, indexStart, st);
    if r.Ok? && r.value.entries != st.entries {
      var es, last := r.value.entries, |st.entries|;
      forall i, j | 0 <= i < j < |es| ensures es[i].End() <= es[j].start {
        if j == last && i < last - 1 { assert es[i].End() <= es[last - 1].start; }
      }
    }
  }

  /** Whatever bytes a page holds, acceptance leaves an ordered, disjoint, in-range list. */
  lemma {:induction false} AcceptedIsSound(body: seq<byte>, n: nat, indexStart: u64, st: IndexState)
    requires n * ENTRY_LEN <= |body| && SoundState(st, indexStart)
    ensures var r := CheckChunks(body, n, indexStart, st);
            r.Ok? ==> SoundState(r.value, indexStart) && st.entries <= r.value.entries
  {
    hide CheckChunk;
    if n > 0 {
      AcceptedIsSound(body, n - 1, indexStart, st);
      var before := CheckChunks(body, n - 1, indexStart, st);
      if before.Ok? { ChunkKeepsSound(ChunkAt(body, n - 1), indexStart, before.value); }
    }
  }

  /** Chunk `i` of an accepted page is the encoding of its entry, or unused once the entries are out. */
  ghost predicate Spells(body: seq<byte>, n: nat, es: seq<Extent>)
    requires n * ENTRY_LEN <= |body|
  {
    && |es| <= n
    && forall i: nat :: i < n ==> ChunkAt(body, i) == if i < |es| then EncodeExtent(es[i]) else Zeros(ENTRY_LEN)
  }

  lemma {:induction false} AcceptedChunks(body: seq<byte>, n: nat, indexStart: u64, st: IndexState)
    requires n * ENTRY_LEN <= |body|
    ensures var r := CheckChunks(body, n, indexStart, st);
            r.Ok? ==>
              && st.entries <= r.value.entries && Spells(body, n, r.value.entries[|st.entries|..])
              && (r.value.unusedTail <==> st.unusedTail || |r.value.entries| - |st.entries| < n)
              && (st.unusedTail ==> r.value.entries == st.entries)
  {
    hide EncodeExtent, DecodeExtent, ReservedAreZero, ChunkAt;
    if n > 0 {
      AcceptedChunks(body, n - 1, indexStart, st);
      var before := CheckChunks(body, n - 1, indexStart, st);
      var r := CheckChunks(body, n, indexStart, st);
      if r.Ok? {
        var chunk, was, es := ChunkAt(body, n - 1), before.value.entries[|st.entries|..], r.value.entries[|st.entries|..];
        if chunk == Zeros(ENTRY_LEN) {
          assert es == was;
        } else {
          ExtentBytesRoundTrip(chunk);
          assert es == was + [DecodeExtent(chunk)];
        }
      }
    }
  }

  /** Every accepted page, down to its last byte: the encodings of the entries it added, one after another, then zeros. */
  lemma AcceptedBytes(body: seq<byte>, indexStart: u64, st: IndexState)
    requires CheckPage(body, indexStart, st).Ok?
    ensures var after := CheckPage(body, indexStart, st).value.entries;
            && st.entries <= after
            && var es := after[|st.entries|..];
               && |es| * ENTRY_LEN <= |body|
               && (forall i: nat :: i < |es| ==> body[i * ENTRY_LEN..(i + 1) * ENTRY_LEN] == EncodeExtent(es[i]))
               && (forall j :: |es| * ENTRY_LEN <= j < |body| ==> body[j] == 0)
  {
    hide EncodeExtent, CheckChunks;
    var n := |body| / ENTRY_LEN;
    AcceptedChunks(body, n, indexStart, st);
    ZeroTail(body, n * ENTRY_LEN);
    var es := CheckPage(body, indexStart, st).value.entries[|st.entries|..];
    forall i: nat | i < |es| ensures body[i * ENTRY_LEN..(i + 1) * ENTRY_LEN] == EncodeExtent(es[i]) {
      assert ChunkAt(body, i) == EncodeExtent(es[i]);
    }
    forall j | |es| * ENTRY_LEN <= j < n * ENTRY_LEN ensures body[j] == 0 {
      var i := j / ENTRY_LEN;
      assert ChunkAt(body, i)[j - i * ENTRY_LEN] == body[j];
    }
  }

  // ---------------------------------------------------------------------
  // Completeness: what the writer lays down is accepted
  // ---------------------------------------------------------------------

  function Packed(es: seq<Extent>): (s: seq<byte>)
    ensures |s| == |es| * ENTRY_LEN
  {
    if es == [] then [] else Packed(es[..|es| - 1]) + EncodeExtent(es[|es| - 1])
  }

  /** An index page body: the entries, then zeros. */
  function IndexBody(es: seq<Extent>, cap: nat): (body: seq<byte>)
    requires |es| * ENTRY_LEN <= cap
    ensures |body| == cap
  {
    Packed(es) + Zeros(cap - |es| * ENTRY_LEN)
  }

  lemma {:induction false} PackedAt(es: seq<Extent>, i: nat)
    requires i < |es|
    ensures Packed(es)[i * ENTRY_LEN..(i + 1) * ENTRY_LEN] == EncodeExtent(es[i])
    decreases |es|
  {
    hide EncodeExtent;
    var init, last := es[..|es| - 1], EncodeExtent(es[|es| - 1]);
    if i == |es| - 1 {
      SliceOfRight(Packed(init), last, 0, ENTRY_LEN);
    } else {
      PackedAt(init, i);
      SliceOfLeft(Packed(init), last, i * ENTRY_LEN, (i + 1) * ENTRY_LEN);
    }
  }

  lemma BodyChunk(es: seq<Extent>, cap: nat, i: nat)
    requires |es| * ENTRY_LEN <= cap && (i + 1) * ENTRY_LEN <= cap
    ensures ChunkAt(IndexBody(es, cap), i) == if i < |es| then EncodeExtent(es[i]) else Zeros(ENTRY_LEN)
  {
    hide EncodeExtent, Packed;
    var z := Zeros(cap - |es| * ENTRY_LEN);
    if i < |es| {
      PackedAt(es, i);
      SliceOfLeft(Packed(es), z, i * ENTRY_LEN, (i + 1) * ENTRY_LEN);
    } else {
      SliceOfRight(Packed(es), z, (i - |es|) * ENTRY_LEN, (i + 1 - |es|) * ENTRY_LEN);
      assert z[(i - |es|) * ENTRY_LEN..(i + 1 - |es|) * ENTRY_LEN] == Zeros(ENTRY_LEN);
    }
  }

  function EndOf(es: seq<Extent>): nat
  {
    if es == [] then 0 else es[|es| - 1].End()
  }

  /** The state after the writer's first `n` chunks of a page that continues `done`. */
  ghost function AfterChunks(done: seq<Extent>, es: seq<Extent>, n: nat): IndexState
  {
    var k := if n < |es| then n else |es|;
    IndexState(EndOf(done + es[..k]), n > |es|, done + es[..k])
  }

  lemma NextExtent(done: seq<Extent>, es: seq<Extent>, n: nat, indexStart: u64)
    requires n < |es| && OrderedExtents(done + es, indexStart)
    ensures CheckChunk(EncodeExtent(es[n]), indexStart, AfterChunks(done, es, n)) == Ok(AfterChunks(done, es, n + 1))
  {
    hide EncodeExtent, DecodeExtent, ReservedAreZero;
    var e, all := es[n], done + es;
    assert all[|done| + n] == e;
    UsedIsNotZero(e);
    ExtentRoundTrip(e);
    var before := done + es[..n];
    if before != [] {
      assert before[|before| - 1] == all[|before| - 1];
    }
    assert done + es[..n + 1] == before + [e];
  }

  lemma {:induction false} WriterChunksAccepted(done: seq<Extent>, es: seq<Extent>, cap: nat, n: nat, indexStart: u64)
    requires |es| * ENTRY_LEN <= cap && n * ENTRY_LEN <= cap && OrderedExtents(done + es, indexStart)
    ensures CheckChunks(IndexBody(es, cap), n, indexStart, AfterChunks(done, es, 0)) == Ok(AfterChunks(done, es, n))
    decreases n
  {
    hide CheckChunk, IndexBody, EncodeExtent;
    if n > 0 {
      WriterChunksAccepted(done, es, cap, n - 1, indexStart);
      BodyChunk(es, cap, n - 1);
      if n - 1 < |es| {
        NextExtent(done, es, n - 1, indexStart);
      } else {
        UnusedChunk(done, es, n, indexStart);
      }
    }
  }

  lemma UnusedChunk(done: seq<Extent>, es: seq<Extent>, n: nat, indexStart: u64)
    requires |es| < n
    ensures CheckChunk(Zeros(ENTRY_LEN), indexStart, AfterChunks(done, es, n - 1)) == Ok(AfterChunks(done, es, n))
  {
  }

  /** A page the writer laid down is accepted and yields exactly its extents. */
  lemma WriterPageAccepted(done: seq<Extent>, es: seq<Extent>, cap: nat, indexStart: u64)
    requires |es| * ENTRY_LEN <= cap && OrderedExtents(done + es, indexStart)
    ensures CheckPage(IndexBody(es, cap), indexStart, IndexState(EndOf(done), false, done))
         == Ok(IndexState(EndOf(done + es), |es| < cap / ENTRY_LEN, done + es))
  {
    hide CheckChunks;
    var n := cap / ENTRY_LEN;
    WriterChunksAccepted(done, es, cap, n, indexStart);
    assert done + es[..0] == done && es[..|es|] == es;
    var z := Zeros(cap - |es| * ENTRY_LEN);
    assert IndexBody(es, cap)[n * ENTRY_LEN..] == Zeros(cap - n * ENTRY_LEN);
  }
}
