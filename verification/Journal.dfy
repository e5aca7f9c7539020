/** The apply-journal sidecar: record codec, page framing and replay. */
module Journal {
  import opened Arithmetic
  import opened Bytes
  import opened NodeLayout

  const PREFIX_LEN := 4
  const RECORD_HEADER := 12
  const MIN_ACTION := 17

  type SegmentId = s: seq<byte> | |s| == 16 witness seq(16, i => 0)

  datatype Action = Promote(segmentId: SegmentId) | Tombstone(segmentId: SegmentId, commit: u64)
  datatype Record = Record(target: u64, actions: seq<Action>)
  datatype JournalError = RecordMalformed | PayloadTooLarge | PageMissing

  // ---------------------------------------------------------------------
  // Record bytes
  // ---------------------------------------------------------------------

  function ActionBytes(a: Action): (s: seq<byte>)
    ensures |s| == if a.Promote? then 17 else 25
  {
    match a
    case Promote(id) => [1] + id
    case Tombstone(id, commit) => [2] + id + LE64(commit)
  }

  function ActionsBytes(actions: seq<Action>): (s: seq<byte>)
    ensures |s| >= MIN_ACTION * |actions|
  {
    if actions == [] then [] else ActionBytes(actions[0]) + ActionsBytes(actions[1..])
  }

  /** The action count saturates rather than wraps. */
  function Count(n: nat): u32
  {
    if n < U32_LIMIT then n else U32_LIMIT - 1
  }

  function RecordBytes(r: Record): (s: seq<byte>)
    ensures |s| >= RECORD_HEADER + MIN_ACTION * |r.actions|
  {
    LE64(r.target) + LE32(Count(|r.actions|)) + ActionsBytes(r.actions)
  }

  method EncodeRecord(r: Record) returns (buf: seq<byte>)
    ensures buf == RecordBytes(r)
  {
    hide LE;
    buf := LE64(r.target) + LE32(Count(|r.actions|));
    ghost var head := buf;
    var i := 0;
    while i < |r.actions|
      invariant 0 <= i <= |r.actions|
      invariant buf + ActionsBytes(r.actions[i..]) == head + ActionsBytes(r.actions)
    {
      assert r.actions[i..][1..] == r.actions[i + 1..];
      Associative(buf, ActionBytes(r.actions[i]), ActionsBytes(r.actions[i + 1..]));
      buf := buf + ActionBytes(r.actions[i]);
      i := i + 1;
    }
    assert r.actions[i..] == [];
  }

  // ---------------------------------------------------------------------
  // Parsing
  // ---------------------------------------------------------------------

  datatype Parsed = Parsed(actions: seq<Action>, rest: seq<byte>)

  /** One action off the front. */
  function ParseAction(s: seq<byte>): Result<(Action, seq<byte>), JournalError>
  {
    if |s| < 17 then Err(RecordMalformed)
    else if s[0] == 1 then Ok((Promote(s[1..17]), s[17..]))
    else if s[0] == 2 && |s| >= 25 then Ok((Tombstone(s[1..17], U64At(s, 17)), s[25..]))
    else Err(RecordMalformed)
  }

  function ParseActions(s: seq<byte>, n: nat): Result<Parsed, JournalError>
  {
    if n == 0 then Ok(Parsed([], s))
    else
      var first := ParseAction(s);
      if first.Err? then Err(first.error)
      else
        var rest := ParseActions(first.value.1, n - 1);
        if rest.Err? then rest else Ok(Parsed([first.value.0] + rest.value.actions, rest.value.rest))
  }

  lemma ParseOne(a: Action, tail: seq<byte>)
    ensures ParseAction(ActionBytes(a) + tail) == Ok((a, tail))
  {
    hide LE, U64At;
    var s := ActionBytes(a) + tail;
    assert s[1..17] == a.segmentId;
    if a.Tombstone? {
      assert s[17..25] == LE64(a.commit) && s[25..] == tail;
      U64AtLE64(s, 17, a.commit);
    } else {
      assert s[17..] == tail;
    }
  }

  lemma ParseOneSound(s: seq<byte>)
    ensures ParseAction(s).Ok? ==> s == ActionBytes(ParseAction(s).value.0) + ParseAction(s).value.1
  {
    hide LE, FromLE;
    if ParseAction(s).Ok? {
      if s[0] == 1 {
        assert s == [s[0]] + s[1..17] + s[17..];
      } else {
        LEOfFromLE(s[17..25]);
        assert s == [s[0]] + s[1..17] + s[17..25] + s[25..];
      }
    }
  }

  /** Written actions parse back, whatever follows them. */
  lemma {:induction false} ParseWritten(actions: seq<Action>, tail: seq<byte>)
    ensures ParseActions(ActionsBytes(actions) + tail, |actions|) == Ok(Parsed(actions, tail))
  {
    hide ActionBytes, ParseAction;
    if actions == [] {
      assert [] + tail == tail;
    } else {
      var a, rest := actions[0], actions[1..];
      Associative(ActionBytes(a), ActionsBytes(rest), tail);
      ParseOne(a, ActionsBytes(rest) + tail);
      ParseWritten(rest, tail);
      assert actions == [a] + rest;
    }
  }

  /** Whatever parses is exactly the bytes of what it parsed to. */
  lemma {:induction false} ParseSound(s: seq<byte>, n: nat)
    requires ParseActions(s, n).Ok?
    ensures var p := ParseActions(s, n).value;
            |p.actions| == n && s == ActionsBytes(p.actions) + p.rest
    decreases n
  {
    hide ActionBytes, ParseAction;
    if n == 0 {
      assert s == [] + s;
    } else {
      ParseOneSound(s);
      var first := ParseAction(s).value;
      ParseSound(first.1, n - 1);
      var p := ParseActions(first.1, n - 1).value;
      assert ([first.0] + p.actions)[1..] == p.actions;
      Associative(ActionBytes(first.0), ActionsBytes(p.actions), p.rest);
    }
  }

  /** The decoder's answer for a byte string. */
  function Decoded(buf: seq<byte>): Result<Record, JournalError>
  {
    if |buf| < RECORD_HEADER then Err(RecordMalformed)
    else
      var p := ParseActions(buf[RECORD_HEADER..], U32At(buf, 8));
      if p.Ok? && p.value.rest == [] then Ok(Record(U64At(buf, 0), p.value.actions)) else Err(RecordMalformed)
  }

  lemma {:induction false} ParseFails(s: seq<byte>, n: nat)
    requires |s| < MIN_ACTION * n
    ensures ParseActions(s, n).Err?
  {
    hide ParseActions;
    if ParseActions(s, n).Ok? { ParseSound(s, n); }
  }

  /** The decode loop, with its early refusal of counts the buffer cannot hold. */
  method DecodeRecord(buf: seq<byte>) returns (r: Result<Record, JournalError>)
    ensures r == Decoded(buf)
  {
    hide U64At, U32At, ParseActions, ParseAction, Continue;
    if |buf| < RECORD_HEADER { return Err(RecordMalformed); }
    var target, count := U64At(buf, 0), U32At(buf, 8);
    var off := RECORD_HEADER;
    if count > (|buf| - off) / MIN_ACTION {
      ParseFails(buf[off..], count);
      return Err(RecordMalformed);
    }
    var actions: seq<Action> := [];
    var i := 0;
    ghost var whole := ParseActions(buf[off..], count);
    ContinueStart(whole);
    while i < count
      invariant 0 <= i <= count && 0 <= off <= |buf|
      invariant whole == Continue(actions, ParseActions(buf[off..], count - i))
    {
      ContinueStep(actions, buf[off..], count - i);
      var next := NextAction(buf, off);
      if next.Err? { return Err(RecordMalformed); }
      actions, off := actions + [next.value.0], next.value.1;
      i := i + 1;
    }
    ContinueEnd(actions, buf[off..]);
    if off != |buf| { return Err(RecordMalformed); }
    return Ok(Record(target, actions));
  }

  /** One action at `off`, and where the next one starts. */
  method NextAction(buf: seq<byte>, off: nat) returns (r: Result<(Action, nat), JournalError>)
    requires off <= |buf|
    ensures r.Ok? <==> ParseAction(buf[off..]).Ok?
    ensures r.Ok? ==> r.value.1 <= |buf| && ParseAction(buf[off..]).value == (r.value.0, buf[r.value.1..])
    ensures r.Err? ==> r.error == RecordMalformed
  {
    hide U64At;
    ghost var here := buf[off..];
    if off >= |buf| { return Err(RecordMalformed); }
    var kind, at := buf[off], off + 1;
    if at + 16 > |buf| { return Err(RecordMalformed); }
    var id := buf[at..at + 16];
    at := at + 16;
    assert id == here[1..17] && kind == here[0];
    if kind == 1 {
      assert buf[at..] == here[17..];
      return Ok((Promote(id), at));
    } else if kind == 2 {
      if at + 8 > |buf| { return Err(RecordMalformed); }
      assert buf[at + 8..] == here[25..] && buf[at..at + 8] == here[17..25];
      SameInteger(buf, at, here, 17);
      return Ok((Tombstone(id, U64At(buf, at)), at + 8));
    }
    return Err(RecordMalformed);
  }

  /** What was parsed so far, then what the rest parses to. */
  ghost function Continue(done: seq<Action>, rest: Result<Parsed, JournalError>): Result<Parsed, JournalError>
  {
    if rest.Err? then rest else Ok(Parsed(done + rest.value.actions, rest.value.rest))
  }

  lemma ContinueStart(whole: Result<Parsed, JournalError>)
    ensures Continue([], whole) == whole
  {
    if whole.Ok? { assert [] + whole.value.actions == whole.value.actions; }
  }

  lemma ContinueStep(done: seq<Action>, s: seq<byte>, n: nat)
    requires n > 0
    ensures ParseAction(s).Err? ==> Continue(done, ParseActions(s, n)).Err?
    ensures ParseAction(s).Ok? ==>
              var first := ParseAction(s).value;
              Continue(done, ParseActions(s, n)) == Continue(done + [first.0], ParseActions(first.1, n - 1))
  {
    hide ParseAction;
    if ParseAction(s).Ok? {
      var first := ParseAction(s).value;
      var rest := ParseActions(first.1, n - 1);
      if rest.Ok? { Associative(done, [first.0], rest.value.actions); }
    }
  }

  lemma ContinueEnd(done: seq<Action>, s: seq<byte>)
    ensures Continue(done, ParseActions(s, 0)) == Ok(Parsed(done, s))
  {
    assert done + [] == done;
  }

  lemma SameInteger(s: seq<byte>, i: nat, t: seq<byte>, j: nat)
    requires i + 8 <= |s| && j + 8 <= |t| && s[i..i + 8] == t[j..j + 8]
    ensures U64At(s, i) == U64At(t, j)
  {
  }

  // ---------------------------------------------------------------------
  // The bijection
  // ---------------------------------------------------------------------

  /** A record decodes back from its bytes exactly when its action count is not saturated. */
  lemma RecordRoundTrip(r: Record)
    ensures Decoded(RecordBytes(r)) == Ok(r) <==> |r.actions| < U32_LIMIT
  {
    hide LE, U64At, U32At, ActionsBytes, ParseActions;
    var buf, t, c, body := RecordBytes(r), LE64(r.target), LE32(Count(|r.actions|)), ActionsBytes(r.actions);
    assert buf[0..8] == t && buf[8..12] == c && buf[RECORD_HEADER..] == body;
    U64AtLE64(buf, 0, r.target);
    U32AtLE32(buf, 8, Count(|r.actions|));
    if |r.actions| < U32_LIMIT {
      ParseWritten(r.actions, []);
      assert body + [] == body;
    } else if ParseActions(body, Count(|r.actions|)).Ok? {
      ParseSound(body, Count(|r.actions|));
    }
  }

  /** Every accepted byte string is the encoding of what it decodes to. */
  lemma BytesRoundTrip(buf: seq<byte>)
    requires Decoded(buf).Ok?
    ensures RecordBytes(Decoded(buf).value) == buf
  {
    hide LE, FromLE, ActionsBytes, ParseActions;
    var r := Decoded(buf).value;
    ParseSound(buf[RECORD_HEADER..], U32At(buf, 8));
    LEOfFromLE(buf[0..8]);
    LEOfFromLE(buf[8..12]);
    assert ActionsBytes(r.actions) + [] == ActionsBytes(r.actions);
    assert buf == buf[0..8] + buf[8..12] + buf[RECORD_HEADER..];
  }

  // ---------------------------------------------------------------------
  // Pages
  // ---------------------------------------------------------------------

  /** The length-prefixed record, zero-padded to whole pages. */
  function Stream(record: seq<byte>, cap: nat): (s: seq<byte>)
    requires cap > 0 && |record| < U32_LIMIT
    ensures |s| == DivCeil(PREFIX_LEN + |record|, cap) * cap
  {
    CoversAll(PREFIX_LEN + |record|, cap);
    LE32(|record|) + record + Zeros(DivCeil(PREFIX_LEN + |record|, cap) * cap - PREFIX_LEN - |record|)
  }

  lemma CoversAll(n: nat, cap: nat)
    requires cap > 0
    ensures DivCeil(n, cap) * cap >= n
  {
    var x := n + cap - 1;
    assert x == x / cap * cap + x % cap;
  }

  /** Consecutive pieces of `cap` bytes. */
  function Cut(s: seq<byte>, cap: nat): (pages: seq<seq<byte>>)
    requires cap > 0
  {
    if |s| <= cap then [s] else [s[..cap]] + Cut(s[cap..], cap)
  }

  lemma {:induction false} CutIsWhole(s: seq<byte>, cap: nat, n: nat)
    requires cap > 0 && n >= 1 && |s| == n * cap
    ensures Concat(Cut(s, cap)) == s && |Cut(s, cap)| == n
    ensures forall i :: 0 <= i < n ==> |Cut(s, cap)[i]| == cap
    decreases n
  {
    var pages := Cut(s, cap);
    if n == 1 {
      assert pages[1..] == [];
    } else {
      MulMonotone(2, n, cap);
      assert |s| - cap == (n - 1) * cap;
      CutIsWhole(s[cap..], cap, n - 1);
      assert pages[1..] == Cut(s[cap..], cap);
    }
  }

  function PageCountFor(recordLen: nat, pageSize: nat): nat
    requires LegalPageSize(pageSize)
  {
    DivCeil(PREFIX_LEN + recordLen, BodyCapacity(pageSize))
  }

  /** How many pages the first one's length prefix asks for. */
  function ClaimedPages(first: seq<byte>, pageSize: nat): nat
    requires LegalPageSize(pageSize)
  {
    if |first| < PREFIX_LEN then 0 else PageCountFor(U32At(first, 0), pageSize)
  }

  /** Splits a record over pages of exactly one body each. */
  method EncodeJournalPages(r: Record, pageSize: nat) returns (pages: Result<seq<seq<byte>>, JournalError>)
    requires LegalPageSize(pageSize)
    ensures pages.Ok? <==> |RecordBytes(r)| < U32_LIMIT
    ensures pages.Ok? ==>
              && |pages.value| == PageCountFor(|RecordBytes(r)|, pageSize) >= 1
              && (forall i :: 0 <= i < |pages.value| ==> |pages.value[i]| == BodyCapacity(pageSize))
              && Concat(pages.value) == Stream(RecordBytes(r), BodyCapacity(pageSize))
  {
    hide LE, RecordBytes, DivCeil;
    var record := EncodeRecord(r);
    if |record| >= U32_LIMIT { return Err(PayloadTooLarge); }
    var cap := BodyCapacity(pageSize);
    var stream := Stream(record, cap);
    SomePages(PREFIX_LEN + |record|, cap);
    CutIsWhole(stream, cap, DivCeil(PREFIX_LEN + |record|, cap));
    return Ok(Cut(stream, cap));
  }

  lemma SomePages(n: nat, cap: nat)
    requires n > 0 && cap > 0
    ensures DivCeil(n, cap) >= 1
  {
    if n <= cap { DivCeilOne(n, cap); } else { DivCeilStep(n, cap); }
  }

  /** Reads the prefix, takes that many bytes, and ignores the padding. */
  function DecodedStream(stream: seq<byte>): Result<Record, JournalError>
  {
    if |stream| < PREFIX_LEN then Err(RecordMalformed)
    else
      var end := PREFIX_LEN + U32At(stream, 0);
      if end > |stream| then Err(RecordMalformed) else Decoded(stream[PREFIX_LEN..end])
  }

  lemma StreamPrefix(record: seq<byte>, cap: nat)
    requires cap > 0 && |record| < U32_LIMIT
    ensures var s := Stream(record, cap);
            && PREFIX_LEN + |record| <= |s| && U32At(s, 0) == |record|
            && s[PREFIX_LEN..PREFIX_LEN + |record|] == record
  {
    hide LE, U32At, DivCeil;
    CoversAll(PREFIX_LEN + |record|, cap);
    var s := Stream(record, cap);
    assert s[0..4] == LE32(|record|);
    U32AtLE32(s, 0, |record|);
  }

  /** Every record that encodes to pages decodes back from their concatenation. */
  lemma StreamRoundTrip(r: Record, cap: nat)
    requires cap > 0 && |RecordBytes(r)| < U32_LIMIT
    ensures DecodedStream(Stream(RecordBytes(r), cap)) == Ok(r)
  {
    hide LE, U32At, Stream, Decoded, RecordBytes;
    StreamPrefix(RecordBytes(r), cap);
    RecordRoundTrip(r);
  }

  /** Replays a sidecar: page 0 says how many pages to read. */
  method Replay(pages: seq<seq<byte>>, pageSize: nat) returns (r: Result<Record, JournalError>)
    requires LegalPageSize(pageSize)
    requires forall i :: 0 <= i < |pages| ==> |pages[i]| == BodyCapacity(pageSize)
    ensures pages == [] ==> r == Err(PageMissing)
    ensures pages != [] ==>
              var n := ClaimedPages(pages[0], pageSize);
              if |pages| < n then r == Err(PageMissing) else r == DecodedStream(Concat(pages[..n]))
  {
    hide LE, U32At, DivCeil, Decoded;
    if pages == [] { return Err(PageMissing); }
    var stream := pages[0];
    var n := ClaimedPages(stream, pageSize);
    SomePages(PREFIX_LEN + U32At(stream, 0), BodyCapacity(pageSize));
    ConcatOne(pages);
    var i := 1;
    while i < n
      invariant 1 <= i <= n && i <= |pages| && stream == Concat(pages[..i]) && |stream| >= PREFIX_LEN
    {
      if i >= |pages| { return Err(PageMissing); }
      ConcatNext(pages, i);
      stream := stream + pages[i];
      i := i + 1;
    }
    return DecodedStream(stream);
  }

  lemma ConcatOne(pages: seq<seq<byte>>)
    requires pages != []
    ensures Concat(pages[..1]) == pages[0]
  {
    assert pages[..1][1..] == [];
  }

  lemma {:induction false} ConcatNext(pages: seq<seq<byte>>, i: nat)
    requires i < |pages|
    ensures Concat(pages[..i + 1]) == Concat(pages[..i]) + pages[i]
    decreases i
  {
    if i == 0 {
      ConcatOne(pages);
    } else {
      ConcatNext(pages[1..], i - 1);
      assert pages[..i + 1][1..] == pages[1..][..i] && pages[..i][1..] == pages[1..][..i - 1];
      Associative(pages[0], Concat(pages[1..][..i - 1]), pages[i]);
    }
  }

  /** Replay computes, from the first page alone, exactly the number of pages that were written. */
  lemma ReplayCountsPages(r: Record, pages: seq<seq<byte>>, pageSize: nat)
    requires LegalPageSize(pageSize) && |RecordBytes(r)| < U32_LIMIT && pages != []
    requires |pages| == PageCountFor(|RecordBytes(r)|, pageSize)
    requires forall i :: 0 <= i < |pages| ==> |pages[i]| == BodyCapacity(pageSize)
    requires Concat(pages) == Stream(RecordBytes(r), BodyCapacity(pageSize))
    ensures ClaimedPages(pages[0], pageSize) == |pages|
    ensures DecodedStream(Concat(pages)) == Ok(r)
  {
    hide LE, FromLE, DivCeil, Stream, Decoded, RecordBytes;
    StreamPrefix(RecordBytes(r), BodyCapacity(pageSize));
    assert Concat(pages)[0..4] == pages[0][0..4];
    StreamRoundTrip(r, BodyCapacity(pageSize));
  }

  // ---------------------------------------------------------------------
  // The journal id in the header
  // ---------------------------------------------------------------------

  function EncodeJournalId(id: SegmentId): (u64, u64)
  {
    (U64At(id, 0), U64At(id, 8))
  }

  function DecodeJournalId(pageId: u64, version: u64): SegmentId
  {
    LE64(pageId) + LE64(version)
  }

  lemma JournalIdRoundTrip(id: SegmentId, pageId: u64, version: u64)
    ensures DecodeJournalId(EncodeJournalId(id).0, EncodeJournalId(id).1) == id
    ensures EncodeJournalId(DecodeJournalId(pageId, version)) == (pageId, version)
  {
    hide LE, FromLE;
    LEOfFromLE(id[0..8]);
    LEOfFromLE(id[8..16]);
    assert id == id[0..8] + id[8..16];
    var s := DecodeJournalId(pageId, version);
    assert s[0..8] == LE64(pageId) && s[8..16] == LE64(version);
    U64AtLE64(s, 0, pageId);
    U64AtLE64(s, 8, version);
  }
}
