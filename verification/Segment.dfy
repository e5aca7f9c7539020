/** Segment files: the writer that appends and seals, and the validator that admits what was sealed. */
module Segments {
  import opened Arithmetic
  import opened Bytes
  import opened NodeLayout
  import opened Nonces
  import opened SegmentIndex

  /** Who a segment belongs to; every field is compared, none is interpreted. */
  datatype Identity = Identity(segmentId: seq<byte>, parentFileId: seq<byte>, realmId: seq<byte>, mkEpoch: u64,
                               cipherId: byte, formatVersion: u16)

  datatype Footer = Footer(identity: Identity, pageCount: u64, totalBytes: u64, finalCounter: u64,
                           indexStart: u64, indexPages: u32)
  datatype Meta = Meta(identity: Identity, pageCount: u64, totalBytes: u64, finalCounter: u64)

  /** One page of the file. `Torn` is a write that never completed. */
  datatype FilePage =
    | HeaderPage(identity: Identity)
    | DataPage(payload: seq<byte>)
    | IndexPage(body: seq<byte>)
    | FooterPage(footer: Footer)
    | TornPage

  /** Bytes of `n` pages, one page after another. */
  function Span(n: nat, pageSize: nat): nat
  {
    if n == 0 then 0 else Span(n - 1, pageSize) + pageSize
  }

  lemma {:induction false} SpanIsProduct(n: nat, pageSize: nat)
    ensures Span(n, pageSize) == n * pageSize
  {
    if n > 0 {
      SpanIsProduct(n - 1, pageSize);
      assert n * pageSize == (n - 1) * pageSize + pageSize;
    }
  }

  lemma SpanNext(n: nat, pageSize: nat)
    ensures Span(n + 1, pageSize) == Span(n, pageSize) + pageSize
  {
  }

  lemma {:induction false} SpanGrows(m: nat, n: nat, pageSize: nat)
    requires m <= n
    ensures Span(m, pageSize) <= Span(n, pageSize)
  {
    if m < n { SpanGrows(m, n - 1, pageSize); }
  }

  /** A legal page size divides the 64-bit range, so a page that starts inside it ends inside it. */
  lemma SpanAligned(n: nat, pageSize: nat)
    requires LegalPageSize(pageSize) && Span(n, pageSize) < U64_LIMIT
    ensures Span(n, pageSize) + pageSize <= U64_LIMIT
  {
    hide Span;
    SpanIsProduct(n, pageSize);
  }

  lemma {:induction false} SpanAtLeast(n: nat, pageSize: nat)
    requires pageSize >= 1
    ensures n <= Span(n, pageSize)
  {
    if n > 0 { SpanAtLeast(n - 1, pageSize); }
  }

  function EntriesPerPage(pageSize: nat): (n: nat)
    requires LegalPageSize(pageSize)
    ensures n >= 1 && n * ENTRY_LEN <= BodyCapacity(pageSize)
  {
    BodyCapacity(pageSize) / ENTRY_LEN
  }

  // ---------------------------------------------------------------------
  // The validator
  // ---------------------------------------------------------------------

  /** Page count, byte total and file length agree, without overflow. */
  function CheckGeometry(meta: Meta, fileLen: nat, pageSize: nat): Result<(), SegmentError>
  {
    var expected := Span(meta.pageCount, pageSize);
    if expected >= U64_LIMIT || meta.pageCount < 2 || meta.totalBytes != expected || fileLen != expected
    then Err(GeometryInvalid) else Ok(())
  }

  function CheckFooter(footer: Footer, meta: Meta, parentFileId: seq<byte>): Result<(), SegmentError>
    requires meta.pageCount >= 1
  {
    var footerPage := meta.pageCount - 1;
    if footer.identity.parentFileId != parentFileId || footer.identity != meta.identity
       || footer.pageCount != meta.pageCount || footer.totalBytes != meta.totalBytes
       || footer.finalCounter != meta.finalCounter
    then Err(MetadataMismatch)
    else if footerPage < 1 then Err(GeometryInvalid)
    else if footer.finalCounter != footerPage - 1 then Err(MetadataMismatch)
    else if footer.indexPages == 0 then
      if footer.indexStart != 0 then Err(MetadataMismatch) else Ok(())
    else if footer.indexStart + footer.indexPages >= U64_LIMIT then Err(GeometryInvalid)
    else if footer.indexStart == 0 || footer.indexStart + footer.indexPages != footerPage then Err(MetadataMismatch)
    else Ok(())
  }

  /** `n` index pages from `page` on, each authenticated as an index page and then checked. */
  function CheckIndexPages(file: seq<FilePage>, page: nat, n: nat, indexStart: u64, st: IndexState)
    : Result<IndexState, SegmentError>
    decreases n
  {
    if n == 0 then Ok(st)
    else if page >= |file| || !file[page].IndexPage? then Err(PageUnverifiable)
    else
      var next := CheckPage(file[page].body, indexStart, st);
      if next.Err? then next else CheckIndexPages(file, page + 1, n - 1, indexStart, next.value)
  }

  /** The extents an index of `count` pages at `start` holds. */
  function ExtentIndexAt(file: seq<FilePage>, start: u64, count: u32): Result<seq<Extent>, SegmentError>
  {
    if count == 0 then Ok([])
    else
      var st := CheckIndexPages(file, start, count, start, EMPTY_INDEX);
      if st.Err? then Err(st.error)
      else if st.value.entries == [] then Err(MetadataMismatch)
      else Ok(st.value.entries)
  }

  /** Everything an open checks before it trusts a segment; its extents when all of it holds. */
  function Verdict(file: seq<FilePage>, meta: Meta, parentFileId: seq<byte>, pageSize: nat)
    : Result<seq<Extent>, SegmentError>
  {
    if !LegalPageSize(pageSize) || CheckGeometry(meta, Span(|file|, pageSize), pageSize).Err? then Err(GeometryInvalid)
    else if meta.pageCount > |file| || file[0] != HeaderPage(meta.identity) || meta.identity.parentFileId != parentFileId
    then Err(MetadataMismatch)
    else if !file[meta.pageCount - 1].FooterPage? then Err(PageUnverifiable)
    else
      var footer := file[meta.pageCount - 1].footer;
      var checked := CheckFooter(footer, meta, parentFileId);
      if checked.Err? then Err(checked.error) else ExtentIndexAt(file, footer.indexStart, footer.indexPages)
  }

  /** The decode loop over the index pages. */
  method DecodeExtentIndex(file: seq<FilePage>, footer: Footer) returns (r: Result<seq<Extent>, SegmentError>)
    ensures r == ExtentIndexAt(file, footer.indexStart, footer.indexPages)
  {
    hide CheckPage;
    if footer.indexPages == 0 { return Ok([]); }
    var st := EMPTY_INDEX;
    var i := 0;
    while i < footer.indexPages
      invariant 0 <= i <= footer.indexPages
      invariant CheckIndexPages(file, footer.indexStart, footer.indexPages, footer.indexStart, EMPTY_INDEX)
             == CheckIndexPages(file, footer.indexStart + i, footer.indexPages - i, footer.indexStart, st)
    {
      var page := footer.indexStart + i;
      if page >= |file| || !file[page].IndexPage? { return Err(PageUnverifiable); }
      var next := ValidateIndexEntries(file[page].body, footer.indexStart, st);
      if next.Err? { return Err(next.error); }
      st := next.value;
      i := i + 1;
    }
    if st.entries == [] { return Err(MetadataMismatch); }
    return Ok(st.entries);
  }

  lemma {:induction false} IndexPagesSound(file: seq<FilePage>, page: nat, n: nat, indexStart: u64, st: IndexState)
    requires SoundState(st, indexStart)
    ensures var r := CheckIndexPages(file, page, n, indexStart, st);
            r.Ok? ==> SoundState(r.value, indexStart)
    decreases n
  {
    hide SoundState, CheckChunks;
    if n > 0 && page < |file| && file[page].IndexPage? {
      var body := file[page].body;
      AcceptedIsSound(body, |body| / ENTRY_LEN, indexStart, st);
      var next := CheckPage(body, indexStart, st);
      if next.Ok? { IndexPagesSound(file, page + 1, n - 1, indexStart, next.value); }
    }
  }

  /** Whatever the file holds, an accepted one has ordered, disjoint extents that end before its index. */
  lemma AcceptedExtents(file: seq<FilePage>, meta: Meta, parentFileId: seq<byte>, pageSize: nat)
    requires Verdict(file, meta, parentFileId, pageSize).Ok?
    ensures OrderedExtents(Verdict(file, meta, parentFileId, pageSize).value, |file| - 1)
    ensures |file| == meta.pageCount >= 2 && meta.totalBytes == Span(|file|, pageSize)
    ensures file[0] == HeaderPage(meta.identity) && meta.identity.parentFileId == parentFileId
    ensures meta.finalCounter == |file| - 2
    ensures file[|file| - 1].FooterPage?
    ensures var f := file[|file| - 1].footer;
            && f.identity == meta.identity && f.pageCount == meta.pageCount && f.totalBytes == meta.totalBytes
            && f.finalCounter == meta.finalCounter
            && (f.indexPages == 0 <==> Verdict(file, meta, parentFileId, pageSize).value == [])
            && (f.indexPages == 0 <==> f.indexStart == 0)
            && (f.indexPages > 0 ==> f.indexStart + f.indexPages == |file| - 1)
  {
    hide CheckIndexPages, CheckPage;
    var footer := file[meta.pageCount - 1].footer;
    SpanInjective(|file|, meta.pageCount, pageSize);
    if footer.indexPages != 0 {
      IndexPagesSound(file, footer.indexStart, footer.indexPages, footer.indexStart, EMPTY_INDEX);
    }
  }

  lemma SpanInjective(m: nat, n: nat, pageSize: nat)
    requires Span(m, pageSize) == Span(n, pageSize) && n >= 1 && m >= n
    ensures pageSize > 0 ==> m == n
  {
    if m > n {
      SpanNext(n, pageSize);
      SpanGrows(n + 1, m, pageSize);
    }
  }

  // ---------------------------------------------------------------------
  // The index pages a seal writes
  // ---------------------------------------------------------------------

  /** Page bodies for a non-empty extent list, `perPage` entries each. */
  function IndexBodies(es: seq<Extent>, perPage: nat, cap: nat): (bodies: seq<seq<byte>>)
    requires perPage >= 1 && perPage * ENTRY_LEN <= cap
    ensures |bodies| >= 1
  {
    if |es| <= perPage then [IndexBody(es, cap)]
    else [IndexBody(es[..perPage], cap)] + IndexBodies(es[perPage..], perPage, cap)
  }

  lemma {:induction false} IndexPageCount(es: seq<Extent>, perPage: nat, cap: nat)
    requires perPage >= 1 && perPage * ENTRY_LEN <= cap && es != []
    ensures |IndexBodies(es, perPage, cap)| == DivCeil(|es|, perPage)
  {
    hide DivCeil, IndexBody;
    if |es| <= perPage {
      DivCeilOne(|es|, perPage);
    } else {
      IndexPageCount(es[perPage..], perPage, cap);
      DivCeilStep(|es|, perPage);
    }
  }

  /** The validator reads back, from those pages, exactly the extents. */
  lemma {:induction false} WriterPagesAccepted(file: seq<FilePage>, page: nat, done: seq<Extent>, es: seq<Extent>,
                                               perPage: nat, cap: nat, indexStart: u64)
    requires perPage == cap / ENTRY_LEN >= 1 && es != [] && OrderedExtents(done + es, indexStart)
    requires perPage * ENTRY_LEN <= cap
    requires var bodies := IndexBodies(es, perPage, cap);
             page + |bodies| <= |file|
             && forall i :: 0 <= i < |bodies| ==> file[page + i] == IndexPage(bodies[i])
    ensures var r := CheckIndexPages(file, page, |IndexBodies(es, perPage, cap)|, indexStart,
                                     IndexState(EndOf(done), false, done));
            r.Ok? && r.value.entries == done + es
    decreases |es|
  {
    hide CheckPage, IndexBody, OrderedExtents;
    var bodies := IndexBodies(es, perPage, cap);
    assert file[page + 0] == IndexPage(bodies[0]);
    if |es| <= perPage {
      WriterPageAccepted(done, es, cap, indexStart);
    } else {
      var here, rest := es[..perPage], es[perPage..];
      assert here + rest == es;
      SplitOrdered(done, here, rest, indexStart);
      WriterPageAccepted(done, here, cap, indexStart);
      assert bodies[1..] == IndexBodies(rest, perPage, cap);
      forall i | 0 <= i < |bodies[1..]| ensures file[page + 1 + i] == IndexPage(bodies[1..][i]) {
        assert file[page + (i + 1)] == IndexPage(bodies[i + 1]);
      }
      assert (done + here) + rest == done + es;
      WriterPagesAccepted(file, page + 1, done + here, rest, perPage, cap, indexStart);
    }
  }

  lemma SplitOrdered(done: seq<Extent>, here: seq<Extent>, rest: seq<Extent>, indexStart: u64)
    requires OrderedExtents(done + (here + rest), indexStart)
    ensures OrderedExtents(done + here, indexStart) && OrderedExtents((done + here) + rest, indexStart)
  {
    assert (done + here) + rest == done + (here + rest);
    var all, front := (done + here) + rest, done + here;
    assert forall i :: 0 <= i < |front| ==> front[i] == all[i];
  }

  // ---------------------------------------------------------------------
  // A writer's progress as a value
  // ---------------------------------------------------------------------

  /** How one page write goes: to the end, or failing, possibly part-way. */
  datatype Fault = Clean | Fails(torn: bool)

  datatype PageKind = DataKind | IndexKind

  function PageOf(kind: PageKind, payload: seq<byte>, cap: nat): FilePage
    requires |payload| <= cap
  {
    if kind.DataKind? then DataPage(payload) else IndexPage(payload + Zeros(cap - |payload|))
  }

  /** A page of the given kind holding exactly `payload`, an index page with zeros to its end. */
  ghost predicate Holds(page: FilePage, kind: PageKind, payload: seq<byte>, cap: nat)
  {
    match kind
    case DataKind => page == DataPage(payload)
    case IndexKind =>
      && page.IndexPage? && |page.body| == cap && payload <= page.body
      && forall i :: |payload| <= i < cap ==> page.body[i] == 0
  }

  lemma {:induction false} ConcatNext(pages: seq<seq<byte>>, last: seq<byte>)
    ensures |Concat(pages + [last])| == |Concat(pages)| + |last|
  {
    if pages == [] {
      assert [last][1..] == [];
    } else {
      ConcatNext(pages[1..], last);
      assert (pages + [last])[1..] == pages[1..] + [last];
    }
  }

  /** An extent's logical size is its payload bytes, saturating at the 64-bit maximum. */
  lemma {:induction false} LogicalBytesIs(pages: seq<seq<byte>>)
    ensures LogicalBytes(pages) == Min(|Concat(pages)|, U64_LIMIT - 1)
  {
    if pages != [] {
      var init, last := pages[..|pages| - 1], pages[|pages| - 1];
      LogicalBytesIs(init);
      ConcatNext(init, last);
      assert pages == init + [last];
    }
  }

  function LogicalBytes(pages: seq<seq<byte>>): u64
  {
    if pages == [] then 0 else SatAdd(LogicalBytes(pages[..|pages| - 1]), |pages[|pages| - 1]|)
  }

  ghost function DataPages(pages: seq<seq<byte>>): (ps: seq<FilePage>)
    ensures |ps| == |pages| && forall i :: 0 <= i < |pages| ==> ps[i] == DataPage(pages[i])
  {
    seq(|pages|, i requires 0 <= i < |pages| => DataPage(pages[i]))
  }

  ghost function IndexPages(bodies: seq<seq<byte>>): (ps: seq<FilePage>)
    ensures |ps| == |bodies| && forall i :: 0 <= i < |bodies| ==> ps[i] == IndexPage(bodies[i])
  {
    seq(|bodies|, i requires 0 <= i < |bodies| => IndexPage(bodies[i]))
  }

  /** The pages in place, the next counter to draw, and the extents recorded. */
  datatype Progress = Progress(pages: seq<FilePage>, counter: nat, extents: seq<Extent>) {
    /** Counters drawn by appends whose write then failed. */
    function Lost(): int { counter - |pages| }
  }

  /** What every append keeps. */
  ghost predicate Sane(p: Progress, pageSize: nat)
  {
    && LegalPageSize(pageSize)
    && 1 <= |p.pages| <= p.counter <= COUNTER_MAX + 1
    && Span(|p.pages|, pageSize) <= U64_LIMIT
    && OrderedExtents(p.extents, |p.pages|)
  }

  function Start(identity: Identity): Progress
  {
    Progress([HeaderPage(identity)], 1, [])
  }

  /** Why the next page write does not land, if it does not. */
  function WriteError(p: Progress, fault: Fault, pageSize: nat): Option<SegmentError>
  {
    if p.counter > COUNTER_MAX then Some(NonceCounterExhausted)
    else if Span(|p.pages|, pageSize) >= U64_LIMIT then Some(OffsetOverflow)
    else if fault.Fails? then Some(WriteFailed)
    else None
  }

  /** A payload over the page's capacity is refused before anything else. */
  function PageError(p: Progress, payload: seq<byte>, fault: Fault, pageSize: nat): Option<SegmentError>
    requires LegalPageSize(pageSize)
  {
    if |payload| > BodyCapacity(pageSize) then Some(PayloadTooLarge) else WriteError(p, fault, pageSize)
  }

  /** These errors come after the counter was drawn. */
  predicate CostsCounter(error: SegmentError)
  {
    error in {OffsetOverflow, WriteFailed}
  }

  /** A write that landed, one that failed after drawing its counter, or a refusal that cost nothing. */
  function AfterWrite(p: Progress, error: Option<SegmentError>, page: FilePage): Progress
  {
    if error.None? then p.(pages := p.pages + [page], counter := p.counter + 1)
    else if CostsCounter(error.value) then p.(counter := p.counter + 1)
    else p
  }

  lemma WriteIsSane(p: Progress, fault: Fault, page: FilePage, pageSize: nat)
    requires Sane(p, pageSize)
    ensures Sane(AfterWrite(p, WriteError(p, fault, pageSize), page), pageSize)
  {
    SpanNext(|p.pages|, pageSize);
    if Span(|p.pages|, pageSize) < U64_LIMIT { SpanAligned(|p.pages|, pageSize); }
  }

  function AfterPage(p: Progress, kind: PageKind, payload: seq<byte>, fault: Fault, pageSize: nat): (q: Progress)
    requires Sane(p, pageSize)
    ensures Sane(q, pageSize) && p.pages <= q.pages && q.extents == p.extents
  {
    if |payload| > BodyCapacity(pageSize) then p
    else
      var page := PageOf(kind, payload, BodyCapacity(pageSize));
      WriteIsSane(p, fault, page, pageSize);
      AfterWrite(p, WriteError(p, fault, pageSize), page)
  }

  datatype Appended = Appended(progress: Progress, error: Option<SegmentError>)

  /** The pages of an extent from `i` on, up to the first that does not land. */
  function AppendFrom(p: Progress, pages: seq<seq<byte>>, faults: nat -> Fault, i: nat, pageSize: nat): (a: Appended)
    requires Sane(p, pageSize) && i <= |pages|
    ensures Sane(a.progress, pageSize) && p.pages <= a.progress.pages && a.progress.extents == p.extents
    ensures a.error.None? ==> |a.progress.pages| == |p.pages| + |pages| - i
    decreases |pages| - i
  {
    if i == |pages| then Appended(p, None)
    else
      var error := PageError(p, pages[i], faults(i), pageSize);
      var next := AfterPage(p, DataKind, pages[i], faults(i), pageSize);
      if error.Some? then Appended(next, error) else AppendFrom(next, pages, faults, i + 1, pageSize)
  }

  /** An extent is recorded once all of its pages are in place. */
  function AfterExtent(p: Progress, pages: seq<seq<byte>>, faults: nat -> Fault, pageSize: nat): (a: Appended)
    requires Sane(p, pageSize)
    ensures Sane(a.progress, pageSize) && p.pages <= a.progress.pages
  {
    SpanAtLeast(|p.pages|, pageSize);
    if pages == [] then Appended(p, Some(EmptyExtent))
    else
      var a := AppendFrom(p, pages, faults, 0, pageSize);
      if a.error.Some? then a
      else if |pages| >= U32_LIMIT then a.(error := Some(PayloadTooLarge))
      else
        var e := ExtentAt(p, pages, pageSize);
        RecordExtent(p.extents, e, |p.pages|);
        a.(progress := a.progress.(extents := p.extents + [e]))
  }

  function ExtentAt(p: Progress, pages: seq<seq<byte>>, pageSize: nat): Extent
    requires Sane(p, pageSize) && |pages| < U32_LIMIT
  {
    PagesFit(|p.pages|, pageSize);
    Extent(|p.pages|, |pages|, LogicalBytes(pages))
  }

  lemma PagesFit(n: nat, pageSize: nat)
    requires LegalPageSize(pageSize) && Span(n, pageSize) <= U64_LIMIT
    ensures n < U64_LIMIT
  {
    hide Span;
    SpanIsProduct(n, pageSize);
  }

  /** A new extent starts where all recorded ones have ended. */
  lemma RecordExtent(es: seq<Extent>, e: Extent, start: nat)
    requires OrderedExtents(es, start) && e.start == start >= 1 && e.count >= 1
    ensures OrderedExtents(es + [e], e.End())
  {
  }

  // ---------------------------------------------------------------------
  // When appends land
  // ---------------------------------------------------------------------

  /** `n` writes in a row land: no fault, no counter past the last, no offset past 64 bits. */
  ghost predicate WritesLand(p: Progress, faults: nat -> Fault, n: nat, pageSize: nat)
  {
    && (forall i: nat :: i < n ==> faults(i).Clean?)
    && (n > 0 ==> p.counter + n - 1 <= COUNTER_MAX && Span(|p.pages| + n - 1, pageSize) < U64_LIMIT)
  }

  ghost predicate AllFit(pages: seq<seq<byte>>, n: nat, cap: nat)
    requires n <= |pages|
  {
    forall i :: 0 <= i < n ==> |pages[i]| <= cap
  }

  ghost predicate ExtentLands(p: Progress, pages: seq<seq<byte>>, faults: nat -> Fault, pageSize: nat)
    requires LegalPageSize(pageSize)
  {
    0 < |pages| < U32_LIMIT && AllFit(pages, |pages|, BodyCapacity(pageSize)) && WritesLand(p, faults, |pages|, pageSize)
  }

  lemma OneMoreLands(p: Progress, now: Progress, faults: nat -> Fault, n: nat, pageSize: nat)
    requires WritesLand(p, faults, n, pageSize) && now.counter == p.counter + n && |now.pages| == |p.pages| + n
    ensures WritesLand(p, faults, n + 1, pageSize) <==> WriteError(now, faults(n), pageSize).None?
  {
    hide Span;
  }

  lemma FewerLand(p: Progress, faults: nat -> Fault, m: nat, n: nat, pageSize: nat)
    requires m <= n && WritesLand(p, faults, n, pageSize)
    ensures WritesLand(p, faults, m, pageSize)
  {
    if 0 < m { SpanGrows(|p.pages| + m - 1, |p.pages| + n - 1, pageSize); }
  }

  /** The progress after the first `i` pages of an extent have landed. */
  ghost predicate Landed(p: Progress, now: Progress, pages: seq<seq<byte>>, faults: nat -> Fault, i: nat, pageSize: nat)
    requires LegalPageSize(pageSize) && i <= |pages|
  {
    && WritesLand(p, faults, i, pageSize) && AllFit(pages, i, BodyCapacity(pageSize))
    && now == Progress(p.pages + DataPages(pages[..i]), p.counter + i, p.extents)
  }

  lemma PageLands(p: Progress, now: Progress, pages: seq<seq<byte>>, faults: nat -> Fault, i: nat, pageSize: nat)
    requires Sane(now, pageSize) && i < |pages| && Landed(p, now, pages, faults, i, pageSize)
    ensures var error := PageError(now, pages[i], faults(i), pageSize);
            && (error.None? <==> WritesLand(p, faults, i + 1, pageSize) && AllFit(pages, i + 1, BodyCapacity(pageSize)))
            && (error.None? ==>
                  Landed(p, AfterPage(now, DataKind, pages[i], faults(i), pageSize), pages, faults, i + 1, pageSize))
  {
    hide Span, WritesLand, WriteError, OrderedExtents;
    OneMoreLands(p, now, faults, i, pageSize);
    assert (p.pages + DataPages(pages[..i])) + [DataPage(pages[i])] == p.pages + DataPages(pages[..i + 1]);
  }

  lemma {:induction false} AppendFromLands(p: Progress, now: Progress, pages: seq<seq<byte>>, faults: nat -> Fault,
                                           i: nat, pageSize: nat)
    requires Sane(now, pageSize) && i <= |pages| && Landed(p, now, pages, faults, i, pageSize)
    ensures var a := AppendFrom(now, pages, faults, i, pageSize);
            && (a.error.None? <==> WritesLand(p, faults, |pages|, pageSize)
                                   && AllFit(pages, |pages|, BodyCapacity(pageSize)))
            && (a.error.None? ==> Landed(p, a.progress, pages, faults, |pages|, pageSize))
    decreases |pages| - i
  {
    hide Span, WritesLand, WriteError, OrderedExtents, PageError, AfterPage, DataPages;
    if i < |pages| {
      PageLands(p, now, pages, faults, i, pageSize);
      if WritesLand(p, faults, |pages|, pageSize) { FewerLand(p, faults, i + 1, |pages|, pageSize); }
      if PageError(now, pages[i], faults(i), pageSize).None? {
        AppendFromLands(p, AfterPage(now, DataKind, pages[i], faults(i), pageSize), pages, faults, i + 1, pageSize);
      }
    }
  }

  /** An extent is recorded exactly when all of its pages fit and land, as exactly the pages it added. */
  lemma ExtentRecordedIff(p: Progress, pages: seq<seq<byte>>, faults: nat -> Fault, pageSize: nat)
    requires Sane(p, pageSize)
    ensures var a := AfterExtent(p, pages, faults, pageSize);
            && (a.error.None? <==> ExtentLands(p, pages, faults, pageSize))
            && (a.error.None? ==>
                  a.progress == Progress(p.pages + DataPages(pages), p.counter + |pages|,
                                         p.extents + [ExtentAt(p, pages, pageSize)]))
  {
    hide Span, AppendFrom, Sane;
    assert p.pages + DataPages(pages[..0]) == p.pages;
    AppendFromLands(p, p, pages, faults, 0, pageSize);
    assert pages[..|pages|] == pages;
  }

  // ---------------------------------------------------------------------
  // Sealing as a value
  // ---------------------------------------------------------------------

  /** The index position a rekey copies from its source segment. */
  type Layout = Option<(u64, u32)>

  /** The index pages a seal adds; a copied layout has brought its own. */
  function SealBodies(p: Progress, layout: Layout, pageSize: nat): seq<seq<byte>>
    requires LegalPageSize(pageSize)
  {
    if layout.Some? || p.extents == [] then []
    else IndexBodies(p.extents, EntriesPerPage(pageSize), BodyCapacity(pageSize))
  }

  /** A copied index must end where the footer goes, and an absent one start at zero. */
  predicate LayoutFits(layout: Layout, footerPage: nat)
  {
    match layout
    case None => true
    case Some((start, count)) => if count == 0 then start == 0 else start > 0 && start + count == footerPage
  }

  /** Room for the index pages, their counters and the footer. */
  predicate Sealable(p: Progress, layout: Layout, pageSize: nat)
    requires LegalPageSize(pageSize)
  {
    var n := |SealBodies(p, layout, pageSize)|;
    && LayoutFits(layout, |p.pages|)
    && n < U32_LIMIT && p.counter + n <= COUNTER_MAX + 1
    && Span(|p.pages| + n + 1, pageSize) < U64_LIMIT
  }

  /** Exactly when a seal returns a segment. */
  ghost predicate SealLands(p: Progress, layout: Layout, faults: nat -> Fault, footerFault: Fault, pageSize: nat)
    requires LegalPageSize(pageSize)
  {
    && Sealable(p, layout, pageSize)
    && (forall i: nat :: i < |SealBodies(p, layout, pageSize)| ==> faults(i).Clean?)
    && footerFault.Clean?
  }

  function SealFooter(p: Progress, layout: Layout, identity: Identity, pageSize: nat): Footer
    requires Sane(p, pageSize) && Sealable(p, layout, pageSize)
  {
    var n := |SealBodies(p, layout, pageSize)|;
    SpanAtLeast(|p.pages| + n + 1, pageSize);
    var (start, count) := if layout.Some? then layout.value else if n == 0 then (0, 0) else (|p.pages|, n);
    Footer(identity, |p.pages| + n + 1, Span(|p.pages| + n + 1, pageSize), p.counter + n - 1, start, count)
  }

  function MetaOf(footer: Footer): Meta
  {
    Meta(footer.identity, footer.pageCount, footer.totalBytes, footer.finalCounter)
  }

  /** The file a seal leaves: the pages in place, their index, the footer. */
  ghost function SealedFile(p: Progress, layout: Layout, identity: Identity, pageSize: nat): seq<FilePage>
    requires Sane(p, pageSize) && Sealable(p, layout, pageSize)
  {
    p.pages + IndexPages(SealBodies(p, layout, pageSize)) + [FooterPage(SealFooter(p, layout, identity, pageSize))]
  }

  /** The extents to be found in it. */
  function ExpectedIndex(p: Progress, layout: Layout): Result<seq<Extent>, SegmentError>
  {
    match layout
    case None => Ok(p.extents)
    case Some((start, count)) => ExtentIndexAt(p.pages, start, count)
  }

  lemma {:induction false} IndexFrame(a: seq<FilePage>, b: seq<FilePage>, page: nat, n: nat, indexStart: u64,
                                      st: IndexState)
    requires page + n <= |a| && a <= b
    ensures CheckIndexPages(b, page, n, indexStart, st) == CheckIndexPages(a, page, n, indexStart, st)
    decreases n
  {
    hide CheckPage;
    if n > 0 && a[page].IndexPage? {
      var next := CheckPage(a[page].body, indexStart, st);
      if next.Ok? { IndexFrame(a, b, page + 1, n - 1, indexStart, next.value); }
    }
  }

  lemma SameIndex(a: seq<FilePage>, b: seq<FilePage>, start: u64, count: u32)
    requires a <= b && (count > 0 ==> start + count <= |a|)
    ensures ExtentIndexAt(b, start, count) == ExtentIndexAt(a, start, count)
  {
    hide CheckIndexPages;
    if count > 0 { IndexFrame(a, b, start, count, start, EMPTY_INDEX); }
  }

  lemma WrittenIndex(before: seq<FilePage>, es: seq<Extent>, pageSize: nat)
    requires LegalPageSize(pageSize) && es != [] && OrderedExtents(es, |before|) && |before| < U64_LIMIT
    requires |IndexBodies(es, EntriesPerPage(pageSize), BodyCapacity(pageSize))| < U32_LIMIT
    ensures var bodies := IndexBodies(es, EntriesPerPage(pageSize), BodyCapacity(pageSize));
            ExtentIndexAt(before + IndexPages(bodies), |before|, |bodies|) == Ok(es)
  {
    hide IndexBodies, CheckIndexPages, OrderedExtents;
    var perPage, cap := EntriesPerPage(pageSize), BodyCapacity(pageSize);
    var bodies := IndexBodies(es, perPage, cap);
    var file := before + IndexPages(bodies);
    assert [] + es == es;
    forall i | 0 <= i < |bodies| ensures file[|before| + i] == IndexPage(bodies[i]) {}
    WriterPagesAccepted(file, |before|, [], es, perPage, cap, |before|);
  }

  lemma SealedIndex(p: Progress, layout: Layout, identity: Identity, pageSize: nat)
    requires Sane(p, pageSize) && Sealable(p, layout, pageSize)
    ensures var f := SealFooter(p, layout, identity, pageSize);
            ExtentIndexAt(SealedFile(p, layout, identity, pageSize), f.indexStart, f.indexPages)
            == ExpectedIndex(p, layout)
  {
    hide IndexBodies, CheckIndexPages, OrderedExtents, Span;
    var f, file := SealFooter(p, layout, identity, pageSize), SealedFile(p, layout, identity, pageSize);
    if layout.Some? {
      assert p.pages <= file;
      SameIndex(p.pages, file, f.indexStart, f.indexPages);
    } else if p.extents != [] {
      var written := p.pages + IndexPages(SealBodies(p, layout, pageSize));
      assert written <= file;
      PagesFit(|p.pages|, pageSize);
      WrittenIndex(p.pages, p.extents, pageSize);
      SameIndex(written, file, f.indexStart, f.indexPages);
    }
  }

  /** An open accepts a sealed file if and only if no counter was lost on the way, and then finds its extents. */
  lemma SealedVerdict(p: Progress, layout: Layout, identity: Identity, pageSize: nat)
    requires Sane(p, pageSize) && p.pages[0] == HeaderPage(identity) && Sealable(p, layout, pageSize)
    ensures var meta := MetaOf(SealFooter(p, layout, identity, pageSize));
            Verdict(SealedFile(p, layout, identity, pageSize), meta, identity.parentFileId, pageSize)
            == if p.Lost() == 0 then ExpectedIndex(p, layout) else Err(MetadataMismatch)
  {
    hide IndexBodies, ExtentIndexAt, OrderedExtents, Span, ExpectedIndex;
    SealedIndex(p, layout, identity, pageSize);
    SpanAtLeast(|p.pages| + |SealBodies(p, layout, pageSize)| + 1, pageSize);
  }

  // ---------------------------------------------------------------------
  // The writer
  // ---------------------------------------------------------------------

  /** The running byte total, which saturates. */
  function TotalBytes(n: nat, pageSize: nat): u64
  {
    if Span(n, pageSize) < U64_LIMIT then Span(n, pageSize) else U64_LIMIT - 1
  }

  lemma TotalNext(n: nat, pageSize: nat)
    requires LegalPageSize(pageSize) && Span(n, pageSize) < U64_LIMIT
    ensures n + 1 < U64_LIMIT && TotalBytes(n + 1, pageSize) == SatAdd(TotalBytes(n, pageSize), pageSize)
  {
    SpanNext(n, pageSize);
    SpanAligned(n, pageSize);
    PagesFit(n + 1, pageSize);
  }

  function Answer<T>(error: Option<SegmentError>, value: T): Result<T, SegmentError>
  {
    if error.None? then Ok(value) else Err(error.value)
  }

  class SegmentWriter {
    const pageSize: nat
    const identity: Identity
    const rekeyLayout: Layout
    var file: seq<FilePage>
    var nextCounter: u64
    var nextPageId: u64
    var totalBytes: u64
    var extents: seq<Extent>

    /** A torn write may leave bytes past the pages in place. */
    ghost function State(): Progress
      requires nextPageId <= |file|
      reads this
    {
      Progress(file[..nextPageId], nextCounter, extents)
    }

    ghost predicate Valid()
      reads this
    {
      && nextPageId <= |file|
      && Sane(State(), pageSize) && file[0] == HeaderPage(identity)
      && totalBytes == TotalBytes(nextPageId, pageSize)
    }

    constructor (pageSize: nat, identity: Identity, rekeyLayout: Layout)
      requires LegalPageSize(pageSize)
      ensures Valid() && State() == Start(identity)
      ensures this.pageSize == pageSize && this.identity == identity && this.rekeyLayout == rekeyLayout
    {
      this.pageSize := pageSize;
      this.identity := identity;
      this.rekeyLayout := rekeyLayout;
      file := [HeaderPage(identity)];
      nextCounter := 1;
      nextPageId := 1;
      totalBytes := pageSize;
      extents := [];
    }

    /** Draws a counter, seals and writes one page at the next position. */
    method WriteNext(page: FilePage, fault: Fault) returns (r: Result<u64, SegmentError>)
      requires Valid()
      modifies this
      ensures Valid()
      ensures var error := WriteError(old(State()), fault, pageSize);
              State() == AfterWrite(old(State()), error, page) && r == Answer(error, old(nextPageId))
      ensures r == Err(NonceCounterExhausted) <==> old(nextCounter) > COUNTER_MAX
      ensures nextCounter == old(nextCounter) + if r == Err(NonceCounterExhausted) then 0 else 1
      ensures r.Ok? ==> nextPageId == old(nextPageId) + 1 && file[..nextPageId] == old(file[..nextPageId]) + [page]
      ensures r.Err? ==> nextPageId == old(nextPageId) && file[..nextPageId] == old(file[..nextPageId])
      ensures r.Err? && fault.Clean? && old(nextCounter) <= COUNTER_MAX ==> r.error == OffsetOverflow
      ensures extents == old(extents)
    {
      hide OrderedExtents, Span, TotalBytes, SatAdd;
      WriteIsSane(State(), fault, page, pageSize);
      var pageId := nextPageId;
      if nextCounter > COUNTER_MAX { return Err(NonceCounterExhausted); }
      nextCounter := nextCounter + 1;
      if Span(pageId, pageSize) >= U64_LIMIT { return Err(OffsetOverflow); }
      TotalNext(pageId, pageSize);
      if fault.Fails? {
        if fault.torn { file := file[..pageId] + [TornPage]; }
        return Err(WriteFailed);
      }
      file := file[..pageId] + [page];
      nextPageId := pageId + 1;
      totalBytes := SatAdd(totalBytes, pageSize);
      return Ok(pageId);
    }

    /** A payload over the page's capacity is refused before a counter is drawn. */
    method AppendPage(kind: PageKind, payload: seq<byte>, fault: Fault) returns (r: Result<u64, SegmentError>)
      requires Valid()
      modifies this
      ensures Valid() && State() == AfterPage(old(State()), kind, payload, fault, pageSize)
      ensures r == Answer(PageError(old(State()), payload, fault, pageSize), old(nextPageId))
      ensures r.Ok? <==> fault.Clean? && |payload| <= BodyCapacity(pageSize) && old(nextCounter) <= COUNTER_MAX
                         && Span(old(nextPageId), pageSize) < U64_LIMIT
      ensures r == Err(PayloadTooLarge) <==> |payload| > BodyCapacity(pageSize)
      ensures nextCounter == old(nextCounter) + if r in {Err(PayloadTooLarge), Err(NonceCounterExhausted)} then 0 else 1
      ensures r.Err? ==> nextPageId == old(nextPageId) && file[..nextPageId] == old(file[..nextPageId])
      ensures r.Ok? ==>
                && nextPageId == old(nextPageId) + 1
                && Holds(file[old(nextPageId)], kind, payload, BodyCapacity(pageSize))
    {
      hide OrderedExtents, Span;
      if |payload| > BodyCapacity(pageSize) { return Err(PayloadTooLarge); }
      r := WriteNext(PageOf(kind, payload, BodyCapacity(pageSize)), fault);
    }

    /** Appends the pages of one extent and records it; a failure part-way leaves it unrecorded. */
    method AppendExtent(pages: seq<seq<byte>>, faults: nat -> Fault) returns (r: Result<Extent, SegmentError>)
      requires Valid()
      modifies this
      ensures Valid() && State() == AfterExtent(old(State()), pages, faults, pageSize).progress
      ensures r.Err? ==> AfterExtent(old(State()), pages, faults, pageSize).error == Some(r.error)
      ensures r.Ok? <==> ExtentLands(old(State()), pages, faults, pageSize)
      ensures r.Ok? ==>
                && extents == old(extents) + [r.value]
                && file[..nextPageId] == old(file[..nextPageId]) + DataPages(pages)
    {
      hide OrderedExtents, Span, AppendFrom, PageError, AfterPage, ExtentLands;
      ExtentRecordedIff(State(), pages, faults, pageSize);
      if pages == [] { return Err(EmptyExtent); }
      var start, logical: u64 := nextPageId, 0;
      var i := 0;
      while i < |pages|
        invariant 0 <= i <= |pages| && Valid() && logical == LogicalBytes(pages[..i])
        invariant AppendFrom(old(State()), pages, faults, 0, pageSize) == AppendFrom(State(), pages, faults, i, pageSize)
      {
        AppendOne(State(), pages, faults, i, pageSize);
        var id := AppendPage(DataKind, pages[i], faults(i));
        if id.Err? { return Err(id.error); }
        logical := SatAdd(logical, |pages[i]|);
        i := i + 1;
      }
      AppendNone(State(), pages, faults, pageSize);
      if |pages| >= U32_LIMIT { return Err(PayloadTooLarge); }
      var e := Extent(start, |pages|, logical);
      extents := extents + [e];
      return Ok(e);
    }

    /** Writes the index pages of a non-empty extent list. */
    method WriteIndex(faults: nat -> Fault) returns (r: Result<(u64, u32), SegmentError>)
      requires Valid() && extents != [] && rekeyLayout.None?
      modifies this
      ensures Valid()
      ensures var p, bodies := old(State()), SealBodies(old(State()), None, pageSize);
              && (r.Ok? <==> |bodies| < U32_LIMIT && WritesLand(p, faults, |bodies|, pageSize))
              && (r.Ok? ==> r.value == (|p.pages|, |bodies|)
                            && State() == Progress(p.pages + IndexPages(bodies), p.counter + |bodies|, p.extents))
    {
      hide OrderedExtents, IndexBody, IndexBodies, Span, DivCeil, IndexPages, Slots, WritesLand, WriteError;
      var indexStart, perPage, cap := nextPageId, EntriesPerPage(pageSize), BodyCapacity(pageSize);
      ghost var p, bodies := State(), IndexBodies(extents, perPage, cap);
      var pagesNeeded := DivCeil(|extents|, perPage);
      IndexPageCount(extents, perPage, cap);
      if pagesNeeded >= U32_LIMIT { return Err(PayloadTooLarge); }
      var startEntry, i := 0, 0;
      FirstSlots(p, extents, perPage, cap, faults, pageSize);
      while i < pagesNeeded
        invariant 0 <= i <= pagesNeeded == |bodies| && Valid() && extents == old(extents)
        invariant 0 <= startEntry <= |extents| && Slots(extents, startEntry, perPage, cap, bodies, i)
        invariant WritesLand(p, faults, i, pageSize)
        invariant State() == Progress(p.pages + IndexPages(bodies[..i]), p.counter + i, p.extents)
      {
        NextSlots(extents, startEntry, perPage, cap, bodies, i);
        NextIndexPage(p.pages, bodies, i);
        OneMoreLands(p, State(), faults, i, pageSize);
        if WritesLand(p, faults, |bodies|, pageSize) { FewerLand(p, faults, i + 1, |bodies|, pageSize); }
        var endEntry := if startEntry + perPage < |extents| then startEntry + perPage else |extents|;
        var written := WriteNext(IndexPage(IndexBody(extents[startEntry..endEntry], cap)), faults(i));
        if written.Err? { return Err(written.error); }
        startEntry, i := endEntry, i + 1;
      }
      assert bodies[..|bodies|] == bodies;
      return Ok((indexStart, pagesNeeded));
    }

    /** Where the footer will say the index is, writing it first if this writer made one. */
    method PlaceIndex(faults: nat -> Fault) returns (r: Result<(u64, u32), SegmentError>)
      requires Valid()
      modifies this
      ensures Valid()
      ensures var p, bodies := old(State()), SealBodies(old(State()), rekeyLayout, pageSize);
              && (r.Ok? <==> LayoutFits(rekeyLayout, |p.pages|) && |bodies| < U32_LIMIT
                             && WritesLand(p, faults, |bodies|, pageSize))
              && (r.Ok? ==> State() == Progress(p.pages + IndexPages(bodies), p.counter + |bodies|, p.extents))
              && (r.Ok? ==> r.value == if rekeyLayout.Some? then rekeyLayout.value
                                       else if bodies == [] then (0, 0) else (|p.pages|, |bodies|))
    {
      hide Sane, Span, IndexBodies;
      match rekeyLayout
      case Some((start, count)) =>
        if if count == 0 then start != 0 else start == 0 || start + count != nextPageId {
          return Err(GeometryInvalid);
        }
        return Ok((start, count));
      case None =>
        if extents == [] { return Ok((0, 0)); }
        r := WriteIndex(faults);
    }

    /** Closes the segment. */
    method Seal(faults: nat -> Fault, footerFault: Fault) returns (r: Result<Meta, SegmentError>)
      requires Valid()
      modifies this
      ensures r.Ok? <==> SealLands(old(State()), rekeyLayout, faults, footerFault, pageSize)
      ensures r.Ok? ==> file == SealedFile(old(State()), rekeyLayout, identity, pageSize)
                        && r.value == MetaOf(SealFooter(old(State()), rekeyLayout, identity, pageSize))
    {
      hide Span, SealBodies, LayoutFits, OrderedExtents;
      ghost var p := State();
      SealLandsIff(p, rekeyLayout, faults, footerFault, pageSize);
      var index := PlaceIndex(faults);
      if index.Err? { return Err(index.error); }
      var footerPage := nextPageId;
      SpanNext(footerPage, pageSize);
      if totalBytes + pageSize >= U64_LIMIT { return Err(OffsetOverflow); }
      var footer := Footer(identity, footerPage + 1, totalBytes + pageSize, nextCounter - 1,
                           index.value.0, index.value.1);
      if footerFault.Fails? { return Err(WriteFailed); }
      file := file[..footerPage] + [FooterPage(footer)];
      return Ok(Meta(identity, footer.pageCount, footer.totalBytes, footer.finalCounter));
    }
  }

  /** One turn of the append loop. */
  lemma AppendOne(p: Progress, pages: seq<seq<byte>>, faults: nat -> Fault, i: nat, pageSize: nat)
    requires Sane(p, pageSize) && i < |pages|
    ensures var error := PageError(p, pages[i], faults(i), pageSize);
            var next := AfterPage(p, DataKind, pages[i], faults(i), pageSize);
            AppendFrom(p, pages, faults, i, pageSize) ==
            if error.Some? then Appended(next, error) else AppendFrom(next, pages, faults, i + 1, pageSize)
    ensures LogicalBytes(pages[..i + 1]) == SatAdd(LogicalBytes(pages[..i]), |pages[i]|)
  {
    assert pages[..i + 1][..i] == pages[..i];
  }

  lemma AppendNone(p: Progress, pages: seq<seq<byte>>, faults: nat -> Fault, pageSize: nat)
    requires Sane(p, pageSize)
    ensures AppendFrom(p, pages, faults, |pages|, pageSize) == Appended(p, None)
    ensures pages[..|pages|] == pages
  {
  }

  /** The bodies from `i` on hold the entries from `startEntry` on. */
  ghost predicate Slots(es: seq<Extent>, startEntry: nat, perPage: nat, cap: nat, bodies: seq<seq<byte>>, i: nat)
    requires startEntry <= |es| && perPage >= 1 && perPage * ENTRY_LEN <= cap
  {
    i <= |bodies| && (i < |bodies| ==> bodies[i..] == IndexBodies(es[startEntry..], perPage, cap))
  }

  lemma FirstSlots(p: Progress, es: seq<Extent>, perPage: nat, cap: nat, faults: nat -> Fault, pageSize: nat)
    requires perPage >= 1 && perPage * ENTRY_LEN <= cap
    ensures Slots(es, 0, perPage, cap, IndexBodies(es, perPage, cap), 0) && WritesLand(p, faults, 0, pageSize)
    ensures p.pages + IndexPages(IndexBodies(es, perPage, cap)[..0]) == p.pages
  {
    hide IndexBodies;
    var bodies := IndexBodies(es, perPage, cap);
    assert es[0..] == es && bodies[0..] == bodies;
  }

  lemma NextIndexPage(before: seq<FilePage>, bodies: seq<seq<byte>>, i: nat)
    requires i < |bodies|
    ensures (before + IndexPages(bodies[..i])) + [IndexPage(bodies[i])] == before + IndexPages(bodies[..i + 1])
  {
  }

  lemma NextSlots(es: seq<Extent>, startEntry: nat, perPage: nat, cap: nat, bodies: seq<seq<byte>>, i: nat)
    requires startEntry <= |es| && perPage >= 1 && perPage * ENTRY_LEN <= cap && i < |bodies|
    requires Slots(es, startEntry, perPage, cap, bodies, i)
    ensures var endEntry := if startEntry + perPage < |es| then startEntry + perPage else |es|;
            && (endEntry - startEntry) * ENTRY_LEN <= cap
            && bodies[i] == IndexBody(es[startEntry..endEntry], cap)
            && Slots(es, endEntry, perPage, cap, bodies, i + 1)
  {
    hide IndexBody;
    var left, rest := es[startEntry..], bodies[i..];
    var endEntry := if startEntry + perPage < |es| then startEntry + perPage else |es|;
    assert es[startEntry..endEntry] == if |left| <= perPage then left else left[..perPage];
    assert rest[0] == bodies[i] && rest[1..] == bodies[i + 1..];
    assert |left| > perPage ==> left[perPage..] == es[endEntry..];
  }

  /** The footer's bound implies the bounds of the index pages before it. */
  lemma SealLandsIff(p: Progress, layout: Layout, faults: nat -> Fault, footerFault: Fault, pageSize: nat)
    requires Sane(p, pageSize)
    ensures var n := |SealBodies(p, layout, pageSize)|;
            SealLands(p, layout, faults, footerFault, pageSize) <==>
            && LayoutFits(layout, |p.pages|) && n < U32_LIMIT && WritesLand(p, faults, n, pageSize)
            && Span(|p.pages| + n + 1, pageSize) < U64_LIMIT && footerFault.Clean?
  {
    hide Span, SealBodies, LayoutFits, OrderedExtents;
    var n := |SealBodies(p, layout, pageSize)|;
    if n > 0 { SpanGrows(|p.pages| + n - 1, |p.pages| + n + 1, pageSize); }
  }
}
