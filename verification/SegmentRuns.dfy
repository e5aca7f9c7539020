/** Whole lives of a segment writer: any append calls under any faults, then a seal. */
module SegmentRuns {
  import opened Arithmetic
  import opened Bytes
  import opened NodeLayout
  import opened Nonces
  import opened SegmentIndex
  import opened Segments

  datatype AppendCall = OnePage(kind: PageKind, payload: seq<byte>) | WholeExtent(pages: seq<seq<byte>>)

  function AfterCall(p: Progress, call: AppendCall, faults: nat -> Fault, pageSize: nat): (q: Progress)
    requires Sane(p, pageSize)
    ensures Sane(q, pageSize) && p.pages <= q.pages
  {
    match call
    case OnePage(kind, payload) => AfterPage(p, kind, payload, faults(0), pageSize)
    case WholeExtent(pages) => AfterExtent(p, pages, faults, pageSize).progress
  }

  /** Where the first `n` calls leave a new writer. */
  function AfterCalls(identity: Identity, calls: seq<AppendCall>, faults: nat -> nat -> Fault, n: nat, pageSize: nat)
    : (p: Progress)
    requires LegalPageSize(pageSize) && n <= |calls|
    ensures Sane(p, pageSize) && p.pages[0] == HeaderPage(identity)
  {
    if n == 0 then StartIsSane(identity, pageSize); Start(identity)
    else AfterCall(AfterCalls(identity, calls, faults, n - 1, pageSize), calls[n - 1], faults(n - 1), pageSize)
  }

  lemma StartIsSane(identity: Identity, pageSize: nat)
    requires LegalPageSize(pageSize)
    ensures Sane(Start(identity), pageSize)
  {
  }

  // ---------------------------------------------------------------------
  // Lost counters
  // ---------------------------------------------------------------------

  function CallError(p: Progress, call: AppendCall, faults: nat -> Fault, pageSize: nat): Option<SegmentError>
    requires Sane(p, pageSize)
  {
    match call
    case OnePage(_, payload) => PageError(p, payload, faults(0), pageSize)
    case WholeExtent(pages) => AfterExtent(p, pages, faults, pageSize).error
  }

  /** Call `i` failed after it had drawn a counter. */
  predicate FailedLate(identity: Identity, calls: seq<AppendCall>, faults: nat -> nat -> Fault, i: nat, pageSize: nat)
    requires LegalPageSize(pageSize) && i < |calls|
  {
    var error := CallError(AfterCalls(identity, calls, faults, i, pageSize), calls[i], faults(i), pageSize);
    error.Some? && CostsCounter(error.value)
  }

  function Cost(error: Option<SegmentError>): nat
  {
    if error.Some? && CostsCounter(error.value) then 1 else 0
  }

  lemma {:induction false} AppendFromCost(p: Progress, pages: seq<seq<byte>>, faults: nat -> Fault, i: nat, pageSize: nat)
    requires Sane(p, pageSize) && i <= |pages|
    ensures var a := AppendFrom(p, pages, faults, i, pageSize);
            a.progress.Lost() == p.Lost() + Cost(a.error) && a.error != Some(EmptyExtent)
    decreases |pages| - i
  {
    hide Span, OrderedExtents;
    if i < |pages| && PageError(p, pages[i], faults(i), pageSize).None? {
      AppendFromCost(AfterPage(p, DataKind, pages[i], faults(i), pageSize), pages, faults, i + 1, pageSize);
    }
  }

  lemma CallCost(p: Progress, call: AppendCall, faults: nat -> Fault, pageSize: nat)
    requires Sane(p, pageSize)
    ensures AfterCall(p, call, faults, pageSize).Lost() == p.Lost() + Cost(CallError(p, call, faults, pageSize))
  {
    hide Span, OrderedExtents, AppendFrom;
    if call.WholeExtent? { AppendFromCost(p, call.pages, faults, 0, pageSize); }
  }

  /** A counter is lost exactly when some call failed after drawing one. */
  lemma {:induction false} LostIff(identity: Identity, calls: seq<AppendCall>, faults: nat -> nat -> Fault, n: nat,
                                   pageSize: nat)
    requires LegalPageSize(pageSize) && n <= |calls|
    ensures AfterCalls(identity, calls, faults, n, pageSize).Lost() == 0 <==>
            forall i :: 0 <= i < n ==> !FailedLate(identity, calls, faults, i, pageSize)
  {
    hide Sane, CallError, AfterCall;
    if n > 0 {
      LostIff(identity, calls, faults, n - 1, pageSize);
      var before := AfterCalls(identity, calls, faults, n - 1, pageSize);
      CallCost(before, calls[n - 1], faults(n - 1), pageSize);
      NeverNegative(before, pageSize);
      var error := CallError(before, calls[n - 1], faults(n - 1), pageSize);
      assert FailedLate(identity, calls, faults, n - 1, pageSize) <==> Cost(error) == 1;
    }
  }

  lemma NeverNegative(p: Progress, pageSize: nat)
    requires Sane(p, pageSize)
    ensures p.Lost() >= 0
  {
  }

  // ---------------------------------------------------------------------
  // Runs without faults
  // ---------------------------------------------------------------------

  /** How many pages from `i` on fit before one does not. */
  function Leading(pages: seq<seq<byte>>, i: nat, cap: nat): (n: nat)
    requires i <= |pages|
    ensures n <= |pages| - i
    decreases |pages| - i
  {
    if i == |pages| || |pages[i]| > cap then 0 else 1 + Leading(pages, i + 1, cap)
  }

  /** Pages a call adds when no write fails. */
  function PagesOf(call: AppendCall, cap: nat): nat
  {
    match call
    case OnePage(_, payload) => if |payload| <= cap then 1 else 0
    case WholeExtent(pages) => Leading(pages, 0, cap)
  }

  function PagesTaken(calls: seq<AppendCall>, n: nat, cap: nat): nat
    requires n <= |calls|
  {
    if n == 0 then 0 else PagesTaken(calls, n - 1, cap) + PagesOf(calls[n - 1], cap)
  }

  /** The extent a call records when no write fails: all of its pages or none. */
  function ExtentOf(call: AppendCall, start: u64, cap: nat): seq<Extent>
  {
    if call.WholeExtent? && 0 < |call.pages| < U32_LIMIT && PagesOf(call, cap) == |call.pages|
    then [Extent(start, |call.pages|, LogicalBytes(call.pages))] else []
  }

  /** The extents of a run of calls, each where the pages before it end. */
  function ExtentsOf(calls: seq<AppendCall>, n: nat, cap: nat): seq<Extent>
    requires n <= |calls| && PagesTaken(calls, n, cap) + 1 < U64_LIMIT
  {
    if n == 0 then []
    else ExtentsOf(calls, n - 1, cap) + ExtentOf(calls[n - 1], PagesTaken(calls, n - 1, cap) + 1, cap)
  }

  ghost predicate AllClean(faults: nat -> Fault)
  {
    forall i: nat :: faults(i).Clean?
  }

  /** `n` more pages have counters and offsets. */
  predicate Room(p: Progress, n: nat, pageSize: nat)
  {
    p.counter + n <= COUNTER_MAX + 1 && Span(|p.pages| + n, pageSize) < U64_LIMIT
  }

  lemma RoomForOne(p: Progress, n: nat, pageSize: nat)
    requires n > 0 && Room(p, n, pageSize)
    ensures p.counter <= COUNTER_MAX && Span(|p.pages|, pageSize) < U64_LIMIT
  {
    SpanGrows(|p.pages|, |p.pages| + n, pageSize);
  }

  lemma {:induction false} AppendFromClean(p: Progress, pages: seq<seq<byte>>, faults: nat -> Fault, i: nat, pageSize: nat)
    requires Sane(p, pageSize) && i <= |pages| && AllClean(faults)
    requires Room(p, Leading(pages, i, BodyCapacity(pageSize)), pageSize)
    ensures var a, n := AppendFrom(p, pages, faults, i, pageSize), Leading(pages, i, BodyCapacity(pageSize));
            && |a.progress.pages| == |p.pages| + n && a.progress.counter == p.counter + n
            && (a.error.None? <==> n == |pages| - i)
    decreases |pages| - i
  {
    hide Span, OrderedExtents;
    var n := Leading(pages, i, BodyCapacity(pageSize));
    if n > 0 {
      RoomForOne(p, n, pageSize);
      AppendFromClean(AfterPage(p, DataKind, pages[i], faults(i), pageSize), pages, faults, i + 1, pageSize);
    }
  }

  lemma CallClean(p: Progress, call: AppendCall, faults: nat -> Fault, pageSize: nat)
    requires Sane(p, pageSize) && AllClean(faults) && |p.pages| < U64_LIMIT
    requires Room(p, PagesOf(call, BodyCapacity(pageSize)), pageSize)
    ensures var q, n := AfterCall(p, call, faults, pageSize), PagesOf(call, BodyCapacity(pageSize));
            && |q.pages| == |p.pages| + n && q.counter == p.counter + n
            && q.extents == p.extents + ExtentOf(call, |p.pages|, BodyCapacity(pageSize))
  {
    hide Span, OrderedExtents, AppendFrom, Leading;
    match call
    case OnePage(kind, payload) =>
      if |payload| <= BodyCapacity(pageSize) { RoomForOne(p, 1, pageSize); }
    case WholeExtent(pages) =>
      AppendFromClean(p, pages, faults, 0, pageSize);
  }

  /** Without faults a run loses nothing and records exactly the extents whose pages all fit. */
  lemma {:induction false} RunClean(identity: Identity, calls: seq<AppendCall>, faults: nat -> nat -> Fault, n: nat,
                                    pageSize: nat)
    requires LegalPageSize(pageSize) && n <= |calls| && forall i: nat :: AllClean(faults(i))
    requires Room(Start(identity), PagesTaken(calls, n, BodyCapacity(pageSize)), pageSize)
    requires PagesTaken(calls, n, BodyCapacity(pageSize)) + 1 < U64_LIMIT
    ensures var p := AfterCalls(identity, calls, faults, n, pageSize);
            && |p.pages| == p.counter == PagesTaken(calls, n, BodyCapacity(pageSize)) + 1
            && p.extents == ExtentsOf(calls, n, BodyCapacity(pageSize))
  {
    hide Span, OrderedExtents, AfterCall, ExtentOf, PagesOf, AllClean;
    if n > 0 {
      var cap := BodyCapacity(pageSize);
      var taken := PagesTaken(calls, n - 1, cap);
      SpanGrows(1 + taken, 1 + PagesTaken(calls, n, cap), pageSize);
      RunClean(identity, calls, faults, n - 1, pageSize);
      CallClean(AfterCalls(identity, calls, faults, n - 1, pageSize), calls[n - 1], faults(n - 1), pageSize);
    }
  }

  function IndexPagesFor(es: seq<Extent>, pageSize: nat): nat
    requires LegalPageSize(pageSize)
  {
    if es == [] then 0 else DivCeil(|es|, EntriesPerPage(pageSize))
  }

  /** The data pages, the index and the footer of a run without faults have counters and offsets. */
  predicate RunFits(calls: seq<AppendCall>, pageSize: nat)
    requires LegalPageSize(pageSize)
  {
    var cap := BodyCapacity(pageSize);
    var taken := PagesTaken(calls, |calls|, cap);
    && taken <= COUNTER_MAX
    && var n := IndexPagesFor(ExtentsOf(calls, |calls|, cap), pageSize);
       n < U32_LIMIT && taken + n <= COUNTER_MAX && Span(taken + n + 2, pageSize) < U64_LIMIT
  }

  /** Every run of fewer than 2^32 calls and pages together fits, whatever the page size. */
  lemma ModestRunsFit(calls: seq<AppendCall>, pageSize: nat)
    requires LegalPageSize(pageSize)
    requires PagesTaken(calls, |calls|, BodyCapacity(pageSize)) + |calls| < 0xFFFF_FFFF
    ensures RunFits(calls, pageSize)
  {
    hide Span, PagesTaken, ExtentsOf, DivCeil;
    var cap := BodyCapacity(pageSize);
    var taken := PagesTaken(calls, |calls|, cap);
    var es := ExtentsOf(calls, |calls|, cap);
    FewExtents(calls, |calls|, cap);
    FewPages(|es|, EntriesPerPage(pageSize));
    var n := IndexPagesFor(es, pageSize);
    SpanIsProduct(taken + n + 2, pageSize);
    MulMonotone(taken + n + 2, 0x2_0000_0000, pageSize);
  }

  lemma {:induction false} FewExtents(calls: seq<AppendCall>, n: nat, cap: nat)
    requires n <= |calls| && PagesTaken(calls, n, cap) + 1 < U64_LIMIT
    ensures |ExtentsOf(calls, n, cap)| <= n
  {
    hide PagesOf;
    if n > 0 { FewExtents(calls, n - 1, cap); }
  }

  lemma FewPages(n: nat, perPage: nat)
    requires perPage > 0
    ensures DivCeil(n, perPage) <= n
  {
    var x := n + perPage - 1;
    var q := x / perPage;
    assert x == q * perPage + x % perPage;
    if q > n {
      MulMonotone(n + 1, q, perPage);
      assert (n + 1) * perPage == n * perPage + perPage;
      AtLeastItself(n, perPage);
    }
  }

  lemma AtLeastItself(n: nat, d: nat)
    requires d > 0
    ensures n * d >= n
  {
    assert n * d == n + n * (d - 1);
  }

  lemma CleanRunSeals(identity: Identity, calls: seq<AppendCall>, faults: nat -> nat -> Fault, pageSize: nat)
    requires LegalPageSize(pageSize) && RunFits(calls, pageSize) && forall i: nat :: AllClean(faults(i))
    ensures var p := AfterCalls(identity, calls, faults, |calls|, pageSize);
            && p.Lost() == 0 && p.extents == ExtentsOf(calls, |calls|, BodyCapacity(pageSize))
            && Sealable(p, None, pageSize)
  {
    hide Span, OrderedExtents, AfterCalls, ExtentsOf, PagesTaken, AllClean, DivCeil, IndexBodies;
    var cap := BodyCapacity(pageSize);
    var taken, es := PagesTaken(calls, |calls|, cap), ExtentsOf(calls, |calls|, cap);
    SpanGrows(1 + taken, taken + IndexPagesFor(es, pageSize) + 2, pageSize);
    RunClean(identity, calls, faults, |calls|, pageSize);
    if es != [] { IndexPageCount(es, EntriesPerPage(pageSize), cap); }
  }

  /** One page whose write fails, then a seal without faults: the seal returns a segment that no open accepts. */
  lemma FailedAppendSpoils(identity: Identity, payload: seq<byte>, faults: nat -> nat -> Fault, pageSize: nat)
    requires LegalPageSize(pageSize) && |payload| <= BodyCapacity(pageSize) && faults(0)(0).Fails?
    ensures var p := AfterCalls(identity, [OnePage(DataKind, payload)], faults, 1, pageSize);
            && Sealable(p, None, pageSize) && p.Lost() == 1
            && Verdict(SealedFile(p, None, identity, pageSize), MetaOf(SealFooter(p, None, identity, pageSize)),
                       identity.parentFileId, pageSize) == Err(MetadataMismatch)
  {
    hide OrderedExtents, Verdict, SealedFile, SealFooter;
    var calls := [OnePage(DataKind, payload)];
    var p := AfterCalls(identity, calls, faults, 1, pageSize);
    assert AfterCalls(identity, calls, faults, 0, pageSize) == Start(identity);
    assert p == Progress([HeaderPage(identity)], 2, []);
    SealedVerdict(p, None, identity, pageSize);
  }

  ghost predicate NoFaults(faults: nat -> nat -> Fault, sealFaults: nat -> Fault, footerFault: Fault)
  {
    (forall i: nat :: AllClean(faults(i))) && AllClean(sealFaults) && footerFault.Clean?
  }

  /** What an open decides about a sealed run, for any faults and for none. */
  lemma RunVerdict(identity: Identity, calls: seq<AppendCall>, faults: nat -> nat -> Fault, sealFaults: nat -> Fault,
                   footerFault: Fault, pageSize: nat)
    requires LegalPageSize(pageSize)
    ensures var p := AfterCalls(identity, calls, faults, |calls|, pageSize);
            && (p.Lost() == 0 <==> forall i :: 0 <= i < |calls| ==> !FailedLate(identity, calls, faults, i, pageSize))
            && (RunFits(calls, pageSize) && NoFaults(faults, sealFaults, footerFault) ==>
                  && SealLands(p, None, sealFaults, footerFault, pageSize) && p.Lost() == 0
                  && p.extents == ExtentsOf(calls, |calls|, BodyCapacity(pageSize)))
            && (Sealable(p, None, pageSize) ==>
                  Verdict(SealedFile(p, None, identity, pageSize), MetaOf(SealFooter(p, None, identity, pageSize)),
                          identity.parentFileId, pageSize)
                  == if p.Lost() == 0 then Ok(p.extents) else Err(MetadataMismatch))
  {
    hide Sane, Verdict, SealFooter, SealedFile, Sealable, FailedLate, ExtentsOf, RunFits, AfterCalls;
    var p := AfterCalls(identity, calls, faults, |calls|, pageSize);
    LostIff(identity, calls, faults, |calls|, pageSize);
    if Sealable(p, None, pageSize) { SealedVerdict(p, None, identity, pageSize); }
    if RunFits(calls, pageSize) && NoFaults(faults, sealFaults, footerFault) {
      CleanRunSeals(identity, calls, faults, pageSize);
    }
  }

  // ---------------------------------------------------------------------
  // The run itself
  // ---------------------------------------------------------------------

  /** Any calls, any faults, then a seal: where each call left the writer, exactly when the seal returns, and what an
      open then decides. */
  method BuildSegment(pageSize: nat, identity: Identity, calls: seq<AppendCall>, faults: nat -> nat -> Fault,
                      sealFaults: nat -> Fault, footerFault: Fault)
    returns (file: seq<FilePage>, recorded: seq<Extent>, failures: int, r: Result<Meta, SegmentError>)
    requires LegalPageSize(pageSize)
    ensures var p := AfterCalls(identity, calls, faults, |calls|, pageSize);
            && recorded == p.extents && failures == p.Lost()
            && (r.Ok? <==> SealLands(p, None, sealFaults, footerFault, pageSize))
            && (r.Ok? ==> file == SealedFile(p, None, identity, pageSize))
    ensures r.Ok? ==>
              Verdict(file, r.value, identity.parentFileId, pageSize) ==
              if failures == 0 then Ok(recorded) else Err(MetadataMismatch)
    ensures failures == 0 <==> forall i :: 0 <= i < |calls| ==> !FailedLate(identity, calls, faults, i, pageSize)
    ensures RunFits(calls, pageSize) && NoFaults(faults, sealFaults, footerFault)
            ==> r.Ok? && failures == 0 && recorded == ExtentsOf(calls, |calls|, BodyCapacity(pageSize))
  {
    hide Sane, Span, Verdict, AfterPage, AfterExtent, SealFooter, SealedFile, Sealable, SealBodies, FailedLate, RunFits,
         NoFaults, ExtentsOf;
    var w := new SegmentWriter(pageSize, identity, None);
    var i := 0;
    while i < |calls|
      invariant 0 <= i <= |calls| && fresh(w) && w.Valid()
      invariant w.State() == AfterCalls(identity, calls, faults, i, pageSize)
    {
      match calls[i] {
        case OnePage(kind, payload) => var _ := w.AppendPage(kind, payload, faults(i)(0));
        case WholeExtent(pages) => var _ := w.AppendExtent(pages, faults(i));
      }
      i := i + 1;
    }
    recorded, failures := w.extents, w.nextCounter - w.nextPageId;
    RunVerdict(identity, calls, faults, sealFaults, footerFault, pageSize);
    r := w.Seal(sealFaults, footerFault);
    file := w.file;
  }
}
