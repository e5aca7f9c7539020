/** Copying a segment page by page under another identity, keeping the index where it was. */
module Rekeys {
  import opened Bytes
  import opened NodeLayout
  import opened Nonces
  import opened SegmentIndex
  import opened Segments

  /** A page that reads back as data or as index. */
  predicate Copyable(page: FilePage, cap: nat)
  {
    match page
    case DataPage(payload) => |payload| <= cap
    case IndexPage(body) => |body| == cap
    case _ => false
  }

  /** Reading a page returns its kind and its whole body. */
  function ReadPage(page: FilePage, cap: nat): Result<(PageKind, seq<byte>), SegmentError>
  {
    if !Copyable(page, cap) then Err(PageUnverifiable)
    else if page.DataPage? then Ok((DataKind, page.payload + Zeros(cap - |page.payload|)))
    else Ok((IndexKind, page.body))
  }

  /** The page a copy writes for it. */
  function CopyOf(page: FilePage, cap: nat): FilePage
  {
    if page.DataPage? && |page.payload| <= cap then DataPage(page.payload + Zeros(cap - |page.payload|)) else page
  }

  /** `to` carries the bytes of `from`: an index page whole, a data page's payload and then zeros to the end of the page. */
  ghost predicate Carries(to: FilePage, from: FilePage, cap: nat)
  {
    match from
    case IndexPage(_) => to == from
    case DataPage(payload) =>
      && to.DataPage? && |to.payload| == cap && payload <= to.payload
      && forall i :: |payload| <= i < cap ==> to.payload[i] == 0
    case _ => false
  }

  /** The first `n` pages of the copy: its own header, then the pages of the source. */
  ghost function Copied(file: seq<FilePage>, n: nat, identity: Identity, cap: nat): (pages: seq<FilePage>)
    requires n <= |file|
    ensures |pages| == n
  {
    seq(n, j requires 0 <= j < n => if j == 0 then HeaderPage(identity) else CopyOf(file[j], cap))
  }

  ghost predicate CopyableUpTo(file: seq<FilePage>, n: nat, cap: nat)
    requires n <= |file|
  {
    forall j :: 1 <= j < n ==> Copyable(file[j], cap)
  }

  /** Whatever an index in the source says, the same index in the copy says. */
  lemma {:induction false} CopiedIndex(file: seq<FilePage>, n: nat, identity: Identity, cap: nat, page: nat, k: nat,
                                       indexStart: u64, st: IndexState)
    requires n <= |file| && 1 <= page && page + k <= n && CopyableUpTo(file, n, cap)
    ensures CheckIndexPages(Copied(file, n, identity, cap), page, k, indexStart, st)
         == CheckIndexPages(file, page, k, indexStart, st)
    decreases k
  {
    hide CheckPage;
    if k > 0 && file[page].IndexPage? {
      var next := CheckPage(file[page].body, indexStart, st);
      if next.Ok? { CopiedIndex(file, n, identity, cap, page + 1, k - 1, indexStart, next.value); }
    }
  }

  /** One more page of the copy. */
  lemma CopyNext(file: seq<FilePage>, n: nat, identity: Identity, cap: nat)
    requires 1 <= n < |file| && Copyable(file[n], cap)
    ensures var read := ReadPage(file[n], cap).value;
            && |read.1| == cap
            && Copied(file, n, identity, cap) + [PageOf(read.0, read.1, cap)] == Copied(file, n + 1, identity, cap)
  {
    var read := ReadPage(file[n], cap).value;
    assert read.1 + Zeros(cap - |read.1|) == read.1;
  }

  /** The writer after `n` pages: header and copies in place, a counter each, nothing recorded. */
  ghost function CopyProgress(file: seq<FilePage>, n: nat, identity: Identity, cap: nat): Progress
    requires 1 <= n <= |file|
  {
    Progress(Copied(file, n, identity, cap), n, [])
  }

  lemma CopyStarts(file: seq<FilePage>, identity: Identity, cap: nat)
    requires |file| >= 1
    ensures Start(identity) == CopyProgress(file, 1, identity, cap)
  {
    assert Copied(file, 1, identity, cap) == [HeaderPage(identity)];
  }

  /** What an accepted source promises the copy. */
  lemma AcceptedSource(file: seq<FilePage>, meta: Meta, parentFileId: seq<byte>, pageSize: nat)
    requires Verdict(file, meta, parentFileId, pageSize).Ok?
    ensures |file| == meta.pageCount >= 2 && LegalPageSize(pageSize) && Span(|file|, pageSize) < U64_LIMIT
    ensures file[|file| - 1].FooterPage?
    ensures var f := file[|file| - 1].footer;
            && LayoutFits(Some((f.indexStart, f.indexPages)), |file| - 1)
            && Verdict(file, meta, parentFileId, pageSize) == ExtentIndexAt(file, f.indexStart, f.indexPages)
  {
    hide ExtentIndexAt, OrderedExtents, Span;
    AcceptedExtents(file, meta, parentFileId, pageSize);
  }

  lemma CopyCarries(page: FilePage, cap: nat)
    requires Copyable(page, cap)
    ensures Carries(CopyOf(page, cap), page, cap)
  {
  }

  /** Every page between header and footer of the sealed copy carries its source page. */
  lemma CopyContents(file: seq<FilePage>, identity: Identity, start: u64, count: u32, pageSize: nat)
    requires LegalPageSize(pageSize) && |file| >= 2 && CopyableUpTo(file, |file| - 1, BodyCapacity(pageSize))
    requires var p := CopyProgress(file, |file| - 1, identity, BodyCapacity(pageSize));
             Sane(p, pageSize) && Sealable(p, Some((start, count)), pageSize)
    ensures var p := CopyProgress(file, |file| - 1, identity, BodyCapacity(pageSize));
            var copy := SealedFile(p, Some((start, count)), identity, pageSize);
            && |copy| == |file| && copy[0] == HeaderPage(identity)
            && forall j :: 1 <= j < |file| - 1 ==> Carries(copy[j], file[j], BodyCapacity(pageSize))
  {
    hide Span, SealFooter, OrderedExtents, Carries, Copyable, CopyOf;
    var cap := BodyCapacity(pageSize);
    var p := CopyProgress(file, |file| - 1, identity, cap);
    var copy := SealedFile(p, Some((start, count)), identity, pageSize);
    forall j | 1 <= j < |file| - 1 ensures Carries(copy[j], file[j], cap) {
      assert copy[j] == p.pages[j] == CopyOf(file[j], cap);
      CopyCarries(file[j], cap);
    }
  }

  /** The finished copy, sealed under the source's layout, opens with the source's extents. */
  lemma CopyVerdict(file: seq<FilePage>, identity: Identity, start: u64, count: u32, pageSize: nat)
    requires LegalPageSize(pageSize) && |file| >= 2 && |file| - 2 <= COUNTER_MAX && Span(|file|, pageSize) < U64_LIMIT
    requires LayoutFits(Some((start, count)), |file| - 1) && CopyableUpTo(file, |file| - 1, BodyCapacity(pageSize))
    ensures var p := CopyProgress(file, |file| - 1, identity, BodyCapacity(pageSize));
            && Sane(p, pageSize) && Sealable(p, Some((start, count)), pageSize)
            && var f := SealFooter(p, Some((start, count)), identity, pageSize);
               && f.pageCount == |file| && f.identity == identity
               && |SealedFile(p, Some((start, count)), identity, pageSize)| == |file|
               && Verdict(SealedFile(p, Some((start, count)), identity, pageSize), MetaOf(f), identity.parentFileId, pageSize)
                  == ExtentIndexAt(file, start, count)
  {
    hide Span, CheckIndexPages, Verdict;
    var cap, n := BodyCapacity(pageSize), |file| - 1;
    var p := CopyProgress(file, n, identity, cap);
    SpanGrows(n, |file|, pageSize);
    SealedVerdict(p, Some((start, count)), identity, pageSize);
    if count > 0 { CopiedIndex(file, n, identity, cap, start, count, start, EMPTY_INDEX); }
  }

  /** Opens the source, copies every page between header and footer, and seals under the source's index position. */
  method CopySegment(file: seq<FilePage>, meta: Meta, parentFileId: seq<byte>, identity: Identity, pageSize: nat,
                     faults: nat -> Fault, sealFaults: nat -> Fault, footerFault: Fault)
    returns (copy: seq<FilePage>, r: Result<Meta, SegmentError>)
    ensures r.Ok? <==>
            && Verdict(file, meta, parentFileId, pageSize).Ok?
            && CopyableUpTo(file, |file| - 1, BodyCapacity(pageSize))
            && WritesLand(Start(identity), faults, |file| - 2, pageSize) && footerFault.Clean?
    ensures r.Ok? ==>
              && |copy| == |file| && r.value.pageCount == meta.pageCount && r.value.identity == identity
              && Verdict(copy, r.value, identity.parentFileId, pageSize) == Verdict(file, meta, parentFileId, pageSize)
              && forall j :: 1 <= j < |file| - 1 ==> Carries(copy[j], file[j], BodyCapacity(pageSize))
  {
    hide Span, Verdict, OrderedExtents, ExtentIndexAt, WritesLand, WriteError, Copied, CopyableUpTo, SealFooter;
    hide Carries, SealedFile;
    copy := [];
    var verdict := Verdict(file, meta, parentFileId, pageSize);
    if verdict.Err? { return copy, Err(verdict.error); }
    AcceptedSource(file, meta, parentFileId, pageSize);
    var footer, cap := file[meta.pageCount - 1].footer, BodyCapacity(pageSize);
    var w := new SegmentWriter(pageSize, identity, Some((footer.indexStart, footer.indexPages)));
    CopyStarts(file, identity, cap);
    NothingYet(file, identity, faults, cap, pageSize);
    var id := 1;
    while id < meta.pageCount - 1
      invariant 1 <= id <= meta.pageCount - 1 && fresh(w) && w.Valid() && w.State() == CopyProgress(file, id, identity, cap)
      invariant w.pageSize == pageSize && w.identity == identity
      invariant w.rekeyLayout == Some((footer.indexStart, footer.indexPages))
      invariant CopyableUpTo(file, id, cap) && WritesLand(Start(identity), faults, id - 1, pageSize)
    {
      var read := ReadPage(file[id], cap);
      OnePage(file, id, identity, faults, cap, pageSize);
      if read.Err? { return copy, Err(read.error); }
      CopyNext(file, id, identity, cap);
      var copied := w.AppendPage(read.value.0, read.value.1, faults(id - 1));
      if copied.Err? { return copy, Err(copied.error); }
      id := id + 1;
    }
    Complete(identity, faults, |file| - 2, pageSize);
    CopyVerdict(file, identity, footer.indexStart, footer.indexPages, pageSize);
    CopyContents(file, identity, footer.indexStart, footer.indexPages, pageSize);
    r := w.Seal(sealFaults, footerFault);
    copy := w.file;
  }

  lemma NothingYet(file: seq<FilePage>, identity: Identity, faults: nat -> Fault, cap: nat, pageSize: nat)
    requires |file| >= 1
    ensures CopyableUpTo(file, 1, cap) && WritesLand(Start(identity), faults, 0, pageSize)
  {
  }

  /** Page `n` is copied exactly when it reads and its write lands. */
  lemma OnePage(file: seq<FilePage>, n: nat, identity: Identity, faults: nat -> Fault, cap: nat, pageSize: nat)
    requires 1 <= n < |file| - 1 && CopyableUpTo(file, n, cap) && WritesLand(Start(identity), faults, n - 1, pageSize)
    ensures CopyableUpTo(file, n + 1, cap) <==> Copyable(file[n], cap)
    ensures CopyableUpTo(file, |file| - 1, cap) ==> Copyable(file[n], cap)
    ensures var now := CopyProgress(file, n, identity, cap);
            WritesLand(Start(identity), faults, n, pageSize) <==> WriteError(now, faults(n - 1), pageSize).None?
    ensures WritesLand(Start(identity), faults, |file| - 2, pageSize) ==> WritesLand(Start(identity), faults, n, pageSize)
  {
    hide Span, WriteError, Copyable, Copied;
    OneMoreLands(Start(identity), CopyProgress(file, n, identity, cap), faults, n - 1, pageSize);
    if WritesLand(Start(identity), faults, |file| - 2, pageSize) {
      FewerLand(Start(identity), faults, n, |file| - 2, pageSize);
    }
  }

  lemma Complete(identity: Identity, faults: nat -> Fault, n: nat, pageSize: nat)
    requires WritesLand(Start(identity), faults, n, pageSize)
    ensures n <= COUNTER_MAX
  {
  }
}
