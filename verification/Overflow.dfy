/** Overflow chains: values stored as linked pages. */
module OverflowChains {
  import opened Arithmetic
  import opened Bytes
  import opened NodeLayout

  const CHAIN_HEADER := 12
  const ROOT_HEADER := 16
  const MAX_LENGTH := 0x8000_0000_0000_0000

  datatype OverflowError = BodyMalformed | ChainCycle | PageUnreadable | PayloadTooLarge | WriteFailed

  /** How the pager answers one page write: done, refused, or done with the flush after it failing. */
  datatype WriteFault = Stored | NotStored | FlushFails

  // ---------------------------------------------------------------------
  // Page bodies
  // ---------------------------------------------------------------------

  datatype Link = Link(next: u64, data: seq<byte>)
  datatype Root = Root(refcount: u32, link: Link)

  /** `next[8] ‖ data_len[4] ‖ data`, zero-filled. */
  function ChainBody(link: Link, cap: nat): (body: seq<byte>)
    requires CHAIN_HEADER + |link.data| <= cap < U32_LIMIT
    ensures |body| == cap
  {
    LE64(link.next) + LE32(|link.data|) + link.data + Zeros(cap - CHAIN_HEADER - |link.data|)
  }

  /** `refcount[4]`, then the chain layout. */
  function RootBody(root: Root, cap: nat): (body: seq<byte>)
    requires ROOT_HEADER + |root.link.data| <= cap < U32_LIMIT
    ensures |body| == cap
  {
    LE32(root.refcount) + ChainBody(root.link, cap - 4)
  }

  function DecodeLink(body: seq<byte>): Result<Link, OverflowError>
  {
    if |body| < CHAIN_HEADER then Err(BodyMalformed)
    else
      var len := U32At(body, 8);
      if CHAIN_HEADER + len > |body| then Err(BodyMalformed)
      else Ok(Link(U64At(body, 0), body[CHAIN_HEADER..CHAIN_HEADER + len]))
  }

  function DecodeRoot(body: seq<byte>): Result<Root, OverflowError>
  {
    if |body| < ROOT_HEADER then Err(BodyMalformed)
    else
      var len := U32At(body, 12);
      if ROOT_HEADER + len > |body| then Err(BodyMalformed)
      else Ok(Root(U32At(body, 0), Link(U64At(body, 4), body[ROOT_HEADER..ROOT_HEADER + len])))
  }

  lemma LinkRoundTrip(link: Link, cap: nat)
    requires CHAIN_HEADER + |link.data| <= cap < U32_LIMIT
    ensures DecodeLink(ChainBody(link, cap)) == Ok(link)
  {
    hide LE, U32At, U64At;
    var body, n, l := ChainBody(link, cap), LE64(link.next), LE32(|link.data|);
    assert body[0..8] == n && body[8..12] == l && body[12..12 + |link.data|] == link.data;
    U64AtLE64(body, 0, link.next);
    U32AtLE32(body, 8, |link.data|);
  }

  lemma RootRoundTrip(root: Root, cap: nat)
    requires ROOT_HEADER + |root.link.data| <= cap < U32_LIMIT
    ensures DecodeRoot(RootBody(root, cap)) == Ok(root)
  {
    hide LE, U32At, U64At;
    var link := root.link;
    var body, r, n, l := RootBody(root, cap), LE32(root.refcount), LE64(link.next), LE32(|link.data|);
    assert body == r + n + l + link.data + Zeros(cap - ROOT_HEADER - |link.data|);
    assert body[0..4] == r && body[4..12] == n && body[12..16] == l && body[16..16 + |link.data|] == link.data;
    U32AtLE32(body, 0, root.refcount);
    U64AtLE64(body, 4, link.next);
    U32AtLE32(body, 12, |link.data|);
  }

  /** A chain page: next page, data length, data, zeros; the integers little-endian. */
  lemma LinkLayout(link: Link, cap: nat)
    requires 12 + |link.data| <= cap < U32_LIMIT
    ensures var body := ChainBody(link, cap);
            && |body| == cap && body[0..8] == LE(link.next, 8) && body[8..12] == LE(|link.data|, 4)
            && body[12..12 + |link.data|] == link.data
            && forall i :: 12 + |link.data| <= i < cap ==> body[i] == 0
  {
    hide LE;
  }

  /** A root page: the reference count, then a chain page's fields. */
  lemma RootLayout(root: Root, cap: nat)
    requires 16 + |root.link.data| <= cap < U32_LIMIT
    ensures var body, data := RootBody(root, cap), root.link.data;
            && |body| == cap && body[0..4] == LE(root.refcount, 4) && body[4..12] == LE(root.link.next, 8)
            && body[12..16] == LE(|data|, 4) && body[16..16 + |data|] == data
            && forall i :: 16 + |data| <= i < cap ==> body[i] == 0
  {
    hide LE, ChainBody;
    var rest := ChainBody(root.link, cap - 4);
    LinkLayout(root.link, cap - 4);
    RootPieces(LE(root.refcount, 4), rest, |root.link.data|);
  }

  lemma RootPieces(count: seq<byte>, rest: seq<byte>, n: nat)
    requires |count| == 4 && 12 + n <= |rest|
    ensures var body := count + rest;
            && body[0..4] == count && body[4..12] == rest[0..8] && body[12..16] == rest[8..12]
            && body[16..16 + n] == rest[12..12 + n]
            && forall i :: 16 + n <= i < |body| ==> body[i] == rest[i - 4]
  {
  }

  method ZeroFill(body: array<byte>)
    modifies body
    ensures body[..] == Zeros(body.Length)
  {
    var i := 0;
    while i < body.Length
      invariant 0 <= i <= body.Length && body[..i] == Zeros(i)
    {
      body[i] := 0;
      i := i + 1;
    }
  }

  /** Writes the next field of a body whose rest is still zero. */
  method PutField(body: array<byte>, off: nat, field: seq<byte>, ghost front: seq<byte>)
    requires off == |front| && off + |field| <= body.Length && body[..] == front + Zeros(body.Length - off)
    modifies body
    ensures body[..] == (front + field) + Zeros(body.Length - off - |field|)
  {
    CopyInto(body, off, field);
  }

  method EncodeOverflow(body: array<byte>, link: Link) returns (r: Result<(), OverflowError>)
    requires CHAIN_HEADER <= body.Length < U32_LIMIT
    modifies body
    ensures r.Ok? <==> CHAIN_HEADER + |link.data| <= body.Length
    ensures r.Ok? ==> body[..] == ChainBody(link, body.Length)
    ensures r.Err? ==> r.error == PayloadTooLarge && body[..] == old(body[..])
  {
    hide LE;
    if CHAIN_HEADER + |link.data| > body.Length { return Err(PayloadTooLarge); }
    var next, len := LE64(link.next), LE32(|link.data|);
    ZeroFill(body);
    PutField(body, 0, next, []);
    PutField(body, 8, len, next) by { assert [] + next == next; }
    PutField(body, 12, link.data, next + len);
    return Ok(());
  }

  method EncodeOverflowRoot(body: array<byte>, root: Root) returns (r: Result<(), OverflowError>)
    requires ROOT_HEADER <= body.Length < U32_LIMIT
    modifies body
    ensures r.Ok? <==> ROOT_HEADER + |root.link.data| <= body.Length
    ensures r.Ok? ==> body[..] == RootBody(root, body.Length)
    ensures r.Err? ==> r.error == PayloadTooLarge && body[..] == old(body[..])
  {
    hide LE, RootBody;
    var link := root.link;
    if ROOT_HEADER + |link.data| > body.Length { return Err(PayloadTooLarge); }
    var count, next, len := LE32(root.refcount), LE64(link.next), LE32(|link.data|);
    ZeroFill(body);
    PutField(body, 0, count, []);
    PutField(body, 4, next, count) by { assert [] + count == count; }
    PutField(body, 12, len, count + next);
    PutField(body, 16, link.data, count + next + len);
    RootBodyIs(root, body.Length);
    return Ok(());
  }

  lemma RootBodyIs(root: Root, cap: nat)
    requires ROOT_HEADER + |root.link.data| <= cap < U32_LIMIT
    ensures var link := root.link;
            RootBody(root, cap) == LE32(root.refcount) + LE64(link.next) + LE32(|link.data|) + link.data
                                   + Zeros(cap - ROOT_HEADER - |link.data|)
  {
    hide LE;
  }

  // ---------------------------------------------------------------------
  // What a chain means
  // ---------------------------------------------------------------------

  datatype PageKind = RootKind | ChainKind | OtherKind
  datatype Page = Page(kind: PageKind, body: seq<byte>)
  type Pages = map<u64, Page>

  /** A read under the wrong kind, or of an absent page, does not authenticate. */
  function ReadPage(pages: Pages, id: u64, kind: PageKind): Result<seq<byte>, OverflowError>
  {
    if id in pages && pages[id].kind == kind then Ok(pages[id].body) else Err(PageUnreadable)
  }

  function ReadLink(pages: Pages, id: u64): Result<Link, OverflowError>
  {
    var body := ReadPage(pages, id, ChainKind);
    if body.Err? then Err(body.error) else DecodeLink(body.value)
  }

  function ReadRoot(pages: Pages, id: u64): Result<Root, OverflowError>
  {
    var body := ReadPage(pages, id, RootKind);
    if body.Err? then Err(body.error) else DecodeRoot(body.value)
  }

  datatype Piece = Piece(id: u64, data: seq<byte>)

  lemma FewerUnseen(pages: Pages, id: u64, seen: set<u64>)
    requires id in pages && id !in seen
    ensures |pages.Keys - (seen + {id})| < |pages.Keys - seen|
  {
    var a, b := pages.Keys - (seen + {id}), pages.Keys - seen;
    assert b == a + {id};
  }

  /** The pieces reached from `id`; a page met twice, unreadable or malformed is an error. */
  ghost function ChainFrom(pages: Pages, id: u64, seen: set<u64>): (r: Result<seq<Piece>, OverflowError>)
    ensures r.Ok? && id != 0 ==> r.value != [] && r.value[0].id == id
    decreases |pages.Keys - seen|
  {
    if id == 0 then Ok([])
    else if id in seen then Err(ChainCycle)
    else
      var link := ReadLink(pages, id);
      if link.Err? then Err(link.error)
      else
        FewerUnseen(pages, id, seen);
        var rest := ChainFrom(pages, link.value.next, seen + {id});
        if rest.Err? then rest else Ok([Piece(id, link.value.data)] + rest.value)
  }

  ghost function Chain(pages: Pages, root: u64): Result<seq<Piece>, OverflowError>
  {
    var r := ReadRoot(pages, root);
    if r.Err? then Err(r.error)
    else
      var rest := ChainFrom(pages, r.value.link.next, {root});
      if rest.Err? then rest else Ok([Piece(root, r.value.link.data)] + rest.value)
  }

  /** As many pieces from `id` on as can be read before the walk ends or breaks. */
  ghost function ReadableFrom(pages: Pages, id: u64, seen: set<u64>): seq<Piece>
    decreases |pages.Keys - seen|
  {
    if id == 0 || id in seen || ReadLink(pages, id).Err? then []
    else
      var link := ReadLink(pages, id).value;
      FewerUnseen(pages, id, seen);
      [Piece(id, link.data)] + ReadableFrom(pages, link.next, seen + {id})
  }

  ghost function Readable(pages: Pages, root: u64): seq<Piece>
  {
    var r := ReadRoot(pages, root);
    if r.Err? then [] else [Piece(root, r.value.link.data)] + ReadableFrom(pages, r.value.link.next, {root})
  }

  /** A chain that reads to its end is all of it readable. */
  lemma {:induction false} ReadableFromIsChain(pages: Pages, id: u64, seen: set<u64>)
    requires ChainFrom(pages, id, seen).Ok?
    ensures ReadableFrom(pages, id, seen) == ChainFrom(pages, id, seen).value
    decreases |pages.Keys - seen|
  {
    if id != 0 {
      FewerUnseen(pages, id, seen);
      ReadableFromIsChain(pages, ReadLink(pages, id).value.next, seen + {id});
    }
  }

  lemma ReadableIsChain(pages: Pages, root: u64)
    requires Chain(pages, root).Ok?
    ensures Readable(pages, root) == Chain(pages, root).value
  {
    ReadableFromIsChain(pages, ReadRoot(pages, root).value.link.next, {root});
  }

  /** `ps` are pages met one after another from `id` on, none of them among `seen` or met before. */
  ghost predicate Reached(pages: Pages, id: u64, seen: set<u64>, ps: seq<Piece>)
    decreases |ps|
  {
    ps == [] ||
    (&& id != 0 && id !in seen && ReadLink(pages, id).Ok?
     && ps[0] == Piece(id, ReadLink(pages, id).value.data)
     && Reached(pages, ReadLink(pages, id).value.next, seen + {id}, ps[1..]))
  }

  lemma {:induction false} ReachedIsReadable(pages: Pages, id: u64, seen: set<u64>, ps: seq<Piece>)
    requires Reached(pages, id, seen, ps)
    ensures ps <= ReadableFrom(pages, id, seen)
    decreases |ps|
  {
    if ps != [] {
      ReachedIsReadable(pages, ReadLink(pages, id).value.next, seen + {id}, ps[1..]);
      assert ps == [ps[0]] + ps[1..];
    }
  }

  /** Whatever becomes of a chain further on, the pages that can be reached and read before it breaks are readable. */
  lemma ReadableUpToTheBreak(pages: Pages, root: u64, ps: seq<Piece>)
    requires ReadRoot(pages, root).Ok? && Reached(pages, ReadRoot(pages, root).value.link.next, {root}, ps)
    ensures [Piece(root, ReadRoot(pages, root).value.link.data)] + ps <= Readable(pages, root)
  {
    ReachedIsReadable(pages, ReadRoot(pages, root).value.link.next, {root}, ps);
  }

  function Data(ps: seq<Piece>): seq<byte>
  {
    if ps == [] then [] else ps[0].data + Data(ps[1..])
  }

  function Ids(ps: seq<Piece>): (ids: seq<u64>)
    ensures |ids| == |ps|
    ensures forall i :: 0 <= i < |ps| ==> ids[i] == ps[i].id
  {
    if ps == [] then [] else [ps[0].id] + Ids(ps[1..])
  }

  ghost predicate Distinct(ids: seq<u64>)
  {
    forall i, j :: 0 <= i < j < |ids| ==> ids[i] != ids[j]
  }

  /** No readable chain visits a page twice, nor leaves the store. */
  lemma {:induction false} ChainFromIds(pages: Pages, id: u64, seen: set<u64>)
    requires ChainFrom(pages, id, seen).Ok?
    ensures var ids := Ids(ChainFrom(pages, id, seen).value);
            Distinct(ids) && forall i :: 0 <= i < |ids| ==> ids[i] in pages && ids[i] !in seen
    decreases |pages.Keys - seen|
  {
    if id != 0 {
      FewerUnseen(pages, id, seen);
      ChainFromIds(pages, ReadLink(pages, id).value.next, seen + {id});
    }
  }

  lemma ChainIds(pages: Pages, root: u64)
    requires Chain(pages, root).Ok?
    ensures var ids := Ids(Chain(pages, root).value);
            Distinct(ids) && forall i :: 0 <= i < |ids| ==> ids[i] in pages
  {
    ChainFromIds(pages, ReadRoot(pages, root).value.link.next, {root});
  }

  // ---------------------------------------------------------------------
  // Cutting a value into pages
  // ---------------------------------------------------------------------

  /** Data bytes a page holds. */
  function Room(isRoot: bool, cap: nat): (n: nat)
    requires cap > ROOT_HEADER
    ensures n > 0
  {
    if isRoot then cap - ROOT_HEADER else cap - CHAIN_HEADER
  }

  /** What each page holds when `v` is written out, the first page being a root or not. */
  function Chunks(v: seq<byte>, isRoot: bool, cap: nat): (cs: seq<seq<byte>>)
    requires cap > ROOT_HEADER
    ensures |cs| > 0
    ensures forall i :: 0 <= i < |cs| ==> |cs[i]| <= Room(isRoot && i == 0, cap)
    decreases |v|
  {
    var room := Room(isRoot, cap);
    if |v| <= room then [v] else [v[..room]] + Chunks(v[room..], false, cap)
  }

  function Pieces(ids: seq<u64>, cs: seq<seq<byte>>): seq<Piece>
    requires |ids| == |cs|
  {
    if ids == [] then [] else [Piece(ids[0], cs[0])] + Pieces(ids[1..], cs[1..])
  }

  lemma {:induction false} ChunksJoin(v: seq<byte>, isRoot: bool, cap: nat)
    requires cap > ROOT_HEADER
    ensures Concat(Chunks(v, isRoot, cap)) == v
    decreases |v|
  {
    var cs, room := Chunks(v, isRoot, cap), Room(isRoot, cap);
    if |v| <= room {
      assert cs[1..] == [];
    } else {
      ChunksJoin(v[room..], false, cap);
      assert cs[1..] == Chunks(v[room..], false, cap);
    }
  }

  /** What the next page takes, and what it leaves. */
  /** A value takes no more pages than it must: the root's share, and then full pages. */
  lemma {:induction false} PageCount(v: seq<byte>, isRoot: bool, cap: nat)
    requires cap > 16 && (isRoot || v != [])
    ensures |Chunks(v, isRoot, cap)| ==
            if !isRoot then DivCeil(|v|, cap - 12)
            else if |v| <= cap - 16 then 1 else 1 + DivCeil(|v| - (cap - 16), cap - 12)
    decreases |v|
  {
    hide DivCeil;
    var room := if isRoot then cap - 16 else cap - 12;
    if |v| > room {
      PageCount(v[room..], false, cap);
      if !isRoot { DivCeilStep(|v|, cap - 12); }
    } else if !isRoot {
      DivCeilOne(|v|, cap - 12);
    }
  }

  lemma ChunkStep(v: seq<byte>, isRoot: bool, cap: nat)
    requires cap > ROOT_HEADER
    ensures var cs, n := Chunks(v, isRoot, cap), Min(Room(isRoot, cap), |v|);
            && cs[0] == v[..n]
            && (|cs| == 1 <==> n == |v|)
            && (n < |v| ==> cs[1..] == Chunks(v[n..], false, cap))
  {
  }

  lemma {:induction false} PiecesHold(ids: seq<u64>, cs: seq<seq<byte>>)
    requires |ids| == |cs|
    ensures Data(Pieces(ids, cs)) == Concat(cs) && Ids(Pieces(ids, cs)) == ids
  {
    if ids != [] {
      PiecesHold(ids[1..], cs[1..]);
      assert Pieces(ids, cs)[1..] == Pieces(ids[1..], cs[1..]);
    }
  }

  function PageWith(isRoot: bool, link: Link, cap: nat): Page
    requires ROOT_HEADER < cap < U32_LIMIT && |link.data| <= Room(isRoot, cap)
  {
    if isRoot then Page(RootKind, RootBody(Root(1, link), cap)) else Page(ChainKind, ChainBody(link, cap))
  }

  /** Page `i` of a value written to `ids`. */
  function PageFor(ids: seq<u64>, cs: seq<seq<byte>>, i: nat, cap: nat): Page
    requires i < |ids| == |cs| && ROOT_HEADER < cap < U32_LIMIT && |cs[i]| <= Room(i == 0, cap)
  {
    PageWith(i == 0, Link(if i + 1 < |ids| then ids[i + 1] else 0, cs[i]), cap)
  }

  ghost predicate Written(pages: Pages, ids: seq<u64>, cs: seq<seq<byte>>, cap: nat)
  {
    && |ids| == |cs| && ROOT_HEADER < cap < U32_LIMIT
    && (forall i :: 0 <= i < |cs| ==> |cs[i]| <= Room(i == 0, cap))
    && forall i :: 0 <= i < |ids| ==> ids[i] in pages && pages[ids[i]] == PageFor(ids, cs, i, cap)
  }

  ghost predicate FreshIds(ids: seq<u64>)
  {
    Distinct(ids) && forall i :: 0 <= i < |ids| ==> ids[i] != 0
  }

  ghost function SetOf(ids: seq<u64>): set<u64>
  {
    set i | 0 <= i < |ids| :: ids[i]
  }

  lemma NotYet(ids: seq<u64>, i: nat)
    requires Distinct(ids) && i < |ids|
    ensures ids[i] !in SetOf(ids[..i])
  {
  }

  lemma LinkOf(pages: Pages, ids: seq<u64>, cs: seq<seq<byte>>, cap: nat, i: nat)
    requires Written(pages, ids, cs, cap) && 1 <= i < |ids|
    ensures ReadLink(pages, ids[i]) == Ok(Link(if i + 1 < |ids| then ids[i + 1] else 0, cs[i]))
  {
    hide ChainBody, RootBody, DecodeLink;
    LinkRoundTrip(Link(if i + 1 < |ids| then ids[i + 1] else 0, cs[i]), cap);
  }

  /** Following the links of written pages meets the rest of the pieces in order. */
  lemma {:induction false} WrittenLinks(pages: Pages, ids: seq<u64>, cs: seq<seq<byte>>, cap: nat, i: nat)
    requires Written(pages, ids, cs, cap) && FreshIds(ids) && 1 <= i <= |ids|
    ensures ChainFrom(pages, if i < |ids| then ids[i] else 0, SetOf(ids[..i])) == Ok(Pieces(ids[i..], cs[i..]))
    decreases |ids| - i
  {
    hide SetOf, PageFor, ReadLink;
    if i < |ids| {
      NotYet(ids, i);
      LinkOf(pages, ids, cs, cap, i);
      WrittenLinks(pages, ids, cs, cap, i + 1);
      SetOfExtends(ids, i);
      assert ids[i..][1..] == ids[i + 1..] && cs[i..][1..] == cs[i + 1..];
    }
  }

  lemma SetOfExtends(ids: seq<u64>, i: nat)
    requires i < |ids|
    ensures SetOf(ids[..i + 1]) == SetOf(ids[..i]) + {ids[i]}
  {
    var s, t := SetOf(ids[..i + 1]), SetOf(ids[..i]);
    forall x | x in s ensures x in t + {ids[i]} {
      var j :| 0 <= j < i + 1 && ids[..i + 1][j] == x;
      if j < i { assert ids[..i][j] == x; }
    }
    forall x | x in t + {ids[i]} ensures x in s {
      if x in t {
        var j :| 0 <= j < i && ids[..i][j] == x;
        assert ids[..i + 1][j] == x;
      } else {
        assert ids[..i + 1][i] == x;
      }
    }
  }

  /** Written pages read back as the value, on exactly the written ids. */
  lemma WrittenChain(pages: Pages, ids: seq<u64>, cs: seq<seq<byte>>, cap: nat)
    requires Written(pages, ids, cs, cap) && FreshIds(ids) && |ids| >= 1
    ensures Chain(pages, ids[0]) == Ok(Pieces(ids, cs))
    ensures ReadRoot(pages, ids[0]).Ok? && ReadRoot(pages, ids[0]).value.refcount == 1
  {
    hide ChainBody, RootBody, DecodeRoot, ChainFrom;
    var link := Link(if 1 < |ids| then ids[1] else 0, cs[0]);
    RootRoundTrip(Root(1, link), cap);
    assert ReadRoot(pages, ids[0]) == Ok(Root(1, link));
    WrittenLinks(pages, ids, cs, cap, 1);
    SetOfExtends(ids, 0);
    assert SetOf(ids[..0]) == {};
    assert SetOf(ids[..1]) == {ids[0]};
    assert Pieces(ids, cs) == [Piece(ids[0], cs[0])] + Pieces(ids[1..], cs[1..]);
  }

  // ---------------------------------------------------------------------
  // The operations
  // ---------------------------------------------------------------------

  /** The pieces met so far, then whatever the walk still finds. */
  ghost function Then(met: seq<Piece>, rest: Result<seq<Piece>, OverflowError>): Result<seq<Piece>, OverflowError>
  {
    if rest.Err? then rest else Ok(met + rest.value)
  }

  /** One step of a walk moves a piece from what is left to what was met. */
  lemma WalkStep(pages: Pages, met: seq<Piece>, id: u64, seen: set<u64>)
    requires id != 0 && id !in seen && ReadLink(pages, id).Ok?
    ensures var link := ReadLink(pages, id).value;
            Then(met, ChainFrom(pages, id, seen)) ==
            Then(met + [Piece(id, link.data)], ChainFrom(pages, link.next, seen + {id}))
    ensures |pages.Keys - (seen + {id})| < |pages.Keys - seen|
  {
    hide ReadLink;
    FewerUnseen(pages, id, seen) by { PresentIfReadable(pages, id); }
    var link := ReadLink(pages, id).value;
    var rest := ChainFrom(pages, link.next, seen + {id});
    if rest.Ok? {
      assert met + ([Piece(id, link.data)] + rest.value) == met + [Piece(id, link.data)] + rest.value;
    }
  }

  lemma WalkStarts(pages: Pages, root: u64)
    ensures Chain(pages, root).Ok? ==> ReadRoot(pages, root).Ok?
    ensures ReadRoot(pages, root).Ok? ==>
              var link := ReadRoot(pages, root).value.link;
              Chain(pages, root) == Then([Piece(root, link.data)], ChainFrom(pages, link.next, {root}))
  {
  }

  lemma WalkEnds(pages: Pages, met: seq<Piece>, seen: set<u64>)
    ensures Then(met, ChainFrom(pages, 0, seen)) == Ok(met)
  {
    assert met + [] == met;
  }

  lemma PresentIfReadable(pages: Pages, id: u64)
    requires ReadLink(pages, id).Ok?
    ensures id in pages
  {
  }

  lemma WalkFails(pages: Pages, met: seq<Piece>, id: u64, seen: set<u64>)
    requires id != 0 && (id in seen || ReadLink(pages, id).Err?)
    ensures Then(met, ChainFrom(pages, id, seen)).Err?
  {
  }

  lemma {:induction false} DataConcat(a: seq<Piece>, b: seq<Piece>)
    ensures Data(a + b) == Data(a) + Data(b)
  {
    if a == [] {
      assert a + b == b;
    } else {
      DataConcat(a[1..], b);
      assert (a + b)[1..] == a[1..] + b;
      Associative(a[0].data, Data(a[1..]), Data(b));
    }
  }

  lemma IdsExtend(ps: seq<Piece>, p: Piece)
    ensures Ids([]) == [] && Ids(ps + [p]) == Ids(ps) + [p.id]
  {
  }

  lemma DataOne(p: Piece)
    ensures Data([]) == [] && Data([p]) == p.data
  {
    assert [p][1..] == [];
  }

  datatype ReleaseResult = Decremented | Freed(freedPages: seq<u64>)

  /** The pager's main pages. */
  class PageStore {
    const cap: nat
    var pages: Pages

    ghost predicate Valid()
      reads this
    {
      LegalCapacity(cap) && forall id :: id in pages ==> |pages[id].body| == cap
    }

    /** Walks a whole chain; its value, or an error on every chain that is not exactly `totalLen` readable bytes. */
    method ReadChain(root: u64, totalLen: u64) returns (r: Result<seq<byte>, OverflowError>)
      ensures r.Ok? <==> totalLen < MAX_LENGTH && Chain(pages, root).Ok? && |Data(Chain(pages, root).value)| == totalLen
      ensures r.Ok? ==> r.value == Data(Chain(pages, root).value)
    {
      hide ReadLink, ReadRoot, Chain, ChainFrom, Then, Data, Ids;
      if totalLen >= MAX_LENGTH { return Err(BodyMalformed); }
      var info := ReadRoot(pages, root);
      WalkStarts(pages, root);
      if info.Err? { return Err(info.error); }
      var out := info.value.link.data;
      ghost var met := [Piece(root, out)];
      DataOne(met[0]);
      if |out| > totalLen {
        TooLong(pages, root, met, info.value.link.next, {root});
        return Err(BodyMalformed);
      }
      var seen: set<u64> := {root};
      var next := info.value.link.next;
      while next != 0
        invariant Chain(pages, root) == Then(met, ChainFrom(pages, next, seen))
        invariant out == Data(met) && |out| <= totalLen
        decreases |pages.Keys - seen|
      {
        if next in seen {
          WalkFails(pages, met, next, seen);
          return Err(ChainCycle);
        }
        var link := ReadLink(pages, next);
        if link.Err? {
          WalkFails(pages, met, next, seen);
          return Err(link.error);
        }
        WalkStep(pages, met, next, seen);
        ghost var piece := Piece(next, link.value.data);
        DataOne(piece);
        DataConcat(met, [piece]);
        met := met + [piece];
        if |out| + |link.value.data| > totalLen {
          TooLong(pages, root, met, link.value.next, seen + {next});
          return Err(BodyMalformed);
        }
        seen := seen + {next};
        out := out + link.value.data;
        next := link.value.next;
      }
      WalkEnds(pages, met, seen);
      if |out| != totalLen { return Err(BodyMalformed); }
      return Ok(out);
    }

    /** Lists every page of a readable chain once, in order. */
    method CollectChain(root: u64) returns (r: Result<seq<u64>, OverflowError>)
      ensures r.Ok? <==> Chain(pages, root).Ok?
      ensures r.Ok? ==> r.value == Ids(Chain(pages, root).value) && Distinct(r.value)
    {
      hide ReadLink, ReadRoot, Chain, ChainFrom, Then, Data, Ids;
      var out := [root];
      var seen: set<u64> := {root};
      var info := ReadRoot(pages, root);
      WalkStarts(pages, root);
      if info.Err? { return Err(info.error); }
      ghost var met := [Piece(root, info.value.link.data)];
      IdsExtend([], met[0]);
      assert [] + met == met;
      var next := info.value.link.next;
      while next != 0
        invariant Chain(pages, root) == Then(met, ChainFrom(pages, next, seen))
        invariant out == Ids(met)
        decreases |pages.Keys - seen|
      {
        if next in seen {
          WalkFails(pages, met, next, seen);
          return Err(ChainCycle);
        }
        var link := ReadLink(pages, next);
        if link.Err? {
          WalkFails(pages, met, next, seen);
          return Err(link.error);
        }
        WalkStep(pages, met, next, seen);
        IdsExtend(met, Piece(next, link.value.data));
        met := met + [Piece(next, link.value.data)];
        seen := seen + {next};
        out := out + [next];
        next := link.value.next;
      }
      WalkEnds(pages, met, seen);
      ChainIds(pages, root);
      return Ok(out);
    }

    /** The walk of a range read: `walked` bytes are behind it, and `out` holds those of them in the range. */
    method WalkRange(root: u64, start: nat, end: nat) returns (r: Result<seq<byte>, OverflowError>)
      requires start < end
      ensures r.Ok? <==> end <= |Data(Readable(pages, root))|
      ensures r.Ok? ==> r.value == Data(Readable(pages, root))[start..end]
    {
      hide ReadLink, ReadRoot, Readable, ReadableFrom, Data, Tail;
      var info := ReadRoot(pages, root);
      ReadableStarts(pages, root);
      if info.Err? { return Err(info.error); }
      var chunk, next := info.value.link.data, info.value.link.next;
      var seen: set<u64> := {root};
      var out: seq<byte>, consumed := [], 0;
      ghost var walked: seq<byte>, met := [], [Piece(root, chunk)];
      DataOne(met[0]);
      EmptyTail(start);
      while true
        invariant Readable(pages, root) == met + ReadableFrom(pages, next, seen)
        invariant Data(met) == walked + chunk
        invariant consumed == |walked| < end && out == Tail(walked, start)
        decreases |pages.Keys - seen|
      {
        var done: bool;
        out, done := TakeChunk(out, walked, consumed, chunk, start, end);
        DataConcat(met, ReadableFrom(pages, next, seen));
        if done {
          SliceOfFront(Data(met), Data(ReadableFrom(pages, next, seen)), start, end);
          return Ok(out);
        }
        walked := walked + chunk;
        consumed := consumed + |chunk|;
        ReadableStep(pages, met, next, seen);
        if next == 0 { break; }
        if next in seen { return Err(ChainCycle); }
        var link := ReadLink(pages, next);
        if link.Err? { return Err(link.error); }
        ghost var piece := Piece(next, link.value.data);
        DataOne(piece);
        DataConcat(met, [piece]);
        met := met + [piece];
        seen := seen + {next};
        chunk, next := link.value.data, link.value.next;
      }
      TailLen(walked, start);
      if |out| != end - start { return Err(BodyMalformed); }
      return Ok(out);
    }

    /** Reads a byte range: the clamped slice of whatever the chain can supply, an error exactly when it falls short. */
    method ReadChainRange(root: u64, totalLen: u64, offset: u64, len: u64) returns (r: Result<seq<byte>, OverflowError>)
      ensures totalLen >= MAX_LENGTH ==> r == Err(BodyMalformed)
      ensures totalLen < MAX_LENGTH ==>
                var start := Min(offset, totalLen);
                var end := Min(start + len, totalLen);
                && (start >= end ==> r == Ok([]))
                && (start < end ==> (r.Ok? <==> end <= |Data(Readable(pages, root))|))
                && (start < end && r.Ok? ==> r.value == Data(Readable(pages, root))[start..end])
    {
      hide Readable, Data;
      if totalLen >= MAX_LENGTH { return Err(BodyMalformed); }
      var start := Min(offset, totalLen);
      var end := Min(start + len, totalLen);
      if start >= end { return Ok([]); }
      r := WalkRange(root, start, end);
    }

    method WritePage(id: u64, isRoot: bool, link: Link)
      requires Valid() && |link.data| <= Room(isRoot, cap)
      modifies this`pages
      ensures Valid() && pages == old(pages)[id := PageWith(isRoot, link, cap)]
    {
      hide RootBody, ChainBody;
      var body := new byte[cap];
      if isRoot {
        var encoded := EncodeOverflowRoot(body, Root(1, link));
        pages := pages[id := Page(RootKind, body[..])];
      } else {
        var encoded := EncodeOverflow(body, link);
        pages := pages[id := Page(ChainKind, body[..])];
      }
    }

    /** Stores `value` on the pages `alloc` hands out, one call per page, and changes no other page. */
    method WriteChain(value: seq<byte>, alloc: nat -> u64, faults: nat -> WriteFault)
      returns (r: Result<u64, OverflowError>)
      requires Valid() && FreshIds(Allocated(value, alloc, cap))
      modifies this`pages
      ensures Valid()
      ensures var ids := Allocated(value, alloc, cap);
              && (r.Ok? <==> AllStored(faults, |ids|))
              && (r.Ok? ==>
                    && r.value == ids[0]
                    && Chain(pages, r.value).Ok?
                    && Data(Chain(pages, r.value).value) == value && Ids(Chain(pages, r.value).value) == ids
                    && ReadRoot(pages, r.value).Ok? && ReadRoot(pages, r.value).value.refcount == 1
                    && OnlyChanged(old(pages), pages, ids))
              && exists n :: 0 <= n <= |ids| && OnlyChanged(old(pages), pages, ids[..n])
    {
      hide Chunks, Chain, ReadRoot, Data, Ids, OnlyChanged, Midway, AllWritten, FreshIds, AllStored, PageWith;
      ghost var ids := Allocated(value, alloc, cap);
      var root := alloc(0);
      var pageId, start, isRoot, calls := root, 0, true, 1;
      Begin(pages, value, ids, cap, faults);
      while true
        invariant Valid() && 1 <= calls <= |ids| && pageId == ids[calls - 1]
        invariant Midway(old(pages), pages, value, ids, cap, start, isRoot, calls - 1)
        invariant AllStored(faults, calls - 1)
        decreases |ids| - calls
      {
        var i := calls - 1;
        NextWrite(old(pages), pages, value, ids, cap, start, isRoot, i);
        StoredNext(faults, i, |ids|);
        var end := Min(start + Room(isRoot, cap), |value|);
        var next: u64 := 0;
        if end < |value| {
          next := alloc(calls);
          calls := calls + 1;
        }
        if faults(i).NotStored? { return Err(WriteFailed); }
        WritePage(pageId, isRoot, Link(next, value[start..end]));
        if faults(i).FlushFails? { return Err(WriteFailed); }
        if next == 0 { break; }
        pageId, start, isRoot := next, end, false;
      }
      Finished(old(pages), pages, value, ids, cap);
      return Ok(root);
    }

    /** A value written and released once gives back exactly the pages it was written to, and the store it found. */
    method WriteThenRelease(value: seq<byte>, alloc: nat -> u64, faults: nat -> WriteFault, newId: u64)
      returns (r: Result<ReleaseResult, OverflowError>)
      requires Valid() && FreshIds(Allocated(value, alloc, cap))
      modifies this`pages
      ensures Valid()
      ensures AllStored(faults, |Allocated(value, alloc, cap)|) ==>
                && r == Ok(Freed(Allocated(value, alloc, cap)))
                && OnlyChanged(old(pages), pages, Allocated(value, alloc, cap))
    {
      hide Chain, ReadRoot, Data, Ids, OnlyChanged, FreshIds, AllStored, Allocated;
      var root := WriteChain(value, alloc, faults);
      if root.Err? { return Err(root.error); }
      r := Release(root.value, newId);
    }

    /** Drops one reference: the last one lists the pages to free, an earlier one copies the root to `newId`. */
    method Release(root: u64, newId: u64) returns (r: Result<ReleaseResult, OverflowError>)
      requires Valid()
      modifies this`pages
      ensures Valid()
      ensures ReadRoot(old(pages), root).Err? ==> r.Err?
      ensures ReadRoot(old(pages), root).Ok? ==>
                var was := ReadRoot(old(pages), root).value;
                if was.refcount <= 1 then
                  && (r.Ok? <==> Chain(old(pages), root).Ok?)
                  && (r.Ok? ==> r.value == Freed(Ids(Chain(old(pages), root).value)) && Distinct(r.value.freedPages))
                else
                  && r == Ok(Decremented)
                  && newId in pages && ReadRoot(pages, newId) == Ok(was.(refcount := was.refcount - 1))
      ensures pages == old(pages) || (r == Ok(Decremented) && pages - {newId} == old(pages) - {newId})
    {
      hide Chain, Ids, Distinct, RootBody, DecodeRoot;
      var info := ReadRoot(pages, root);
      if info.Err? { return Err(info.error); }
      if info.value.refcount <= 1 {
        var freed := CollectChain(root);
        if freed.Err? { return Err(freed.error); }
        return Ok(Freed(freed.value));
      }
      var body := new byte[cap];
      RootDataFits(pages[root].body);
      var lowered := info.value.(refcount := info.value.refcount - 1);
      var encoded := EncodeOverflowRoot(body, lowered);
      RootRoundTrip(lowered, cap);
      pages := pages[newId := Page(RootKind, body[..])];
      return Ok(Decremented);
    }
  }

  lemma RootDataFits(body: seq<byte>)
    ensures DecodeRoot(body).Ok? ==> ROOT_HEADER + |DecodeRoot(body).value.link.data| <= |body|
  {
  }

  /** The ids a write of `value` draws from the allocator. */
  ghost function Allocated(value: seq<byte>, alloc: nat -> u64, cap: nat): (ids: seq<u64>)
    requires cap > ROOT_HEADER
    ensures |ids| == |Chunks(value, true, cap)|
    ensures forall i: nat :: i < |ids| ==> ids[i] == alloc(i)
  {
    var n := |Chunks(value, true, cap)|;
    seq(n, i requires 0 <= i < n => alloc(i))
  }

  ghost predicate OnlyChanged(before: Pages, after: Pages, ids: seq<u64>)
  {
    && after.Keys == before.Keys + SetOf(ids)
    && forall id :: id in before && id !in SetOf(ids) ==> after[id] == before[id]
  }

  ghost predicate AllStored(faults: nat -> WriteFault, n: nat)
  {
    forall i :: 0 <= i < n ==> faults(i).Stored?
  }

  lemma StoredNext(faults: nat -> WriteFault, i: nat, n: nat)
    requires AllStored(faults, i) && i < n
    ensures AllStored(faults, i + 1) <==> faults(i).Stored?
    ensures AllStored(faults, n) ==> faults(i).Stored?
  {
  }

  /** The pages before `n` are in place. */
  ghost predicate WrittenUpTo(pages: Pages, ids: seq<u64>, cs: seq<seq<byte>>, cap: nat, n: nat)
  {
    && n <= |ids| == |cs| && ROOT_HEADER < cap < U32_LIMIT
    && (forall i :: 0 <= i < |cs| ==> |cs[i]| <= Room(i == 0, cap))
    && forall i :: 0 <= i < n ==> ids[i] in pages && pages[ids[i]] == PageFor(ids, cs, i, cap)
  }

  /** The chunks from `i` on are those of the value from `start` on. */
  ghost predicate Left(value: seq<byte>, start: nat, isRoot: bool, cap: nat, cs: seq<seq<byte>>, i: nat)
    requires start <= |value| && cap > ROOT_HEADER
  {
    i <= |cs| && cs[i..] == Chunks(value[start..], isRoot, cap)
  }

  /** `i` pages are written and the value's bytes from `start` on are left. */
  ghost predicate Midway(before: Pages, now: Pages, value: seq<byte>, ids: seq<u64>, cap: nat, start: nat, isRoot: bool,
                         i: nat)
    requires cap > ROOT_HEADER
  {
    var cs := Chunks(value, true, cap);
    && i < |cs| == |ids| && isRoot == (i == 0) && start <= |value|
    && Left(value, start, isRoot, cap, cs, i)
    && WrittenUpTo(now, ids, cs, cap, i) && OnlyChanged(before, now, ids[..i])
  }

  ghost predicate AllWritten(before: Pages, now: Pages, value: seq<byte>, ids: seq<u64>, cap: nat)
    requires cap > ROOT_HEADER
  {
    var cs := Chunks(value, true, cap);
    |ids| == |cs| && OnlyChanged(before, now, ids) && WrittenUpTo(now, ids, cs, cap, |cs|)
  }

  lemma Begin(pages: Pages, value: seq<byte>, ids: seq<u64>, cap: nat, faults: nat -> WriteFault)
    requires LegalCapacity(cap) && |ids| == |Chunks(value, true, cap)|
    ensures |ids| >= 1 && Midway(pages, pages, value, ids, cap, 0, true, 0) && AllStored(faults, 0)
  {
    var cs := Chunks(value, true, cap);
    assert value[0..] == value && cs[0..] == cs;
    assert SetOf(ids[..0]) == {};
  }

  /** What writing page `i` does, and what is left after it. */
  lemma NextWrite(before: Pages, now: Pages, value: seq<byte>, ids: seq<u64>, cap: nat, start: nat, isRoot: bool, i: nat)
    requires cap > ROOT_HEADER && FreshIds(ids) && Midway(before, now, value, ids, cap, start, isRoot, i)
    ensures start <= |value| && i < |ids| && OnlyChanged(before, now, ids[..i])
    ensures var end := Min(start + Room(isRoot, cap), |value|);
            var next := if end < |value| && i + 1 < |ids| then ids[i + 1] else 0;
            && (end < |value| <==> i + 1 < |ids|) && (end < |value| ==> next != 0)
            && end - start <= Room(isRoot, cap) && cap < U32_LIMIT
            && var after := now[ids[i] := PageWith(isRoot, Link(next, value[start..end]), cap)];
               && OnlyChanged(before, after, ids[..i + 1])
               && (end < |value| ==> Midway(before, after, value, ids, cap, end, false, i + 1))
               && (end == |value| ==> AllWritten(before, after, value, ids, cap))
  {
    hide Chunks, PageFor, OnlyChanged, WrittenUpTo, Left, FreshIds, PageWith;
    var cs := Chunks(value, true, cap);
    TakeNext(value, start, isRoot, cap, cs, i);
    var next := if i + 1 < |ids| then ids[i + 1] else 0;
    NonZero(ids, i + 1);
    CapIsLegal(now, ids, cs, cap, i);
    OneMore(before, now, ids, cs, cap, i, next, isRoot);
    assert i + 1 == |ids| ==> ids[..i + 1] == ids;
  }

  lemma CapIsLegal(now: Pages, ids: seq<u64>, cs: seq<seq<byte>>, cap: nat, i: nat)
    requires WrittenUpTo(now, ids, cs, cap, i)
    ensures cap < U32_LIMIT
  {
  }

  lemma TakeNext(value: seq<byte>, start: nat, isRoot: bool, cap: nat, cs: seq<seq<byte>>, i: nat)
    requires start <= |value| && cap > ROOT_HEADER && i < |cs| && Left(value, start, isRoot, cap, cs, i)
    ensures var end := Min(start + Room(isRoot, cap), |value|);
            && cs[i] == value[start..end]
            && (end == |value| <==> i + 1 == |cs|)
            && (end < |value| ==> Left(value, end, false, cap, cs, i + 1))
  {
    hide Chunks;
    ChunkStep(value[start..], isRoot, cap);
    var end := Min(start + Room(isRoot, cap), |value|);
    assert value[start..][..end - start] == value[start..end];
    assert value[start..][end - start..] == value[end..];
    assert cs[i..][1..] == cs[i + 1..];
  }

  lemma OneMore(before: Pages, during: Pages, ids: seq<u64>, cs: seq<seq<byte>>, cap: nat, i: nat, next: u64,
                isRoot: bool)
    requires i < |ids| == |cs| && OnlyChanged(before, during, ids[..i]) && WrittenUpTo(during, ids, cs, cap, i)
    requires FreshIds(ids) && isRoot == (i == 0) && next == if i + 1 < |ids| then ids[i + 1] else 0
    ensures |cs[i]| <= Room(isRoot, cap)
    ensures var after := during[ids[i] := PageWith(isRoot, Link(next, cs[i]), cap)];
            OnlyChanged(before, after, ids[..i + 1]) && WrittenUpTo(after, ids, cs, cap, i + 1)
  {
    hide SetOf, PageWith;
    SetOfExtends(ids, i);
  }

  lemma NonZero(ids: seq<u64>, i: nat)
    requires FreshIds(ids)
    ensures i < |ids| ==> ids[i] != 0
  {
  }

  lemma Finished(before: Pages, now: Pages, value: seq<byte>, ids: seq<u64>, cap: nat)
    requires cap > ROOT_HEADER && FreshIds(ids) && |ids| >= 1 && AllWritten(before, now, value, ids, cap)
    ensures OnlyChanged(before, now, ids) && OnlyChanged(before, now, ids[..|ids|])
    ensures var chain := Chain(now, ids[0]);
            chain.Ok? && Data(chain.value) == value && Ids(chain.value) == ids
    ensures ReadRoot(now, ids[0]).Ok? && ReadRoot(now, ids[0]).value.refcount == 1
  {
    hide Chunks, Chain, PageFor, Data, Ids, Pieces, OnlyChanged, FreshIds, ReadRoot;
    var cs := Chunks(value, true, cap);
    assert ids[..|ids|] == ids;
    WrittenChain(now, ids, cs, cap);
    PiecesHold(ids, cs);
    ChunksJoin(value, true, cap);
  }

  /** The bytes from `start` on. */
  function Tail(s: seq<byte>, start: nat): seq<byte>
  {
    s[Min(start, |s|)..]
  }

  lemma EmptyTail(start: nat)
    ensures Tail([], start) == []
  {
  }

  lemma TailLen(s: seq<byte>, start: nat)
    ensures |Tail(s, start)| == if start < |s| then |s| - start else 0
  {
  }

  /** Adds the part of `chunk` in the range; `end - consumed` never underflows. */
  method TakeChunk(out: seq<byte>, ghost walked: seq<byte>, consumed: nat, chunk: seq<byte>, start: nat, end: nat)
    returns (taken: seq<byte>, done: bool)
    requires start < end && consumed == |walked| < end && out == Tail(walked, start)
    ensures done <==> end <= |walked + chunk|
    ensures taken == if done then (walked + chunk)[start..end] else Tail(walked + chunk, start)
  {
    var chunkEnd := consumed + |chunk|;
    if chunkEnd > start {
      var from := if start > consumed then start - consumed else 0;
      var to := Min(end - consumed, |chunk|);
      return out + chunk[from..to], consumed + to >= end;
    }
    return out, false;
  }

  /** Bytes met already exceed the total, so no completion of the walk can match it. */
  lemma TooLong(pages: Pages, root: u64, met: seq<Piece>, next: u64, seen: set<u64>)
    requires Chain(pages, root) == Then(met, ChainFrom(pages, next, seen))
    ensures Chain(pages, root).Ok? ==> |Data(Chain(pages, root).value)| >= |Data(met)|
  {
    var rest := ChainFrom(pages, next, seen);
    if rest.Ok? { DataConcat(met, rest.value); }
  }

  lemma SliceOfFront(front: seq<byte>, back: seq<byte>, start: nat, end: nat)
    requires start <= end <= |front|
    ensures end <= |front + back| && (front + back)[start..end] == front[start..end]
  {
  }

  lemma ReadableStarts(pages: Pages, root: u64)
    ensures ReadRoot(pages, root).Err? ==> Data(Readable(pages, root)) == []
    ensures ReadRoot(pages, root).Ok? ==>
              var link := ReadRoot(pages, root).value.link;
              Readable(pages, root) == [Piece(root, link.data)] + ReadableFrom(pages, link.next, {root})
  {
  }

  /** One more page of a walk, or the end of what can be read. */
  lemma ReadableStep(pages: Pages, met: seq<Piece>, id: u64, seen: set<u64>)
    ensures id == 0 || id in seen || ReadLink(pages, id).Err? ==> ReadableFrom(pages, id, seen) == [] && Data([]) == []
    ensures id != 0 && id !in seen && ReadLink(pages, id).Ok? ==>
              var link := ReadLink(pages, id).value;
              && met + ReadableFrom(pages, id, seen)
                 == (met + [Piece(id, link.data)]) + ReadableFrom(pages, link.next, seen + {id})
              && |pages.Keys - (seen + {id})| < |pages.Keys - seen|
  {
    hide ReadLink;
    if id != 0 && id !in seen && ReadLink(pages, id).Ok? {
      PresentIfReadable(pages, id);
      FewerUnseen(pages, id, seen);
      var link := ReadLink(pages, id).value;
      Associative(met, [Piece(id, link.data)], ReadableFrom(pages, link.next, seen + {id}));
    }
  }

  /** Whenever the whole chain reads as a value, every range read is the clamped slice of it. */
  lemma RangeOfReadable(pages: Pages, root: u64, totalLen: u64, offset: u64, len: u64)
    requires Chain(pages, root).Ok? && |Data(Chain(pages, root).value)| == totalLen
    ensures var start := Min(offset, totalLen);
            var end := Min(start + len, totalLen);
            end <= |Data(Readable(pages, root))|
            && Data(Readable(pages, root))[start..end] == Data(Chain(pages, root).value)[start..end]
  {
    hide Chain, Readable, Data;
    ReadableIsChain(pages, root);
  }

  // ---------------------------------------------------------------------
  // A root copied by a decrement
  // ---------------------------------------------------------------------

  /** A walk depends only on the pages it visits. */
  lemma {:induction false} WalkFrame(pages: Pages, other: Pages, id: u64, seen: set<u64>, others: set<u64>)
    requires ChainFrom(pages, id, seen).Ok?
    requires forall p :: p in ChainFrom(pages, id, seen).value ==>
                           p.id in pages && p.id in other && other[p.id] == pages[p.id] && p.id !in others
    ensures ChainFrom(other, id, others) == ChainFrom(pages, id, seen)
    decreases |pages.Keys - seen|
  {
    if id != 0 {
      var link := ReadLink(pages, id).value;
      var rest := ChainFrom(pages, link.next, seen + {id}).value;
      assert ChainFrom(pages, id, seen).value == [Piece(id, link.data)] + rest;
      assert Piece(id, link.data) in ChainFrom(pages, id, seen).value;
      FewerUnseen(pages, id, seen);
      RestAvoids(pages, link.next, seen + {id}, id);
      WalkFrame(pages, other, link.next, seen + {id}, others + {id});
    }
  }

  lemma RestAvoids(pages: Pages, next: u64, seen: set<u64>, id: u64)
    requires ChainFrom(pages, next, seen).Ok? && id in seen
    ensures forall p :: p in ChainFrom(pages, next, seen).value ==> p.id != id && p.id in pages
  {
    hide ChainFrom;
    ChainFromIds(pages, next, seen);
    var ps := ChainFrom(pages, next, seen).value;
    forall p | p in ps ensures p.id != id && p.id in pages {
      var i :| 0 <= i < |ps| && ps[i] == p;
      assert Ids(ps)[i] == p.id;
    }
  }

  /** A root copied to a page off its chain carries the same value over the same later pages. */
  lemma CopiedRoot(pages: Pages, root: u64, newId: u64, page: Page)
    requires Chain(pages, root).Ok? && newId !in Ids(Chain(pages, root).value)
    requires page.kind == RootKind && DecodeRoot(page.body).Ok?
    requires DecodeRoot(page.body).value.link == ReadRoot(pages, root).value.link
    ensures Chain(pages[newId := page], newId).Ok?
    ensures Data(Chain(pages[newId := page], newId).value) == Data(Chain(pages, root).value)
    ensures Ids(Chain(pages[newId := page], newId).value)[1..] == Ids(Chain(pages, root).value)[1..]
  {
    var link, other := ReadRoot(pages, root).value.link, pages[newId := page];
    var rest := ChainFrom(pages, link.next, {root}).value;
    RestAvoids(pages, link.next, {root}, root);
    var ids := Ids(Chain(pages, root).value);
    forall p | p in rest ensures p.id != newId && p.id in pages {
      var i :| 0 <= i < |rest| && rest[i] == p;
      assert Chain(pages, root).value[i + 1] == p;
      assert ids[i + 1] == p.id;
    }
    WalkFrame(pages, other, link.next, {root}, {newId});
    assert ReadRoot(other, newId) == DecodeRoot(page.body);
    assert Chain(other, newId).value[1..] == rest && Chain(pages, root).value[1..] == rest;
  }
}
