/** A slotted page: a head, a directory of `u16` offsets growing up, and blocks stacked down from the end. */
module SlottedPage {
  import opened Bytes
  import opened NodeLayout

  /** Total bytes of the blocks. */
  function StackLen(bs: seq<seq<byte>>): nat
  {
    if bs == [] then 0 else StackLen(bs[..|bs| - 1]) + |bs[|bs| - 1]|
  }

  /** The first block ends the page; each later one sits just below the one before. */
  function Stack(bs: seq<seq<byte>>): (s: seq<byte>)
    ensures |s| == StackLen(bs)
  {
    if bs == [] then [] else bs[|bs| - 1] + Stack(bs[..|bs| - 1])
  }

  /** Slot `i` holds the offset where block `i` ends up. */
  function Directory(bs: seq<seq<byte>>, cap: nat): (s: seq<byte>)
    requires StackLen(bs) <= cap
    ensures |s| == 2 * |bs|
  {
    if bs == [] then [] else Directory(bs[..|bs| - 1], cap) + LE(cap - StackLen(bs), 2)
  }

  function PageSize(head: seq<byte>, bs: seq<seq<byte>>): nat
  {
    |head| + 2 * |bs| + StackLen(bs)
  }

  function PageBody(head: seq<byte>, bs: seq<seq<byte>>, cap: nat): (body: seq<byte>)
    requires PageSize(head, bs) <= cap
    ensures |body| == cap
  {
    head + Directory(bs, cap) + Zeros(cap - PageSize(head, bs)) + Stack(bs)
  }

  lemma {:induction false} StackLenSplit(bs: seq<seq<byte>>, k: nat)
    requires k <= |bs|
    ensures StackLen(bs) == StackLen(bs[..k]) + StackLen(bs[k..])
    decreases |bs|
  {
    if k == |bs| {
      assert bs[..k] == bs && bs[k..] == [];
    } else {
      var init, rest := bs[..|bs| - 1], bs[k..];
      StackLenSplit(init, k);
      assert init[..k] == bs[..k];
      assert rest[..|rest| - 1] == init[k..];
    }
  }

  lemma {:induction false} StackSplit(bs: seq<seq<byte>>, k: nat)
    requires k <= |bs|
    ensures Stack(bs) == Stack(bs[k..]) + Stack(bs[..k])
    decreases |bs|
  {
    if k == |bs| {
      assert bs[..k] == bs && bs[k..] == [];
    } else {
      var init, rest := bs[..|bs| - 1], bs[k..];
      StackSplit(init, k);
      assert init[..k] == bs[..k];
      assert rest[..|rest| - 1] == init[k..];
      Associative(bs[|bs| - 1], Stack(init[k..]), Stack(init[..k]));
    }
  }

  lemma BlockFollows(a: seq<byte>, b: seq<byte>, block: seq<byte>, c: seq<byte>)
    ensures var s := a + (b + (block + c));
            s[|s| - |block + c|..|s| - |c|] == block
  {
    assert a + (b + (block + c)) == (a + b) + (block + c);
    SliceOfRight(a + b, block + c, 0, |block|);
  }

  /** Block `i` sits where the first `i + 1` sizes put it, counted from the page's end. */
  lemma StackHolds(front: seq<byte>, bs: seq<seq<byte>>, i: nat)
    requires i < |bs|
    ensures StackLen(bs[..i + 1]) <= StackLen(bs)
    ensures var body := front + Stack(bs);
            var off := |body| - StackLen(bs[..i + 1]);
            off + |bs[i]| <= |body| && body[off..off + |bs[i]|] == bs[i]
  {
    hide StackLen, Stack;
    StackSplit(bs, i + 1);
    StackLenSplit(bs, i + 1);
    assert bs[..i + 1] == bs[..i] + [bs[i]];
    Unfold(bs[..i], bs[i], 0);
    BlockFollows(front, Stack(bs[i + 1..]), bs[i], Stack(bs[..i]));
  }

  lemma {:induction false} DirectoryHolds(bs: seq<seq<byte>>, cap: nat, i: nat)
    requires StackLen(bs) <= cap && i < |bs|
    ensures StackLen(bs[..i + 1]) <= cap
    ensures Directory(bs, cap)[2 * i..2 * i + 2] == LE(cap - StackLen(bs[..i + 1]), 2)
    decreases |bs|
  {
    hide LE;
    var init := bs[..|bs| - 1];
    assert StackLen(init) <= StackLen(bs);
    var before, slot := Directory(init, cap), LE(cap - StackLen(bs), 2);
    assert Directory(bs, cap) == before + slot && |before| == 2 * |init|;
    hide Directory, StackLen;
    if i == |bs| - 1 {
      assert bs[..i + 1] == bs;
      SliceOfRight(before, slot, 0, 2);
    } else {
      DirectoryHolds(init, cap, i);
      assert init[..i + 1] == bs[..i + 1];
      SliceOfLeft(before, slot, 2 * i, 2 * i + 2);
    }
  }

  lemma PageParts(h: seq<byte>, d: seq<byte>, z: seq<byte>, t: seq<byte>)
    ensures h <= h + d + z + t
    ensures h + d + z + t == h + (d + (z + t))
    ensures h + d + z + t == (h + d + z) + t
  {
  }

  lemma EntryInside(front: seq<byte>, dir: seq<byte>, back: seq<byte>, at: nat, v: u16)
    requires at + 2 <= |dir| && dir[at..at + 2] == LE16(v)
    ensures U16At(front + (dir + back), |front| + at) == v
  {
    SliceOfRight(front, dir + back, at, at + 2);
    SliceOfLeft(dir, back, at, at + 2);
    U16AtLE16(front + (dir + back), |front| + at, v);
  }

  lemma HeadOfPage(head: seq<byte>, bs: seq<seq<byte>>, cap: nat)
    requires PageSize(head, bs) <= cap
    ensures head <= PageBody(head, bs, cap)
  {
    PageParts(head, Directory(bs, cap), Zeros(cap - PageSize(head, bs)), Stack(bs));
  }

  /** Reading a page back: the head is in front, and slot `i` leads to block `i`. */
  lemma PageReadsBack(head: seq<byte>, bs: seq<seq<byte>>, cap: nat, i: nat)
    requires PageSize(head, bs) <= cap < U16_LIMIT && i < |bs|
    ensures var body := PageBody(head, bs, cap);
            && head <= body
            && |head| + 2 * i + 2 <= cap
            && StackLen(bs[..i + 1]) <= cap
            && var off := U16At(body, |head| + 2 * i);
               && off == cap - StackLen(bs[..i + 1])
               && off + |bs[i]| <= cap
               && body[off..off + |bs[i]|] == bs[i]
  {
    var d, z, t := Directory(bs, cap), Zeros(cap - PageSize(head, bs)), Stack(bs);
    PageParts(head, d, z, t);
    DirectoryHolds(bs, cap, i);
    EntryInside(head, d, z + t, 2 * i, cap - StackLen(bs[..i + 1]));
    StackHolds(head + d + z, bs, i);
  }

  // ---------------------------------------------------------------------
  // Filling a page in place
  // ---------------------------------------------------------------------

  lemma SpliceMiddle(a: seq<byte>, b: seq<byte>, c: seq<byte>, x: seq<byte>)
    requires |x| == |b|
    ensures Splice(a + b + c, |a|, x) == a + x + c
  {
  }

  lemma ZerosSplit(a: nat, b: nat)
    ensures Zeros(a + b) == Zeros(a) + Zeros(b)
  {
  }

  /** Writing a block at the end of the free gap and an entry at its start moves both boundaries. */
  lemma FillGap(head: seq<byte>, d: seq<byte>, n: nat, gap: nat, t: seq<byte>, block: seq<byte>, e: seq<byte>)
    requires n == |e| + gap + |block|
    ensures var body := head + d + Zeros(n) + t;
            Splice(Splice(body, |head| + |d| + |e| + gap, block), |head| + |d|, e)
            == head + (d + e) + Zeros(gap) + (block + t)
  {
    var front, g := head + d, Zeros(gap);
    ZerosSplit(|e| + gap, |block|);
    ZerosSplit(|e|, gap);
    var left := front + Zeros(|e|) + g;
    assert front + Zeros(n) + t == left + Zeros(|block|) + t;
    SpliceMiddle(left, Zeros(|block|), t, block);
    var right := g + block + t;
    assert left + block + t == front + Zeros(|e|) + right;
    SpliceMiddle(front, Zeros(|e|), right, e);
    assert front + e + right == head + (d + e) + g + (block + t);
  }

  lemma Unfold(bs: seq<seq<byte>>, block: seq<byte>, cap: nat)
    ensures StackLen(bs + [block]) == StackLen(bs) + |block|
    ensures Stack(bs + [block]) == block + Stack(bs)
    ensures StackLen(bs) + |block| <= cap ==>
              Directory(bs + [block], cap) == Directory(bs, cap) + LE(cap - StackLen(bs) - |block|, 2)
  {
    assert (bs + [block])[..|bs|] == bs;
  }

  /** A page with one more block, taken apart. */
  lemma BodyWithBlock(head: seq<byte>, bs: seq<seq<byte>>, cap: nat, block: seq<byte>, off: u16)
    requires PageSize(head, bs + [block]) <= cap && off == cap - StackLen(bs) - |block|
    ensures PageBody(head, bs + [block], cap)
         == head + (Directory(bs, cap) + LE16(off)) + Zeros(cap - PageSize(head, bs + [block])) + (block + Stack(bs))
  {
    Unfold(bs, block, cap);
  }

  lemma Shape(head: seq<byte>, bs: seq<seq<byte>>, cap: nat, n: nat)
    requires PageSize(head, bs) <= cap && n == cap - PageSize(head, bs)
    ensures PageBody(head, bs, cap) == head + Directory(bs, cap) + Zeros(n) + Stack(bs)
  {
  }

  lemma FilledGap(body: seq<byte>, more: seq<byte>, head: seq<byte>, d: seq<byte>, n: nat, gap: nat,
                  t: seq<byte>, block: seq<byte>, off: u16, slot: nat)
    requires body == head + d + Zeros(n) + t
    requires more == head + (d + LE16(off)) + Zeros(gap) + (block + t)
    requires n == 2 + gap + |block| && slot == |head| + |d| && off == slot + 2 + gap
    ensures Splice(Splice(body, off, block), slot, LE16(off)) == more
  {
    FillGap(head, d, n, gap, t, block, LE16(off));
  }

  /** Writing one more block below the stack and its offset after the directory extends the page. */
  lemma AddBlock(head: seq<byte>, bs: seq<seq<byte>>, cap: nat, block: seq<byte>, off: u16)
    requires PageSize(head, bs + [block]) <= cap && off == cap - StackLen(bs) - |block|
    ensures PageSize(head, bs) <= cap && |head| + 2 * |bs| + 2 <= cap
    ensures Splice(Splice(PageBody(head, bs, cap), off, block), |head| + 2 * |bs|, LE16(off))
         == PageBody(head, bs + [block], cap)
  {
    hide Stack, Directory, StackLen, PageBody, Splice, LE;
    Unfold(bs, block, cap);
    var n, gap := cap - PageSize(head, bs), cap - PageSize(head, bs + [block]);
    Shape(head, bs, cap, n);
    BodyWithBlock(head, bs, cap, block, off);
    FilledGap(PageBody(head, bs, cap), PageBody(head, bs + [block], cap), head, Directory(bs, cap), n, gap,
              Stack(bs), block, off, |head| + 2 * |bs|);
  }

  lemma EmptyPage(was: seq<byte>, header: seq<byte>, prefix: seq<byte>)
    requires |header| + |prefix| <= |was|
    ensures Splice(header + Zeros(|was| - |header|), |header|, prefix)
         == PageBody(header + prefix, [], |was|)
  {
    ZerosSplit(|prefix|, |was| - |header| - |prefix|);
  }

  /** Header, zeroed rest, then the shared prefix. */
  method StartPage(body: array<byte>, header: seq<byte>, prefix: seq<byte>)
    requires |header| + |prefix| <= body.Length
    modifies body
    ensures body[..] == PageBody(header + prefix, [], body.Length)
  {
    CopyInto(body, 0, header);
    var b := |header|;
    while b < body.Length
      invariant |header| <= b <= body.Length
      invariant body[..b] == header + Zeros(b - |header|)
    {
      body[b] := 0;
      b := b + 1;
    }
    assert body[..] == body[..b];
    EmptyPage(body[..], header, prefix);
    CopyInto(body, |header|, prefix);
  }
}
