/** The on-disk formats, field by field and offset by offset. */
module Formats {
  import opened Bytes
  import opened NodeLayout
  import opened SlottedPage
  import opened Leaves
  import opened Internals
  import L = LeafCodec
  import I = InternalCodec
  import J = Journal

  // ---------------------------------------------------------------------
  // Node pages
  // ---------------------------------------------------------------------

  /** Kind, a zero, slot count, prefix length, two zeros, left sibling, and the field leaves and internal nodes share. */
  lemma NodeHeaderFormat(h: NodeHeader)
    ensures var s := HeaderBytes(h);
            && |s| == 24 && s[0] == (if h.kind.LeafNode? then 1 else 0) && s[1] == 0
            && s[2..4] == LE(h.slotCount, 2) && s[4..6] == LE(h.prefixLen, 2) && s[6..8] == LE(0, 2)
            && s[8..16] == LE(h.leftSibling, 8) && s[16..24] == LE(h.dualUse, 8)
  {
    hide LE;
    SliceOfRight(HeaderBytes(h)[..16], LE(h.dualUse, 8), 0, 8);
  }

  /** Suffix length, suffix, then the value: its length and bytes, or 0xFFFF, the total length and the root page. */
  lemma LeafRecordFormat(r: Record, p: nat)
    requires p <= |r.key|
    ensures var s, n := L.RecordBytes(r, p), |r.key| - p;
            && |s| == 2 + n + (if r.value.Inline? then 2 + |r.value.bytes| else 18)
            && s[0..2] == LE(n, 2) && s[2..2 + n] == r.key[p..]
            && (r.value.Inline? ==> s[2 + n..4 + n] == LE(|r.value.bytes|, 2) && s[4 + n..] == r.value.bytes)
            && (r.value.Overflow? ==>
                  && s[2 + n..4 + n] == LE(0xFFFF, 2) && s[4 + n..12 + n] == LE(r.value.totalLen, 8)
                  && s[12 + n..20 + n] == LE(r.value.rootPageId, 8))
  {
    hide LE;
    var n, head, value := |r.key| - p, LE(|r.key| - p, 2) + r.key[p..], L.ValueBytes(r.value);
    SliceOfLeft(head, value, 0, 2);
    SliceOfLeft(head, value, 2, 2 + n);
    SliceOfRight(head, value, 0, 2);
    if r.value.Inline? {
      SliceOfRight(head, value, 2, |value|);
    } else {
      SliceOfRight(head, value, 2, 10);
      SliceOfRight(head, value, 10, 18);
    }
  }

  /** Key length, key, right child. */
  lemma SeparatorFormat(e: I.Separator)
    ensures var s, n := I.EntryBytes(e), |e.key|;
            |s| == 10 + n && s[0..2] == LE(n, 2) && s[2..2 + n] == e.key && s[2 + n..10 + n] == LE(e.child, 8)
  {
    hide LE;
  }

  /** The two bytes at `at` hold `off`, and `block` lies there. */
  predicate SlotLeadsTo(body: seq<byte>, at: nat, off: int, block: seq<byte>)
  {
    && at + 2 <= |body| && 0 <= off && off + |block| <= |body|
    && U16At(body, at) == off && body[off..off + |block|] == block
  }

  /** A leaf page begins with its header and the shared prefix. */
  lemma LeafPageHead(leaf: Leaf, cap: nat)
    requires L.Fitting(leaf, cap)
    ensures var body, p := L.EncodedBody(leaf, cap), LcpLen(leaf.records);
            && |body| == cap >= 24 + p && |leaf.records| < U16_LIMIT && p < U16_LIMIT
            && body[..24] == HeaderBytes(NodeHeader(LeafNode, |leaf.records|, p, leaf.leftSibling, leaf.rightSibling))
            && body[24..24 + p] == Lcp(leaf.records)
  {
    hide RecordsSize, PageBody, HeaderBytes, Lcp;
    L.FittingBounds(leaf, cap);
    var head, bs := L.LeafHead(leaf), L.Blocks(leaf.records, LcpLen(leaf.records));
    HeadOfPage(head, bs, cap);
    Front(PageBody(head, bs, cap), HeaderBytes(L.LeafHeader(leaf)), Lcp(leaf.records));
  }

  lemma Front(body: seq<byte>, a: seq<byte>, b: seq<byte>)
    requires a + b <= body
    ensures body[..|a|] == a && body[|a|..|a| + |b|] == b
  {
    assert body[..|a| + |b|] == a + b;
  }

  /** Then one offset per record, and the records stacked down from the page's end in order. */
  lemma LeafPageSlot(leaf: Leaf, cap: nat, i: nat)
    requires L.Fitting(leaf, cap) && i < |leaf.records|
    ensures LcpLen(leaf.records) <= |leaf.records[i].key|
    ensures var p := LcpLen(leaf.records);
            SlotLeadsTo(L.EncodedBody(leaf, cap), 24 + p + 2 * i, cap - RecordsSize(leaf.records[..i + 1], p),
                        L.RecordBytes(leaf.records[i], p))
  {
    hide RecordsSize, PageBody, HeaderBytes, U16At, L.RecordBytes, Lcp;
    var rs, p := leaf.records, LcpLen(leaf.records);
    L.FittingBounds(leaf, cap);
    var head, bs := L.LeafHead(leaf), L.Blocks(rs, p);
    PageReadsBack(head, bs, cap, i);
    L.BlocksSize(rs[..i + 1], p);
    assert L.Blocks(rs[..i + 1], p) == bs[..i + 1];
  }

  /** An internal page begins with its header, the leftmost child in the shared field, and has no prefix. */
  lemma InternalPageHead(node: I.Pointers, cap: nat)
    requires I.Fitting(node, cap)
    ensures var body := I.EncodedBody(node, cap);
            && |body| == cap >= 24 && |node.entries| < U16_LIMIT
            && body[..24] == HeaderBytes(NodeHeader(InternalNode, |node.entries|, 0, 0, node.leftmost))
  {
    hide EntriesSize, PageBody, HeaderBytes;
    I.FittingBounds(node, cap);
    var head, bs := I.InternalHead(node), I.Blocks(node.entries);
    HeadOfPage(head, bs, cap);
    Front(PageBody(head, bs, cap), HeaderBytes(I.InternalHeader(node)), []);
  }

  /** Then one offset per separator, and the separators stacked down from the page's end in order. */
  lemma InternalPageSlot(node: I.Pointers, cap: nat, i: nat)
    requires I.Fitting(node, cap) && i < |node.entries|
    ensures SlotLeadsTo(I.EncodedBody(node, cap), 24 + 2 * i, cap - EntriesSize(node.entries[..i + 1]),
                        I.EntryBytes(node.entries[i]))
  {
    hide EntriesSize, PageBody, HeaderBytes, U16At, I.EntryBytes;
    var es := node.entries;
    I.FittingBounds(node, cap);
    var head, bs := I.InternalHead(node), I.Blocks(es);
    PageReadsBack(head, bs, cap, i);
    I.BlocksSize(es[..i + 1]);
    assert I.Blocks(es[..i + 1]) == bs[..i + 1];
  }

  // ---------------------------------------------------------------------
  // The journal
  // ---------------------------------------------------------------------

  /** Target commit, action count, then the actions. */
  lemma JournalRecordFormat(r: J.Record)
    ensures var s := J.RecordBytes(r);
            && s[0..8] == LE(r.target, 8)
            && s[8..12] == LE(if |r.actions| < 0x1_0000_0000 then |r.actions| else 0xFFFF_FFFF, 4)
            && s[12..] == J.ActionsBytes(r.actions)
  {
    hide LE, J.ActionsBytes;
    SliceOfRight(LE64(r.target) + LE32(J.Count(|r.actions|)), J.ActionsBytes(r.actions), 0, |J.ActionsBytes(r.actions)|);
  }

  /** A promotion is tagged 1 and names the segment; a tombstone is tagged 2 and names segment and commit. */
  lemma ActionFormat(a: J.Action, rest: seq<J.Action>)
    ensures var s := J.ActionBytes(a);
            && s[1..17] == a.segmentId
            && (a.Promote? ==> |s| == 17 && s[0] == 1)
            && (a.Tombstone? ==> |s| == 25 && s[0] == 2 && s[17..25] == LE(a.commit, 8))
            && J.ActionsBytes([a] + rest) == s + J.ActionsBytes(rest)
  {
    hide LE;
    assert ([a] + rest)[1..] == rest;
  }

  /** The first header word carries the id's first eight bytes, the second its last eight. */
  lemma JournalIdFormat(id: J.SegmentId)
    ensures LE(J.EncodeJournalId(id).0, 8) == id[0..8] && LE(J.EncodeJournalId(id).1, 8) == id[8..16]
  {
    LEOfFromLE(id[0..8]);
    LEOfFromLE(id[8..16]);
  }

  /** The page stream: record length, record, zeros to a whole number of pages. */
  lemma JournalStreamFormat(record: seq<byte>, cap: nat)
    requires cap > 0 && |record| < U32_LIMIT
    ensures var s := J.Stream(record, cap);
            && 4 + |record| <= |s| < 4 + |record| + cap && s[0..4] == LE(|record|, 4) && s[4..4 + |record|] == record
            && forall i :: 4 + |record| <= i < |s| ==> s[i] == 0
  {
    hide LE;
    J.CoversAll(4 + |record|, cap);
    NoSparePage(4 + |record|, cap);
  }

  lemma NoSparePage(n: nat, cap: nat)
    requires cap > 0
    ensures (n + cap - 1) / cap * cap < n + cap
  {
    var x := n + cap - 1;
    assert x == x / cap * cap + x % cap;
  }
}
