/** The two header slots of main.db, and the writes that alternate between them. */
module HeaderSlots {
  import opened Bytes
  import opened Nonces

  datatype ActiveSlot = A | B {
    function Other(): ActiveSlot { if A? then B else A }
  }

  /** A header's `seq`, its nonce anchor, and every other field (the committed roots). */
  datatype Header = Header(seqNo: u64, anchor: u64, payload: seq<byte>)

  /** What opening a slot can tell: a header that authenticates, or nothing. */
  datatype Slot = Verifiable(header: Header) | Unverifiable

  datatype MainDb = MainDb(a: Slot, b: Slot) {
    function At(s: ActiveSlot): Slot { if s.A? then a else b }

    function Put(s: ActiveSlot, x: Slot): (f: MainDb)
      ensures f.At(s) == x && f.At(s.Other()) == At(s.Other())
    {
      if s.A? then this.(a := x) else this.(b := x)
    }
  }

  datatype HeaderCursor = HeaderCursor(slot: ActiveSlot, seqNo: u64)

  /** The slot-selection rule: the greater valid `seq` wins, slot A on a tie. */
  function OpenHeader(f: MainDb): Option<(Header, ActiveSlot)>
  {
    match (f.a, f.b)
    case (Verifiable(a), Verifiable(b)) => if a.seqNo >= b.seqNo then Some((a, A)) else Some((b, B))
    case (Verifiable(a), Unverifiable) => Some((a, A))
    case (Unverifiable, Verifiable(b)) => Some((b, B))
    case (Unverifiable, Unverifiable) => None
  }

  /** A file opens exactly when a slot authenticates: at the newest header it has, in slot A if both are as new. */
  lemma OpensAtNewest(f: MainDb)
    ensures OpenHeader(f).Some? <==> f.a.Verifiable? || f.b.Verifiable?
    ensures OpenHeader(f).Some? ==>
              var (h, slot) := OpenHeader(f).value;
              && f.At(slot) == Verifiable(h)
              && (f.a.Verifiable? ==> f.a.header.seqNo <= h.seqNo)
              && (f.b.Verifiable? ==> f.b.header.seqNo <= h.seqNo)
              && (f.a.Verifiable? && f.a.header.seqNo == h.seqNo ==> slot == A)
  {
  }

  /** The header the file opens at. */
  predicate OpensAt(f: MainDb, h: Header)
  {
    OpenHeader(f).Some? && OpenHeader(f).value.0 == h
  }

  /** `cursor` describes the header that `f` opens at. */
  predicate Authoritative(f: MainDb, cursor: HeaderCursor)
  {
    OpenHeader(f).Some? && OpenHeader(f).value.1 == cursor.slot && OpenHeader(f).value.0.seqNo == cursor.seqNo
  }

  /** `g` republishes `h` with a later sequence and a raised anchor; nothing else moved. */
  predicate IsRefreshOf(g: Header, h: Header)
  {
    g.seqNo == h.seqNo + 1 && g.anchor >= h.anchor && g.payload == h.payload
  }

  datatype HeaderError = NotStarted | OutcomeUnknown | Unreadable | Invalid | SequenceOverflow

  /** How the backend can answer one header write. */
  datatype Fault = NoFault | OpenFails | WriteTorn | WriteLost | SyncFails

  function Landed(fault: Fault, previous: Slot, h: Header): Slot
  {
    match fault
    case NoFault => Verifiable(h)
    case SyncFails => Verifiable(h)
    case WriteTorn => Unverifiable
    case WriteLost => previous
    case OpenFails => previous
  }

  /** The header page pair as the file object both writers update. */
  class HeaderFile {
    var slots: MainDb

    /** A fresh file: the supplied header in slot A, an all-zero slot B that cannot authenticate. */
    constructor Bootstrap(initial: Header)
      ensures slots == MainDb(Verifiable(initial), Unverifiable)
      ensures OpenHeader(slots) == Some((initial, A))
    {
      slots := MainDb(Verifiable(initial), Unverifiable);
    }

    /** Write `fields` into the slot that is not `previous`; the authoritative slot is never touched. */
    method CommitHeader(fields: Header, previous: ActiveSlot, fault: Fault) returns (r: Result<ActiveSlot, HeaderError>)
      modifies this
      ensures slots.At(previous) == old(slots.At(previous))
      ensures slots.At(previous.Other()) == Landed(fault, old(slots.At(previous.Other())), fields)
      ensures fault.NoFault? || fault.SyncFails? ==> slots.At(previous.Other()) == Verifiable(fields)
      ensures fault.WriteTorn? ==> slots.At(previous.Other()).Unverifiable?
      ensures fault.WriteLost? || fault.OpenFails? ==> slots == old(slots)
      ensures r.Ok? <==> fault.NoFault?
      ensures r == Err(NotStarted) <==> fault.OpenFails?
      ensures r.Ok? ==> r.value == previous.Other() && slots.At(r.value) == Verifiable(fields)
      ensures r.Err? ==> r.error in {NotStarted, OutcomeUnknown}
    {
      var next := previous.Other();
      match fault {
        case OpenFails =>
          return Err(NotStarted);
        case WriteTorn =>
          slots := slots.Put(next, Unverifiable);
          return Err(OutcomeUnknown);
        case WriteLost =>
          return Err(OutcomeUnknown);
        case SyncFails =>
          slots := slots.Put(next, Verifiable(fields));
          return Err(OutcomeUnknown);
        case NoFault =>
          slots := slots.Put(next, Verifiable(fields));
          return Ok(next);
      }
    }

    /** The inactive slot holds an older header, a refresh of the live one some earlier attempt left, or nothing. */
    ghost predicate Live(cursor: HeaderCursor)
      reads this
    {
      && slots.At(cursor.slot).Verifiable? && slots.At(cursor.slot).header.seqNo == cursor.seqNo
      && var other := slots.At(cursor.slot.Other());
         other.Verifiable? ==>
           other.header.seqNo < cursor.seqNo || IsRefreshOf(other.header, slots.At(cursor.slot).header)
    }

    /** Republish the live header with a raised anchor. Whatever the backend does, the file still opens at
        the old header, at this refresh of it, or at a refresh some earlier failed attempt left behind. */
    method RefreshAnchor(cursor: HeaderCursor, anchor: u64, fault: Fault) returns (r: Result<HeaderCursor, HeaderError>)
      modifies this
      ensures slots.At(cursor.slot) == old(slots.At(cursor.slot))
      ensures old(slots.At(cursor.slot).Unverifiable?) ==> r == Err(Unreadable) && slots == old(slots)
      ensures r.Ok? <==> old(slots.At(cursor.slot)).Verifiable? && old(slots.At(cursor.slot)).header.anchor <= anchor
                         && cursor.seqNo < U64_MAX && fault.NoFault?
      ensures old(slots.At(cursor.slot).Verifiable?) ==>
                var live := old(slots.At(cursor.slot).header);
                && (r == Err(Invalid) <==> anchor < live.anchor)
                && (r == Err(SequenceOverflow) <==> anchor >= live.anchor && cursor.seqNo == U64_MAX)
                && (r.Ok? ==> r.value == HeaderCursor(cursor.slot.Other(), cursor.seqNo + 1))
                && (r.Ok? ==> slots.At(r.value.slot) == Verifiable(Header(cursor.seqNo + 1, anchor, live.payload)))
      ensures old(Live(cursor)) ==>
                var live := old(slots.At(cursor.slot).header);
                && (exists h: Header :: OpensAt(slots, h) && (h == live || IsRefreshOf(h, live)))
                && (r.Ok? ==> Authoritative(slots, r.value))
                && (r.Ok? ==> OpensAt(slots, Header(cursor.seqNo + 1, anchor, live.payload)))
    {
      if slots.At(cursor.slot).Unverifiable? { return Err(Unreadable); }
      var live := slots.At(cursor.slot).header;
      if anchor < live.anchor {
        assert Live(cursor) ==> OpensAt(slots, live) || OpensAt(slots, slots.At(cursor.slot.Other()).header);
        return Err(Invalid);
      }
      if cursor.seqNo == U64_MAX {
        assert Live(cursor) ==> OpensAt(slots, live);
        return Err(SequenceOverflow);
      }
      var fields := Header(cursor.seqNo + 1, anchor, live.payload);
      var slot := CommitHeader(fields, cursor.slot, fault);
      if slot.Err? {
        assert old(Live(cursor)) ==> OpensAt(slots, live) || OpensAt(slots, slots.At(cursor.slot.Other()).header);
        return Err(slot.error);
      }
      assert old(Live(cursor)) ==> OpensAt(slots, fields);
      return Ok(HeaderCursor(slot.value, fields.seqNo));
    }
  }
}
