/** Whole runs of the nonce anchor and A/B header protocol: opens, nonce issues, header writes that land, tear or
    are lost, compaction renames, and a crash at any point. */
module AnchorProtocol {
  import opened Arithmetic
  import opened Bytes
  import opened Nonces
  import opened HeaderSlots

  /** What the live handle has in flight. */
  datatype Phase =
    | Idle
    | Writing(target: Header, refresh: bool, previous: Slot)
    | ScratchReady(image: Header)
    | Swapped(image: Header, replaced: MainDb)

  /** `floor` is the anchor this handle's first header write must reach; `wrote` says one was acknowledged. */
  datatype Handle = Handle(gen: Gen, cursor: HeaderCursor, phase: Phase, floor: nat, wrote: bool)

  /** `acked` is the last header acknowledged or opened at; `inFlight` the newest one begun since.
      `issued` lists every counter ever handed out, in order. */
  datatype State = State(
    disk: MainDb,
    handle: Option<Handle>,
    issued: seq<u64>,
    acked: Header,
    inFlight: Option<Header>,
    writingOpens: nat)

  datatype Step =
    | Open(budget: u64)
    | Issue
    | BeginCommit(payload: seq<byte>)
    | BeginRefresh
    | DiskSettles(fault: Fault)
    | Acknowledge
    | WriteFails
    | WriteNeverStarted
    | SealScratch(payload: seq<byte>)
    | DropScratch
    | Rename
    | SyncDir
    | Crash(renameLost: bool)

  function Init(budget: u64, payload: seq<byte>): State
  {
    var first := Header(1, 0, payload);
    State(MainDb(Verifiable(first), Unverifiable),
          Some(Handle(FreshGen(budget), HeaderCursor(A, 1), Idle, 0, true)),
          [], first, None, 0)
  }

  // ---------------------------------------------------------------------
  // Steps
  // ---------------------------------------------------------------------

  function DoOpen(s: State, budget: u64): State
  {
    match OpenHeader(s.disk)
    case None => s
    case Some((h, slot)) =>
      if s.handle.Some? then s
      else
        var gen := RecoveredGen(h.anchor, budget);
        s.(handle := Some(Handle(gen, HeaderCursor(slot, h.seqNo), Idle, gen.Pending(), false)),
           acked := h, inFlight := None)
  }

  function DoIssue(s: State, h: Handle): State
  {
    if h.gen.CanIssue()
    then s.(handle := Some(h.(gen := h.gen.Issue())), issued := s.issued + [h.gen.next])
    else s
  }

  /** Start a header write into the inactive slot. A sequence at its maximum refuses. */
  function DoBegin(s: State, h: Handle, payload: seq<byte>, refresh: bool): State
  {
    if !h.phase.Idle? || h.cursor.seqNo == U64_MAX then s
    else
      var target := Header(h.cursor.seqNo + 1, h.gen.Pending(), payload);
      var inactive := s.disk.At(h.cursor.slot.Other());
      s.(handle := Some(h.(phase := Writing(target, refresh, inactive))), inFlight := Some(target))
  }

  /** A refresh takes its fields from the slot it supersedes and may not lower the anchor. */
  function DoBeginRefresh(s: State, h: Handle): State
  {
    var live := s.disk.At(h.cursor.slot);
    if live.Unverifiable? || h.gen.Pending() < live.header.anchor then s
    else DoBegin(s, h, live.header.payload, true)
  }

  /** While a write is in flight its slot can hold the old bytes, torn bytes, or the new header. */
  function DoSettle(s: State, h: Handle, fault: Fault): State
  {
    if h.phase.Writing?
    then s.(disk := s.disk.Put(h.cursor.slot.Other(), Landed(fault, h.phase.previous, h.phase.target)))
    else s
  }

  /** The new header is durable: the generator may issue past its anchor and the cursor moves to it. */
  function Publish(s: State, h: Handle, header: Header, slot: ActiveSlot): State
  {
    if !h.gen.CanCommit(header.anchor) then s.(handle := None)
    else
      s.(handle := Some(Handle(h.gen.(durable := header.anchor), HeaderCursor(slot, header.seqNo), Idle, h.floor, true)),
         acked := header, inFlight := None,
         writingOpens := s.writingOpens + if h.wrote then 0 else 1)
  }

  function DoAcknowledge(s: State, h: Handle): State
  {
    if h.phase.Writing? && s.disk.At(h.cursor.slot.Other()) == Verifiable(h.phase.target)
    then Publish(s, h, h.phase.target, h.cursor.slot.Other())
    else s
  }

  /** The outcome is unknown: a refresh leaves the handle usable, a commit poisons it. */
  function DoFail(s: State, h: Handle): State
  {
    if !h.phase.Writing? then s
    else if h.phase.refresh then s.(handle := Some(h.(phase := Idle)))
    else s.(handle := None)
  }

  /** A header write that failed before any byte of it could land leaves the handle usable, commit or refresh. */
  function DoNotStart(s: State, h: Handle): State
  {
    if h.phase.Writing? && s.disk.At(h.cursor.slot.Other()) == h.phase.previous
    then s.(handle := Some(h.(phase := Idle)))
    else s
  }

  function DoSeal(s: State, h: Handle, payload: seq<byte>): State
  {
    if !h.phase.Idle? || h.cursor.seqNo == U64_MAX then s
    else
      var image := Header(h.cursor.seqNo + 1, h.gen.Pending(), payload);
      s.(handle := Some(h.(phase := ScratchReady(image))), inFlight := Some(image))
  }

  function DoRename(s: State, h: Handle): State
  {
    if h.phase.ScratchReady?
    then s.(disk := MainDb(Verifiable(h.phase.image), Unverifiable),
            handle := Some(h.(phase := Swapped(h.phase.image, s.disk))))
    else s
  }

  /** Until the directory is synced a crash can bring the replaced file back. */
  function DoCrash(s: State, h: Handle, renameLost: bool): State
  {
    if h.phase.Swapped? && renameLost
    then s.(disk := h.phase.replaced, handle := None)
    else s.(handle := None)
  }

  function Apply(s: State, step: Step): State
  {
    if step.Open? then DoOpen(s, step.budget)
    else if s.handle.None? then s
    else
      var h := s.handle.value;
      match step
      case Open(_) => s
      case Issue => DoIssue(s, h)
      case BeginCommit(payload) => DoBegin(s, h, payload, false)
      case BeginRefresh => DoBeginRefresh(s, h)
      case DiskSettles(fault) => DoSettle(s, h, fault)
      case Acknowledge => DoAcknowledge(s, h)
      case WriteFails => DoFail(s, h)
      case WriteNeverStarted => DoNotStart(s, h)
      case SealScratch(payload) => DoSeal(s, h, payload)
      case DropScratch => if h.phase.ScratchReady? then s.(handle := Some(h.(phase := Idle)), inFlight := None) else s
      case Rename => DoRename(s, h)
      case SyncDir => if h.phase.Swapped? then Publish(s, h, h.phase.image, A) else s
      case Crash(lost) => DoCrash(s, h, lost)
  }

  /** The state after `steps` from `s`. A step that is not possible changes nothing. */
  function RunFrom(s: State, steps: seq<Step>): State
  {
    if steps == [] then s
    else Apply(RunFrom(s, steps[..|steps| - 1]), steps[|steps| - 1])
  }

  /** The state after `steps` from a fresh store. */
  function Run(budget: u64, payload: seq<byte>, steps: seq<Step>): State
  {
    RunFrom(Init(budget, payload), steps)
  }

  // ---------------------------------------------------------------------
  // The invariant
  // ---------------------------------------------------------------------

  predicate OldOrRefresh(x: Slot, acked: Header)
  {
    x.Verifiable? ==> x.header.seqNo < acked.seqNo || (IsRefreshOf(x.header, acked) && x.header.anchor < U64_MAX)
  }

  /** `slot` holds the acknowledged header; the other slot cannot mislead an open. */
  predicate Holds(f: MainDb, slot: ActiveSlot, acked: Header)
  {
    f.At(slot) == Verifiable(acked) && OldOrRefresh(f.At(slot.Other()), acked)
  }

  /** `header` is a legal successor of `acked` for handle `h`. */
  predicate Supersedes(header: Header, acked: Header, h: Handle)
  {
    && header.seqNo == acked.seqNo + 1
    && acked.anchor <= header.anchor <= h.gen.Pending()
    && h.floor <= header.anchor
  }

  predicate PhaseInv(s: State, h: Handle)
  {
    match h.phase
    case Idle => Holds(s.disk, h.cursor.slot, s.acked)
    case Writing(target, refresh, previous) =>
      && s.disk.At(h.cursor.slot) == Verifiable(s.acked)
      && OldOrRefresh(previous, s.acked)
      && s.disk.At(h.cursor.slot.Other()) in {previous, Unverifiable, Verifiable(target)}
      && Supersedes(target, s.acked, h)
      && (refresh ==> IsRefreshOf(target, s.acked))
      && s.inFlight == Some(target)
    case ScratchReady(image) =>
      && Holds(s.disk, h.cursor.slot, s.acked)
      && Supersedes(image, s.acked, h)
      && s.inFlight == Some(image)
    case Swapped(image, replaced) =>
      && s.disk == MainDb(Verifiable(image), Unverifiable)
      && Holds(replaced, h.cursor.slot, s.acked)
      && Supersedes(image, s.acked, h)
      && s.inFlight == Some(image)
  }

  predicate HandleInv(s: State, h: Handle)
  {
    && h.gen.WellFormed()
    && h.gen.durable == s.acked.anchor
    && h.cursor.seqNo == s.acked.seqNo
    && h.floor <= h.gen.Pending()
    && (!h.wrote ==> h.floor == Min(h.gen.durable + MAX_ANCHOR_BUDGET, U64_MAX - 1))
    && (forall n :: n in s.issued ==> n < h.gen.next)
    && PhaseInv(s, h)
  }

  /** What a store with no live handle guarantees the next open. */
  predicate ClosedInv(s: State)
  {
    && OpenHeader(s.disk).Some?
    && var (h, slot) := OpenHeader(s.disk).value;
       && (h == s.acked || s.inFlight == Some(h) || IsRefreshOf(h, s.acked))
       && s.acked.anchor <= h.anchor < U64_MAX
       && s.acked.seqNo <= h.seqNo
       && (s.disk.At(slot.Other()).Verifiable? ==> s.disk.At(slot.Other()).header.seqNo < h.seqNo)
  }

  predicate StrictlyIncreasing(xs: seq<u64>)
  {
    forall i, j :: 0 <= i < j < |xs| ==> xs[i] < xs[j]
  }

  predicate Inv(s: State)
  {
    && StrictlyIncreasing(s.issued)
    && (forall n :: n in s.issued ==> n <= COUNTER_MAX && n <= s.acked.anchor + MAX_ANCHOR_BUDGET)
    && Min(s.writingOpens * MAX_ANCHOR_BUDGET, U64_MAX - 1) <= s.acked.anchor
    && (if s.handle.Some? then HandleInv(s, s.handle.value) else ClosedInv(s))
  }

  lemma OpenKeepsInv(s: State, budget: u64)
    requires Inv(s) && s.handle.None?
    ensures Inv(DoOpen(s, budget))
  {
    var h := OpenHeader(s.disk).value.0;
    RecoveredWindowIsEmpty(h.anchor, budget);
  }

  lemma CrashKeepsInv(s: State, renameLost: bool)
    requires Inv(s) && s.handle.Some?
    ensures Inv(DoCrash(s, s.handle.value, renameLost))
  {
  }

  lemma PublishKeepsInv(s: State, h: Handle, header: Header, slot: ActiveSlot)
    requires Inv(s) && s.handle == Some(h)
    requires Supersedes(header, s.acked, h) && Holds(s.disk, slot, header)
    ensures Inv(Publish(s, h, header, slot))
    ensures Publish(s, h, header, slot).handle.Some? && Publish(s, h, header, slot).acked == header
  {
    assert h.gen.CanCommit(header.anchor);
  }

  lemma BeginKeepsInv(s: State, h: Handle, payload: seq<byte>)
    requires Inv(s) && s.handle == Some(h)
    ensures Inv(DoBegin(s, h, payload, false)) && Inv(DoBeginRefresh(s, h))
  {
  }

  lemma SettleKeepsInv(s: State, h: Handle, fault: Fault)
    requires Inv(s) && s.handle == Some(h)
    ensures Inv(DoSettle(s, h, fault))
  {
  }

  lemma AcknowledgeKeepsInv(s: State, h: Handle)
    requires Inv(s) && s.handle == Some(h)
    ensures Inv(DoAcknowledge(s, h))
  {
    hide Publish;
    if DoAcknowledge(s, h) != s { PublishKeepsInv(s, h, h.phase.target, h.cursor.slot.Other()); }
  }

  /** Sealing a scratch file, dropping it, renaming it over main.db, and syncing the directory. */
  lemma RepackKeepsInv(s: State, h: Handle, step: Step)
    requires Inv(s) && s.handle == Some(h) && (step.SealScratch? || step.DropScratch? || step.Rename? || step.SyncDir?)
    ensures Inv(Apply(s, step))
  {
    hide Publish;
    if step.SyncDir? && h.phase.Swapped? { PublishKeepsInv(s, h, h.phase.image, A); }
  }

  /** Every step keeps the invariant. */
  lemma StepKeepsInv(s: State, step: Step)
    requires Inv(s)
    ensures Inv(Apply(s, step))
  {
    hide Inv, DoOpen, DoIssue, DoBegin, DoBeginRefresh, DoSettle, DoAcknowledge, DoFail, DoNotStart;
    hide DoSeal, DoRename, DoCrash, Publish;
    if step.Open? {
      if s.handle.None? { OpenKeepsInv(s, step.budget); } else { OpenNeedsNoHandle(s, step.budget); }
    } else if s.handle.Some? {
      var h := s.handle.value;
      match step
      case Open(_) =>
      case Issue => IssueKeepsInv(s, h);
      case BeginCommit(payload) => BeginKeepsInv(s, h, payload);
      case BeginRefresh => BeginKeepsInv(s, h, []);
      case DiskSettles(fault) => SettleKeepsInv(s, h, fault);
      case Acknowledge => AcknowledgeKeepsInv(s, h);
      case WriteFails => FailKeepsInv(s, h);
      case WriteNeverStarted => FailKeepsInv(s, h);
      case SealScratch(_) => RepackKeepsInv(s, h, step);
      case DropScratch => RepackKeepsInv(s, h, step);
      case Rename => RepackKeepsInv(s, h, step);
      case SyncDir => RepackKeepsInv(s, h, step);
      case Crash(lost) => CrashKeepsInv(s, lost);
    }
  }

  lemma OpenNeedsNoHandle(s: State, budget: u64)
    requires s.handle.Some?
    ensures DoOpen(s, budget) == s
  {
  }

  lemma IssueKeepsInv(s: State, h: Handle)
    requires Inv(s) && s.handle == Some(h)
    ensures Inv(DoIssue(s, h))
  {
    assert forall i :: 0 <= i < |s.issued| ==> s.issued[i] in s.issued;
  }

  lemma FailKeepsInv(s: State, h: Handle)
    requires Inv(s) && s.handle == Some(h)
    ensures Inv(DoFail(s, h)) && Inv(DoNotStart(s, h))
  {
    if h.phase.Writing? && !h.phase.refresh {
      CrashKeepsInv(s, false);
    }
  }

  lemma {:induction false} RunKeepsInv(s: State, steps: seq<Step>)
    requires Inv(s)
    ensures Inv(RunFrom(s, steps))
  {
    if steps != [] {
      RunKeepsInv(s, steps[..|steps| - 1]);
      StepKeepsInv(RunFrom(s, steps[..|steps| - 1]), steps[|steps| - 1]);
    }
  }

  lemma RunReachesInv(budget: u64, payload: seq<byte>, steps: seq<Step>)
    ensures Inv(Run(budget, payload, steps))
  {
    RunKeepsInv(Init(budget, payload), steps);
  }

  // ---------------------------------------------------------------------
  // Whole-run theorems
  // ---------------------------------------------------------------------

  /** No counter is issued twice or past 2^48 - 1, so no two sealed pages share a nonce. */
  lemma NoNonceIsReused(budget: u64, payload: seq<byte>, steps: seq<Step>, prefix: seq<byte>)
    requires |prefix| == 6
    ensures var issued := Run(budget, payload, steps).issued;
            && (forall n :: n in issued ==> n <= COUNTER_MAX)
            && (forall i, j :: 0 <= i < j < |issued| ==>
                  issued[i] < issued[j] && FromParts(prefix, issued[i]) != FromParts(prefix, issued[j]))
  {
    hide RunFrom, FromParts, HandleInv, ClosedInv;
    var issued := Run(budget, payload, steps).issued;
    RunReachesInv(budget, payload, steps);
    forall i, j | 0 <= i < j < |issued|
      ensures issued[i] < issued[j] && FromParts(prefix, issued[i]) != FromParts(prefix, issued[j])
    {
      assert issued[j] in issued;
      NonceIdentity(prefix, issued[i], prefix, issued[j]);
    }
  }

  /** Crash after any run: the file opens, at the last acknowledged header, the one in flight, or a refresh of the
      acknowledged one, and never with a smaller anchor. */
  lemma ReopenFindsAckedOrInFlight(budget: u64, payload: seq<byte>, steps: seq<Step>, renameLost: bool)
    ensures var s := Run(budget, payload, steps);
            var crashed := Apply(s, Crash(renameLost));
            && OpenHeader(crashed.disk).Some?
            && var h := OpenHeader(crashed.disk).value.0;
               && (h == s.acked || s.inFlight == Some(h) || IsRefreshOf(h, s.acked))
               && h.anchor >= s.acked.anchor
               && (forall n :: n in s.issued ==> n <= h.anchor + MAX_ANCHOR_BUDGET)
  {
    var s := Run(budget, payload, steps);
    RunReachesInv(budget, payload, steps);
    StepKeepsInv(s, Crash(renameLost));
  }

  lemma StepRaisesAcked(s: State, step: Step)
    requires Inv(s)
    ensures Apply(s, step).acked.anchor >= s.acked.anchor
    ensures Apply(s, step).acked.seqNo >= s.acked.seqNo
    ensures s.issued <= Apply(s, step).issued
  {
  }

  /** The acknowledged anchor and sequence never move down, across crashes and reopens. */
  lemma {:induction false} AckedNeverRegresses(s: State, steps: seq<Step>)
    requires Inv(s)
    ensures RunFrom(s, steps).acked.anchor >= s.acked.anchor
    ensures RunFrom(s, steps).acked.seqNo >= s.acked.seqNo
    ensures s.issued <= RunFrom(s, steps).issued
  {
    if steps != [] {
      AckedNeverRegresses(s, steps[..|steps| - 1]);
      RunKeepsInv(s, steps[..|steps| - 1]);
      StepRaisesAcked(RunFrom(s, steps[..|steps| - 1]), steps[|steps| - 1]);
    }
  }

  /** Steps that publish nothing. */
  predicate PublishesNothing(step: Step)
  {
    !step.BeginCommit? && !step.SealScratch?
  }

  /** No header in flight names other roots than the acknowledged one. */
  predicate NoCommitInFlight(s: State)
  {
    s.inFlight.Some? ==> s.inFlight.value.payload == s.acked.payload
  }

  lemma QuietStep(s: State, step: Step)
    requires Inv(s) && NoCommitInFlight(s) && PublishesNothing(step)
    ensures NoCommitInFlight(Apply(s, step))
    ensures Apply(s, step).acked.payload == s.acked.payload
  {
  }

  lemma QuietCrash(s: State, renameLost: bool)
    requires Inv(s) && NoCommitInFlight(s)
    ensures var crashed := Apply(s, Crash(renameLost));
            OpenHeader(crashed.disk).Some? && OpenHeader(crashed.disk).value.0.payload == s.acked.payload
  {
    StepKeepsInv(s, Crash(renameLost));
  }

  /** Refreshes, torn writes, crashes and reopens never move the committed roots. */
  lemma {:induction false} RefreshesMoveNoRoots(s: State, steps: seq<Step>, renameLost: bool)
    requires Inv(s) && NoCommitInFlight(s)
    requires forall i :: 0 <= i < |steps| ==> PublishesNothing(steps[i])
    ensures NoCommitInFlight(RunFrom(s, steps)) && Inv(RunFrom(s, steps))
    ensures RunFrom(s, steps).acked.payload == s.acked.payload
    ensures var crashed := Apply(RunFrom(s, steps), Crash(renameLost));
            OpenHeader(crashed.disk).Some? && OpenHeader(crashed.disk).value.0.payload == s.acked.payload
  {
    hide Apply, Inv, OpenHeader;
    if steps != [] {
      RefreshesMoveNoRoots(s, steps[..|steps| - 1], renameLost);
      QuietStep(RunFrom(s, steps[..|steps| - 1]), steps[|steps| - 1]);
    }
    RunKeepsInv(s, steps);
    QuietCrash(RunFrom(s, steps), renameLost);
  }

  /** Since `start`, either nothing was acknowledged or the anchor is past the whole skipped window. */
  predicate PastTheWindow(s: State, start: State)
  {
    var target := Min(start.acked.anchor + MAX_ANCHOR_BUDGET, U64_MAX - 1);
    && s.writingOpens >= start.writingOpens
    && (s.writingOpens > start.writingOpens ==> s.acked.anchor >= target)
    && (s.handle.Some? ==>
          s.handle.value.floor == target && (s.handle.value.wrote <==> s.writingOpens > start.writingOpens))
  }

  lemma WindowStep(s: State, start: State, step: Step)
    requires Inv(s) && PastTheWindow(s, start) && !step.Open?
    ensures PastTheWindow(Apply(s, step), start)
  {
    StepRaisesAcked(s, step);
  }

  /** The first header a reopened handle makes durable lifts the anchor by at least 2^20. */
  lemma {:induction false} WritingReopenRaisesAnchor(s: State, budget: u64, steps: seq<Step>)
    requires Inv(s) && s.handle.None?
    requires forall i :: 0 <= i < |steps| ==> !steps[i].Open?
    ensures var start := Apply(s, Open(budget));
            && Inv(start)
            && start.handle.Some?
            && PastTheWindow(RunFrom(start, steps), start)
  {
    var start := Apply(s, Open(budget));
    StepKeepsInv(s, Open(budget));
    if steps != [] {
      WritingReopenRaisesAnchor(s, budget, steps[..|steps| - 1]);
      RunKeepsInv(start, steps[..|steps| - 1]);
      WindowStep(RunFrom(start, steps[..|steps| - 1]), start, steps[|steps| - 1]);
    }
  }

  /** While the anchor is inside the 48-bit space, at most 2^28 - 1 reopens have written a header. */
  lemma CounterLifetime(budget: u64, payload: seq<byte>, steps: seq<Step>)
    ensures var s := Run(budget, payload, steps);
            s.acked.anchor <= COUNTER_MAX ==> s.writingOpens < 0x1000_0000
  {
    RunReachesInv(budget, payload, steps);
  }
}
