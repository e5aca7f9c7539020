/** Which header a crash leaves: exactly when it must be the acknowledged one or the one in flight. */
module Reopens {
  import opened Bytes
  import opened Nonces
  import opened HeaderSlots
  import opened AnchorProtocol

  /** Whatever becomes of the write or rename in flight, the file opens at the acknowledged header or the one in flight. */
  ghost predicate TwoWay(s: State)
  {
    forall fault: Fault, renameLost: bool :: OpensAtEither(s, CrashNow(s, fault, renameLost).disk)
  }

  function CrashNow(s: State, fault: Fault, renameLost: bool): State
  {
    Apply(Apply(s, DiskSettles(fault)), Crash(renameLost))
  }

  predicate OpensAtEither(s: State, disk: MainDb)
  {
    OpensAt(disk, s.acked) || (s.inFlight.Some? && OpensAt(disk, s.inFlight.value))
  }

  // ---------------------------------------------------------------------
  // What an unfinished write leaves behind
  // ---------------------------------------------------------------------

  /** What a write into the inactive slot, ended without an acknowledgement, leaves there: its own header if that landed,
      what was there before if nothing did, and nothing readable otherwise. */
  function Abandoned(s: State, h: Handle, left: Option<Header>): Option<Header>
    requires h.phase.Writing?
  {
    var now := s.disk.At(h.cursor.slot.Other());
    if now == Verifiable(h.phase.target) then Some(h.phase.target)
    else if now == h.phase.previous then left
    else None
  }

  /** The header in the way of the acknowledged one, followed along the steps. A refresh that failed after its bytes had
      landed leaves it; a later write replaces it, tears it or misses it; a crash settles what was in flight; an
      acknowledgement or an open ends it. */
  function Follow(s: State, left: Option<Header>, step: Step): Option<Header>
  {
    if step.Open? then if s.handle.None? then None else left
    else if s.handle.None? then left
    else
      var h := s.handle.value;
      match step
      case WriteFails => if h.phase.Writing? then Abandoned(s, h, left) else left
      case Crash(renameLost) =>
        (match h.phase
         case Writing(_, _, _) => Abandoned(s, h, left)
         case Swapped(image, _) => if renameLost then left else Some(image)
         case _ => left)
      case Acknowledge => if Apply(s, step) != s then None else left
      case SyncDir => if Apply(s, step) != s then None else left
      case _ => left
  }

  function LeftBehind(s: State, steps: seq<Step>): Option<Header>
  {
    if steps == [] then None
    else Follow(RunFrom(s, steps[..|steps| - 1]), LeftBehind(s, steps[..|steps| - 1]), steps[|steps| - 1])
  }

  /** The inactive slot as it is if the write or rename in flight comes to nothing. */
  function Underneath(s: State, h: Handle): Slot
  {
    match h.phase
    case Writing(_, _, previous) => previous
    case Swapped(_, replaced) => replaced.At(h.cursor.slot.Other())
    case _ => s.disk.At(h.cursor.slot.Other())
  }

  /** A header underneath, or in a store without a handle the one it opens at, that is newer than the acknowledged. */
  function Newer(s: State): Option<Header>
  {
    var x := if s.handle.Some? then Underneath(s, s.handle.value)
             else if OpenHeader(s.disk).Some? then Verifiable(OpenHeader(s.disk).value.0) else Unverifiable;
    if x.Verifiable? && x.header.seqNo > s.acked.seqNo then Some(x.header) else None
  }

  predicate Tracks(s: State, left: Option<Header>)
  {
    left == Newer(s)
  }

  lemma FollowTracks(s: State, left: Option<Header>, step: Step)
    requires Inv(s) && Tracks(s, left)
    ensures Tracks(Apply(s, step), Follow(s, left, step))
  {
    if s.handle.Some? && (step.Crash? || step.WriteFails?) {
      EndTracks(s, s.handle.value, left, step);
    }
  }

  /** The steps that end a write without an acknowledgement. */
  lemma EndTracks(s: State, h: Handle, left: Option<Header>, step: Step)
    requires s.handle == Some(h) && PhaseInv(s, h) && Tracks(s, left) && (step.Crash? || step.WriteFails?)
    ensures Tracks(Apply(s, step), Follow(s, left, step))
  {
  }

  lemma {:induction false} LeftBehindTracks(s: State, steps: seq<Step>)
    requires Inv(s) && Tracks(s, None)
    ensures Tracks(RunFrom(s, steps), LeftBehind(s, steps))
  {
    hide Apply, Follow, Inv, Tracks;
    if steps != [] {
      var init := steps[..|steps| - 1];
      LeftBehindTracks(s, init);
      RunKeepsInv(s, init);
      FollowTracks(RunFrom(s, init), LeftBehind(s, init), steps[|steps| - 1]);
    }
  }

  // ---------------------------------------------------------------------
  // The two-way choice
  // ---------------------------------------------------------------------

  lemma CrashDisk(s: State, h: Handle, fault: Fault, renameLost: bool)
    requires s.handle == Some(h)
    ensures CrashNow(s, fault, renameLost).disk ==
            match h.phase
            case Writing(target, _, previous) => s.disk.Put(h.cursor.slot.Other(), Landed(fault, previous, target))
            case Swapped(_, replaced) => if renameLost then replaced else s.disk
            case _ => s.disk
  {
  }

  lemma NothingNewer(s: State, h: Handle, fault: Fault, renameLost: bool)
    requires s.handle == Some(h) && PhaseInv(s, h)
    requires Newer(s).None? || Newer(s) == s.inFlight
    ensures OpensAtEither(s, CrashNow(s, fault, renameLost).disk)
  {
    hide Apply, CrashNow;
    CrashDisk(s, h, fault, renameLost);
  }

  lemma NewerWins(s: State, h: Handle)
    requires s.handle == Some(h) && PhaseInv(s, h) && Newer(s).Some? && Newer(s) != s.inFlight
    ensures !OpensAtEither(s, CrashNow(s, WriteLost, true).disk)
  {
    hide Apply, CrashNow;
    CrashDisk(s, h, WriteLost, true);
  }

  lemma NoHandle(s: State, fault: Fault, renameLost: bool)
    requires s.handle.None? && ClosedInv(s)
    ensures CrashNow(s, fault, renameLost) == s
    ensures OpensAtEither(s, s.disk) <==> Newer(s).None? || Newer(s) == s.inFlight
  {
  }

  lemma TwoWayHere(s: State)
    requires Inv(s)
    ensures TwoWay(s) <==> Newer(s).None? || Newer(s) == s.inFlight
  {
    hide PhaseInv, ClosedInv, Newer, OpensAtEither, CrashNow;
    if s.handle.None? {
      forall fault: Fault, renameLost: bool { NoHandle(s, fault, renameLost); }
      NoHandle(s, NoFault, false);
      assert CrashNow(s, NoFault, false) == s;
    } else if Newer(s).None? || Newer(s) == s.inFlight {
      forall fault: Fault, renameLost: bool ensures OpensAtEither(s, CrashNow(s, fault, renameLost).disk) {
        NothingNewer(s, s.handle.value, fault, renameLost);
      }
    } else {
      NewerWins(s, s.handle.value);
    }
  }

  /** After every run: whatever becomes of a write or rename in flight, the store opens at the acknowledged header or the
      one in flight, exactly when no unfinished write left another one behind. */
  lemma TwoWayIff(budget: u64, payload: seq<byte>, steps: seq<Step>)
    ensures var s, left := Run(budget, payload, steps), LeftBehind(Init(budget, payload), steps);
            TwoWay(s) <==> left.None? || left == s.inFlight
  {
    hide TwoWay, LeftBehind, Newer, Inv, RunFrom;
    RunReachesInv(budget, payload, steps);
    FreshTracks(budget, payload);
    LeftBehindTracks(Init(budget, payload), steps);
    TwoWayHere(Run(budget, payload, steps));
  }

  // ---------------------------------------------------------------------
  // Runs without a write of unknown outcome
  // ---------------------------------------------------------------------

  function Unsettle(s: State, unsettled: bool, step: Step): bool
  {
    if step.Open? then unsettled && s.handle.Some?
    else if s.handle.None? then unsettled
    else
      match step
      case WriteFails => unsettled || s.handle.value.phase.Writing?
      case Acknowledge => unsettled && Apply(s, step) == s
      case SyncDir => unsettled && Apply(s, step) == s
      case _ => unsettled
  }

  /** Some header write has failed with its outcome unknown since the last acknowledgement or open. */
  function Unsettled(s: State, steps: seq<Step>): bool
  {
    if steps == [] then false
    else Unsettle(RunFrom(s, steps[..|steps| - 1]), Unsettled(s, steps[..|steps| - 1]), steps[|steps| - 1])
  }

  /** A settled store holds nothing newer, except what a crash made of the header in flight. */
  predicate Settled(s: State, left: Option<Header>)
  {
    left.None? || (s.handle.None? && left == s.inFlight)
  }

  lemma SettledStep(s: State, left: Option<Header>, unsettled: bool, step: Step)
    requires Inv(s) && Tracks(s, left) && (unsettled || Settled(s, left))
    ensures Unsettle(s, unsettled, step) || Settled(Apply(s, step), Follow(s, left, step))
  {
    FollowTracks(s, left, step);
  }

  lemma {:induction false} SettledRun(s: State, steps: seq<Step>)
    requires Inv(s) && Tracks(s, None)
    ensures Unsettled(s, steps) || Settled(RunFrom(s, steps), LeftBehind(s, steps))
  {
    hide Apply, Follow, Inv, Tracks, Settled, Unsettle;
    if steps == [] {
      NothingLeft(s);
    } else {
      var init := steps[..|steps| - 1];
      SettledRun(s, init);
      LeftBehindTracks(s, init);
      RunKeepsInv(s, init);
      SettledStep(RunFrom(s, init), LeftBehind(s, init), Unsettled(s, init), steps[|steps| - 1]);
    }
  }

  lemma NothingLeft(s: State)
    ensures Settled(s, None)
  {
  }

  /** A run in which no header write fails is settled throughout. */
  lemma {:induction false} NoFailureSettles(s: State, steps: seq<Step>)
    requires forall i :: 0 <= i < |steps| ==> !steps[i].WriteFails?
    ensures !Unsettled(s, steps)
  {
    hide Apply, RunFrom;
    if steps != [] { NoFailureSettles(s, steps[..|steps| - 1]); }
  }

  /** An acknowledgement that publishes settles the store again. */
  lemma PublishingSettles(s: State, steps: seq<Step>, step: Step)
    requires step.Acknowledge? || step.SyncDir?
    requires Apply(RunFrom(s, steps), step) != RunFrom(s, steps)
    ensures !Unsettled(s, steps + [step])
  {
    hide RunFrom;
    assert (steps + [step])[..|steps|] == steps;
  }

  /** With no header write of unknown outcome since the last acknowledgement or open, the reopen is two-way. */
  lemma SettledRunsReopen(budget: u64, payload: seq<byte>, steps: seq<Step>)
    requires !Unsettled(Init(budget, payload), steps)
    ensures TwoWay(Run(budget, payload, steps))
  {
    hide TwoWay, LeftBehind, Inv, RunFrom, Unsettled;
    FreshTracks(budget, payload);
    SettledRun(Init(budget, payload), steps);
    TwoWayIff(budget, payload, steps);
  }

  lemma FreshTracks(budget: u64, payload: seq<byte>)
    ensures Inv(Init(budget, payload)) && Tracks(Init(budget, payload), None)
  {
  }

  /** A refresh whose sync fails, then a commit, then a crash before the commit's bytes land: the file opens at the
      failed refresh, which is neither the acknowledged header nor the commit. */
  lemma FailedRefreshWins(budget: u64, payload: seq<byte>, next: seq<byte>)
    requires next != payload
    ensures var s := Run(budget, payload, [BeginRefresh, DiskSettles(SyncFails), WriteFails, BeginCommit(next)]);
            && s.acked == Header(1, 0, payload) && s.inFlight == Some(Header(2, 0, next))
            && OpensAt(Apply(s, Crash(false)).disk, Header(2, 0, payload))
  {
    hide RunFrom;
    var s0, refresh, landed := Init(budget, payload), [BeginRefresh], [BeginRefresh, DiskSettles(SyncFails)];
    RunOne(s0, [], BeginRefresh);
    RunOne(s0, refresh, DiskSettles(SyncFails));
    RunOne(s0, landed, WriteFails);
    RunOne(s0, landed + [WriteFails], BeginCommit(next));
    assert [] + [BeginRefresh] == refresh && refresh + [DiskSettles(SyncFails)] == landed;
    assert landed + [WriteFails] + [BeginCommit(next)]
        == [BeginRefresh, DiskSettles(SyncFails), WriteFails, BeginCommit(next)];
  }

  lemma RunOne(s: State, steps: seq<Step>, step: Step)
    ensures RunFrom(s, steps + [step]) == Apply(RunFrom(s, steps), step)
    ensures RunFrom(s, []) == s
  {
    assert (steps + [step])[..|steps|] == steps;
  }
}
