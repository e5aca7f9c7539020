/** Advisory path locks: one in-process entry per lock file, and the single OS lock its holders share. */
module OsLock {
  import opened Bytes

  datatype LockKind = ExclusiveLock | SharedLock
  datatype LockState = Free | Exclusive | Shared(n: nat)
  datatype LockError = AlreadyLocked

  /** Join a held domain; `Ok(None)` means it is free and needs the OS lock. */
  function Joined(mode: LockState, kind: LockKind): Result<Option<LockState>, LockError>
  {
    if mode.Free? then Ok(None)
    else if kind.SharedLock? && mode.Shared? then Ok(Some(Shared(mode.n + 1)))
    else Err(AlreadyLocked)
  }

  /** The first holder's mode. */
  function Installed(kind: LockKind): LockState
  {
    if kind.ExclusiveLock? then Exclusive else Shared(1)
  }

  /** One hold given back. */
  function Left(mode: LockState, kind: LockKind): LockState
  {
    if kind.SharedLock? && mode.Shared? && mode.n > 1 then Shared(mode.n - 1) else Free
  }

  /** The entry's state, changed under its mutex. `holders` names the live handles. */
  class InProcLockEntry {
    var mode: LockState
    var os: bool
    ghost var holders: map<nat, LockKind>

    ghost predicate Valid()
      reads this
    {
      Agrees(mode, os, holders)
    }

    constructor ()
      ensures Valid() && mode == Free && holders == map[]
    {
      mode, os, holders := Free, false, map[];
    }

    method TryJoin(kind: LockKind, ghost handle: nat) returns (r: Result<bool, LockError>)
      requires Valid() && handle !in holders
      modifies this
      ensures Valid()
      ensures r == Ok(true) ==> kind.SharedLock? && holders == old(holders)[handle := kind]
      ensures r != Ok(true) ==> mode == old(mode) && os == old(os) && holders == old(holders)
      ensures r == Ok(false) <==> old(holders) == map[]
      ensures r.Err? <==> old(holders) != map[] && (kind.ExclusiveLock? || old(mode) == Exclusive)
    {
      FreeIffNoHandles(mode, os, holders);
      match Joined(mode, kind)
      case Ok(Some(joined)) =>
        JoinAgrees(mode, os, holders, handle);
        mode := joined;
        holders := holders[handle := kind];
        return Ok(true);
      case Ok(None) => return Ok(false);
      case Err(e) => return Err(e);
    }

    method Install(kind: LockKind, ghost handle: nat)
      requires Valid() && mode == Free
      modifies this
      ensures Valid() && os && holders == map[handle := kind]
    {
      InstallAgrees(kind, handle);
      mode, os, holders := Installed(kind), true, map[handle := kind];
    }

    method Leave(ghost handle: nat, kind: LockKind)
      requires Valid() && handle in holders && holders[handle] == kind
      modifies this
      ensures Valid() && holders == old(holders) - {handle}
      ensures os <==> holders != map[]
    {
      LeaveAgrees(mode, os, holders, handle);
      mode := Left(mode, kind);
      if mode.Free? { os := false; }
      holders := holders - {handle};
    }
  }

  /** Mode and OS lock say exactly what the live handles are. */
  ghost predicate Agrees(mode: LockState, os: bool, handles: map<nat, LockKind>)
  {
    && (os <==> handles != map[])
    && match mode
       case Free => handles == map[]
       case Exclusive => exists h :: handles == map[h := ExclusiveLock]
       case Shared(n) => n >= 1 && |handles| == n && forall h :: h in handles ==> handles[h].SharedLock?
  }

  lemma JoinAgrees(mode: LockState, os: bool, handles: map<nat, LockKind>, h: nat)
    requires Agrees(mode, os, handles) && mode.Shared? && h !in handles
    ensures Agrees(Shared(mode.n + 1), os, handles[h := SharedLock])
  {
    assert h in handles[h := SharedLock];
    assert handles[h := SharedLock].Keys == handles.Keys + {h};
  }

  lemma InstallAgrees(kind: LockKind, h: nat)
    ensures Agrees(Installed(kind), true, map[h := kind])
  {
    var one := map[h := kind];
    assert h in one;
    assert one.Keys == {h};
  }

  lemma LeaveAgrees(mode: LockState, os: bool, handles: map<nat, LockKind>, h: nat)
    requires Agrees(mode, os, handles) && h in handles
    ensures var left := Left(mode, handles[h]);
            Agrees(left, if left.Free? then false else os, handles - {h})
  {
    var rest := handles - {h};
    assert rest.Keys == handles.Keys - {h};
    match mode
    case Free =>
    case Exclusive =>
      var x :| handles == map[x := ExclusiveLock];
      assert h == x && rest == map[];
    case Shared(n) =>
      assert |rest| == n - 1;
      if n == 1 {
        assert rest == map[];
      } else {
        assert rest.Keys != {};
      }
  }

  // ---------------------------------------------------------------------
  // Interleavings of acquires and drops
  // ---------------------------------------------------------------------

  /** An acquire inside the gate: about to look at the entry, or waiting for the OS. */
  datatype Acquirer = Entered(handle: nat, kind: LockKind) | TakingOsLock(handle: nat, kind: LockKind)

  datatype State = State(mode: LockState, os: bool, handles: map<nat, LockKind>, gate: Option<Acquirer>, nextHandle: nat)

  datatype Step =
    | PassGate(kind: LockKind)
    | LookAtEntry
    | OsAnswers(granted: bool)
    | DropHandle(handle: nat)

  const INIT := State(Free, false, map[], None, 0)

  function Apply(s: State, step: Step): State
  {
    match step
    case PassGate(kind) =>
      if s.gate.None? then s.(gate := Some(Entered(s.nextHandle, kind)), nextHandle := s.nextHandle + 1) else s
    case LookAtEntry =>
      if s.gate.Some? && s.gate.value.Entered? then
        var a := s.gate.value;
        match Joined(s.mode, a.kind)
        case Ok(Some(joined)) => s.(mode := joined, handles := s.handles[a.handle := a.kind], gate := None)
        case Ok(None) => s.(gate := Some(TakingOsLock(a.handle, a.kind)))
        case Err(_) => s.(gate := None)
      else s
    case OsAnswers(granted) =>
      if s.gate.Some? && s.gate.value.TakingOsLock? then
        var a := s.gate.value;
        if granted
        then s.(mode := Installed(a.kind), os := true, handles := s.handles[a.handle := a.kind], gate := None)
        else s.(gate := None)
      else s
    case DropHandle(h) =>
      if h in s.handles then
        var left := Left(s.mode, s.handles[h]);
        s.(mode := left, os := if left.Free? then false else s.os, handles := s.handles - {h})
      else s
  }

  function Run(steps: seq<Step>): State
  {
    if steps == [] then INIT else Apply(Run(steps[..|steps| - 1]), steps[|steps| - 1])
  }

  ghost predicate Inv(s: State)
  {
    && Agrees(s.mode, s.os, s.handles)
    && (forall h :: h in s.handles ==> h < s.nextHandle)
    && (s.gate.Some? ==> s.gate.value.handle < s.nextHandle && s.gate.value.handle !in s.handles)
    && (s.gate.Some? && s.gate.value.TakingOsLock? ==> s.mode.Free?)
  }

  lemma StepKeepsInv(s: State, step: Step)
    requires Inv(s)
    ensures Inv(Apply(s, step))
  {
    hide Agrees;
    match step
    case PassGate(_) =>
    case LookAtEntry =>
      if s.gate.Some? && s.gate.value.Entered? && s.gate.value.kind.SharedLock? && s.mode.Shared? {
        JoinAgrees(s.mode, s.os, s.handles, s.gate.value.handle);
      }
    case OsAnswers(granted) =>
      if s.gate.Some? && s.gate.value.TakingOsLock? {
        FreeIffNoHandles(s.mode, s.os, s.handles);
        InstallAgrees(s.gate.value.kind, s.gate.value.handle);
      }
    case DropHandle(h) =>
      if h in s.handles {
        LeaveAgrees(s.mode, s.os, s.handles, h);
        FreeIffNoHandles(s.mode, s.os, s.handles);
      }
  }

  lemma FreeIffNoHandles(mode: LockState, os: bool, handles: map<nat, LockKind>)
    requires Agrees(mode, os, handles)
    ensures mode.Free? <==> handles == map[]
  {
    if mode.Exclusive? {
      var h :| handles == map[h := ExclusiveLock];
      assert h in handles;
    }
  }

  lemma {:induction false} RunKeepsInv(steps: seq<Step>)
    ensures Inv(Run(steps))
  {
    if steps != [] {
      RunKeepsInv(steps[..|steps| - 1]);
      StepKeepsInv(Run(steps[..|steps| - 1]), steps[|steps| - 1]);
    }
  }

  // ---------------------------------------------------------------------
  // What each step does to the holders
  // ---------------------------------------------------------------------

  /** Passing the gate takes a handle number no holder has. */
  lemma GateAdmitsOne(steps: seq<Step>, kind: LockKind)
    ensures var s, t := Run(steps), Apply(Run(steps), PassGate(kind));
            && (s.gate.Some? ==> t == s)
            && (s.gate.None? ==>
                  && t.gate.Some? && t.gate.value.Entered? && t.gate.value.kind == kind
                  && t.gate.value.handle !in s.handles && t.handles == s.handles && t.os == s.os)
  {
    RunKeepsInv(steps);
  }

  /** A holder joins at once exactly when it and all present holders share; the OS is asked exactly when there is none. */
  lemma LookDecides(steps: seq<Step>)
    requires Run(steps).gate.Some? && Run(steps).gate.value.Entered?
    ensures var s, t := Run(steps), Apply(Run(steps), LookAtEntry);
            var a := s.gate.value;
            var shares := a.kind.SharedLock? && forall h :: h in s.handles ==> s.handles[h].SharedLock?;
            && t.handles == (if s.handles != map[] && shares then s.handles[a.handle := a.kind] else s.handles)
            && t.gate == (if s.handles == map[] then Some(TakingOsLock(a.handle, a.kind)) else None)
            && t.os == s.os
  {
    hide Run;
    RunKeepsInv(steps);
    ModeCountsHandles(steps);
  }

  /** The first holder appears exactly when the OS granted its lock, and the gate opens either way. */
  lemma OsDecides(steps: seq<Step>, granted: bool)
    requires Run(steps).gate.Some? && Run(steps).gate.value.TakingOsLock?
    ensures var s, t := Run(steps), Apply(Run(steps), OsAnswers(granted));
            && t.gate.None?
            && t.handles == (if granted then map[s.gate.value.handle := s.gate.value.kind] else map[])
            && (t.os <==> granted)
  {
    hide Run;
    InstallsOnlyOnFree(steps);
  }

  /** Dropping a handle removes that holder and no other; the OS lock goes with the last. */
  lemma DropRemoves(steps: seq<Step>, h: nat)
    ensures var s, t := Run(steps), Apply(Run(steps), DropHandle(h));
            && t.handles == s.handles - {h} && t.gate == s.gate
            && (t.os <==> s.handles - {h} != map[])
  {
    hide Run;
    RunKeepsInv(steps);
    var s, t := Run(steps), Apply(Run(steps), DropHandle(h));
    if h !in s.handles { assert s.handles - {h} == s.handles; }
    StepKeepsInv(s, DropHandle(h));
    FreeIffNoHandles(t.mode, t.os, t.handles);
    FreeIffNoHandles(s.mode, s.os, s.handles);
  }

  /** An exclusive holder is alone. */
  lemma ExclusiveIsAlone(steps: seq<Step>, a: nat, b: nat)
    requires a in Run(steps).handles && b in Run(steps).handles && Run(steps).handles[a].ExclusiveLock?
    ensures a == b
  {
    RunKeepsInv(steps);
  }

  /** The mode counts the shared handles exactly, and the OS lock is held exactly while some handle lives. */
  lemma ModeCountsHandles(steps: seq<Step>)
    ensures var s := Run(steps);
            && (s.os <==> s.handles != map[])
            && (s.mode.Free? <==> s.handles == map[])
            && (s.mode.Shared? <==> s.handles != map[] && forall h :: h in s.handles ==> s.handles[h].SharedLock?)
            && (s.mode.Shared? ==> s.mode.n == |s.handles|)
  {
    RunKeepsInv(steps);
    var s := Run(steps);
    FreeIffNoHandles(s.mode, s.os, s.handles);
    if s.mode.Exclusive? {
      var h :| s.handles == map[h := ExclusiveLock];
      assert h in s.handles;
    }
  }

  /** The first holder is only ever recorded on a free domain: no handle was taken while the OS was asked. */
  lemma InstallsOnlyOnFree(steps: seq<Step>)
    requires Run(steps).gate.Some? && Run(steps).gate.value.TakingOsLock?
    ensures Run(steps).mode == Free && Run(steps).handles == map[] && !Run(steps).os
  {
    RunKeepsInv(steps);
  }
}
