/** Per-file write ordering: a registry of weakly held gates, under every interleaving. */
module WriteOrder {
  import opened Bytes

  datatype FileIdentity = FileIdentity(volume: u64, index: u64)

  /** A gate and everything that keeps it alive: handles, queued entries, and the running operation. */
  datatype Gate = Gate(identity: FileIdentity, handles: set<nat>, waiting: seq<nat>, turn: Option<nat>) {
    predicate Live()
    {
      handles != {} || waiting != [] || turn.Some?
    }
  }

  /**
   * `registry` holds a weak reference per file. A gate that loses its last owner sits in `dropping` until
   * its destructor gets the registry lock; opens can run in between.
   */
  datatype State = State(gates: map<nat, Gate>, registry: map<FileIdentity, nat>, dropping: set<nat>,
                         nextGate: nat, nextTicket: nat)

  datatype Step =
    | Open(handle: nat, identity: FileIdentity)
    | Enter(gate: nat, handle: nat)
    | Grant(gate: nat)
    | Abandon(gate: nat, at: nat)
    | Finish(gate: nat)
    | Close(gate: nat, handle: nat)
    | RunDrop(gate: nat)

  const INIT := State(map[], map[], {}, 0, 0)

  /** The gate the registry can still upgrade, if any. */
  function Upgrade(s: State, identity: FileIdentity): Option<nat>
  {
    if identity in s.registry && s.registry[identity] in s.gates && s.gates[s.registry[identity]].Live()
    then Some(s.registry[identity]) else None
  }

  /** Replace a gate; losing its last owner starts its destruction. */
  function Update(s: State, g: nat, gate: Gate): State
  {
    s.(gates := s.gates[g := gate], dropping := if gate.Live() then s.dropping else s.dropping + {g})
  }

  /** Share the live gate of the file, or register a new one. */
  function DoOpen(s: State, handle: nat, identity: FileIdentity): State
  {
    match Upgrade(s, identity)
    case Some(g) => Update(s, g, s.gates[g].(handles := s.gates[g].handles + {handle}))
    case None =>
      s.(gates := s.gates[s.nextGate := Gate(identity, {handle}, [], None)],
         registry := s.registry[identity := s.nextGate],
         nextGate := s.nextGate + 1)
  }

  /** The destructor forgets the file only if the registered gate is dead too. */
  function DoDrop(s: State, g: nat): State
    requires g in s.gates
  {
    var identity := s.gates[g].identity;
    var dead := identity in s.registry && Upgrade(s, identity).None?;
    s.(registry := if dead then s.registry - {identity} else s.registry, dropping := s.dropping - {g})
  }

  /** A step that is not enabled changes nothing. */
  function Apply(s: State, step: Step): State
  {
    match step
    case Open(h, identity) => DoOpen(s, h, identity)
    case Enter(g, h) =>
      if g in s.gates && h in s.gates[g].handles
      then Update(s.(nextTicket := s.nextTicket + 1), g, s.gates[g].(waiting := s.gates[g].waiting + [s.nextTicket]))
      else s
    case Grant(g) =>
      if g in s.gates && s.gates[g].turn.None? && s.gates[g].waiting != []
      then Update(s, g, s.gates[g].(turn := Some(s.gates[g].waiting[0]), waiting := s.gates[g].waiting[1..]))
      else s
    case Abandon(g, at) =>
      if g in s.gates && at < |s.gates[g].waiting|
      then Update(s, g, s.gates[g].(waiting := s.gates[g].waiting[..at] + s.gates[g].waiting[at + 1..]))
      else s
    case Finish(g) =>
      if g in s.gates && s.gates[g].turn.Some? then Update(s, g, s.gates[g].(turn := None)) else s
    case Close(g, h) =>
      if g in s.gates && h in s.gates[g].handles
      then Update(s, g, s.gates[g].(handles := s.gates[g].handles - {h}))
      else s
    case RunDrop(g) =>
      if g in s.dropping && g in s.gates then DoDrop(s, g) else s
  }

  function RunFrom(s: State, steps: seq<Step>): State
  {
    if steps == [] then s else Apply(RunFrom(s, steps[..|steps| - 1]), steps[|steps| - 1])
  }

  // ---------------------------------------------------------------------
  // What every step keeps
  // ---------------------------------------------------------------------

  ghost predicate InOrder(ts: seq<nat>, bound: nat)
  {
    && (forall i :: 0 <= i < |ts| ==> ts[i] < bound)
    && (forall i, j :: 0 <= i < j < |ts| ==> ts[i] < ts[j])
  }

  /** Tickets queue in the order they were drawn, behind the one being served. */
  ghost predicate Queued(gate: Gate, bound: nat)
  {
    InOrder((if gate.turn.Some? then [gate.turn.value] else []) + gate.waiting, bound)
  }

  ghost predicate Inv(s: State)
  {
    && (forall g :: g in s.gates ==> g < s.nextGate && Queued(s.gates[g], s.nextTicket))
    && (forall g :: g in s.gates && s.gates[g].Live() ==>
          s.gates[g].identity in s.registry && s.registry[s.gates[g].identity] == g)
    && (forall id :: id in s.registry ==>
          && s.registry[id] in s.gates && s.gates[s.registry[id]].identity == id
          && (s.gates[s.registry[id]].Live() || s.registry[id] in s.dropping))
    && (forall g :: g in s.dropping ==> g in s.gates && !s.gates[g].Live())
  }

  /** Changing a live gate in place, within its own file, keeps the invariant. */
  lemma UpdateKeepsInv(s: State, g: nat, gate: Gate)
    requires Inv(s) && g in s.gates && s.gates[g].Live() && gate.identity == s.gates[g].identity
    requires Queued(gate, s.nextTicket)
    ensures Inv(Update(s, g, gate))
  {
    hide Queued;
  }

  lemma TicketKeepsInv(s: State)
    requires Inv(s)
    ensures Inv(s.(nextTicket := s.nextTicket + 1))
  {
  }

  lemma NewGateKeepsInv(s: State, gate: Gate)
    requires Inv(s) && Upgrade(s, gate.identity).None? && Queued(gate, s.nextTicket) && gate.Live()
    ensures Inv(s.(gates := s.gates[s.nextGate := gate], registry := s.registry[gate.identity := s.nextGate],
                   nextGate := s.nextGate + 1))
  {
    hide Queued;
  }

  lemma OpenKeepsInv(s: State, handle: nat, identity: FileIdentity)
    requires Inv(s)
    ensures Inv(DoOpen(s, handle, identity))
  {
    hide Inv, Update;
    InvParts(s);
    match Upgrade(s, identity)
    case Some(g) =>
      UpdateKeepsInv(s, g, s.gates[g].(handles := s.gates[g].handles + {handle}));
    case None =>
      NewGateKeepsInv(s, Gate(identity, {handle}, [], None));
  }

  lemma DropKeepsInv(s: State, g: nat)
    requires Inv(s) && g in s.dropping
    ensures Inv(DoDrop(s, g))
  {
    hide Queued;
  }

  lemma StepKeepsInv(s: State, step: Step)
    requires Inv(s)
    ensures Inv(Apply(s, step))
  {
    hide Inv, Update, DoOpen, DoDrop, Queued;
    InvParts(s);
    match step
    case Open(h, identity) => OpenKeepsInv(s, h, identity);
    case Enter(g, h) =>
      if g in s.gates && h in s.gates[g].handles {
        var gate := s.gates[g];
        QueueEnter(gate, s.nextTicket);
        TicketKeepsInv(s);
        UpdateKeepsInv(s.(nextTicket := s.nextTicket + 1), g, gate.(waiting := gate.waiting + [s.nextTicket]));
      }
    case Grant(g) =>
      if g in s.gates && s.gates[g].turn.None? && s.gates[g].waiting != [] {
        var gate := s.gates[g];
        QueueGrant(gate, s.nextTicket);
        UpdateKeepsInv(s, g, gate.(turn := Some(gate.waiting[0]), waiting := gate.waiting[1..]));
      }
    case Abandon(g, at) =>
      if g in s.gates && at < |s.gates[g].waiting| {
        var gate := s.gates[g];
        QueueAbandon(gate, at, s.nextTicket);
        UpdateKeepsInv(s, g, gate.(waiting := gate.waiting[..at] + gate.waiting[at + 1..]));
      }
    case Finish(g) =>
      if g in s.gates && s.gates[g].turn.Some? {
        QueueFinish(s.gates[g], s.nextTicket);
        UpdateKeepsInv(s, g, s.gates[g].(turn := None));
      }
    case Close(g, h) =>
      if g in s.gates && h in s.gates[g].handles {
        QueueClose(s.gates[g], h, s.nextTicket);
        UpdateKeepsInv(s, g, s.gates[g].(handles := s.gates[g].handles - {h}));
      }
    case RunDrop(g) =>
      if g in s.dropping && g in s.gates { DropKeepsInv(s, g); }
  }

  lemma InvParts(s: State)
    requires Inv(s)
    ensures forall g :: g in s.gates ==> Queued(s.gates[g], s.nextTicket)
  {
  }

  lemma QueueEnter(gate: Gate, ticket: nat)
    requires Queued(gate, ticket)
    ensures Queued(gate.(waiting := gate.waiting + [ticket]), ticket + 1)
  {
    var front := if gate.turn.Some? then [gate.turn.value] else [];
    assert front + (gate.waiting + [ticket]) == (front + gate.waiting) + [ticket];
  }

  lemma QueueGrant(gate: Gate, bound: nat)
    requires Queued(gate, bound) && gate.turn.None? && gate.waiting != []
    ensures Queued(gate.(turn := Some(gate.waiting[0]), waiting := gate.waiting[1..]), bound)
  {
    assert [] + gate.waiting == [gate.waiting[0]] + gate.waiting[1..];
  }

  lemma QueueAbandon(gate: Gate, at: nat, bound: nat)
    requires Queued(gate, bound) && at < |gate.waiting|
    ensures Queued(gate.(waiting := gate.waiting[..at] + gate.waiting[at + 1..]), bound)
  {
    hide InOrder;
    var front := if gate.turn.Some? then [gate.turn.value] else [];
    var all, k := front + gate.waiting, |front| + at;
    OrderWithout(all, k, bound);
    assert front + (gate.waiting[..at] + gate.waiting[at + 1..]) == all[..k] + all[k + 1..];
  }

  lemma OrderWithout(ts: seq<nat>, k: nat, bound: nat)
    requires InOrder(ts, bound) && k < |ts|
    ensures InOrder(ts[..k] + ts[k + 1..], bound)
  {
    var us := ts[..k] + ts[k + 1..];
    assert forall i :: 0 <= i < |us| ==> us[i] == ts[if i < k then i else i + 1];
  }

  lemma QueueFinish(gate: Gate, bound: nat)
    requires Queued(gate, bound) && gate.turn.Some?
    ensures Queued(gate.(turn := None), bound)
  {
    assert [] + gate.waiting == ([gate.turn.value] + gate.waiting)[1..];
  }

  lemma QueueClose(gate: Gate, h: nat, bound: nat)
    requires Queued(gate, bound)
    ensures Queued(gate.(handles := gate.handles - {h}), bound)
  {
  }

  lemma {:induction false} RunKeepsInv(steps: seq<Step>)
    ensures Inv(RunFrom(INIT, steps))
  {
    if steps != [] {
      RunKeepsInv(steps[..|steps| - 1]);
      StepKeepsInv(RunFrom(INIT, steps[..|steps| - 1]), steps[|steps| - 1]);
    }
  }

  // ---------------------------------------------------------------------
  // Theorems over every run
  // ---------------------------------------------------------------------

  /** Every gate but `g` is as it was. */
  predicate OthersKept(s: State, t: State, g: nat)
  {
    t.gates.Keys == s.gates.Keys && forall k :: k in s.gates && k != g ==> t.gates[k] == s.gates[k]
  }

  /** Tickets of a gate are below the next one to be drawn. */
  lemma TicketsBelow(gate: Gate, bound: nat, u: nat)
    requires Queued(gate, bound) && (u in gate.waiting || gate.turn == Some(u))
    ensures u < bound
  {
    var front := if gate.turn.Some? then [gate.turn.value] else [];
    var all := front + gate.waiting;
    if u in gate.waiting {
      var i :| 0 <= i < |gate.waiting| && gate.waiting[i] == u;
      assert all[|front| + i] == u;
    } else {
      assert all[0] == u;
    }
  }

  lemma WaitingInOrder(gate: Gate, bound: nat)
    requires Queued(gate, bound)
    ensures InOrder(gate.waiting, bound)
  {
    var front := if gate.turn.Some? then [gate.turn.value] else [];
    assert forall i :: 0 <= i < |gate.waiting| ==> gate.waiting[i] == (front + gate.waiting)[|front| + i];
  }

  lemma FirstIsEarliest(ts: seq<nat>, bound: nat)
    requires InOrder(ts, bound) && ts != []
    ensures ts[0] in ts && forall u :: u in ts ==> ts[0] <= u
    ensures forall u :: u in ts[1..] <==> u in ts && u != ts[0]
  {
    WithoutTicket(ts, 0, bound);
    assert ts[..0] + ts[1..] == ts[1..];
  }

  /** A grant serves the earliest waiting ticket, exactly when none is being served, and leaves all others waiting. */
  lemma GrantServesFirst(steps: seq<Step>, g: nat)
    requires g in RunFrom(INIT, steps).gates
    ensures var s, t := RunFrom(INIT, steps), Apply(RunFrom(INIT, steps), Grant(g));
            var was, now := s.gates[g], t.gates[g];
            && OthersKept(s, t, g) && now.handles == was.handles && now.identity == was.identity
            && (was.turn.Some? || was.waiting == [] ==> now == was)
            && (was.turn.None? && was.waiting != [] ==>
                  && now.turn.Some? && now.turn.value in was.waiting
                  && (forall u :: u in was.waiting ==> now.turn.value <= u)
                  && (forall u :: u in now.waiting <==> u in was.waiting && u != now.turn.value))
  {
    hide RunFrom, Queued, InOrder;
    RunKeepsInv(steps);
    var s := RunFrom(INIT, steps);
    var was := s.gates[g];
    WaitingInOrder(was, s.nextTicket);
    if was.turn.None? && was.waiting != [] {
      FirstIsEarliest(was.waiting, s.nextTicket);
      var now := Apply(s, Grant(g)).gates[g];
      assert now.turn == Some(was.waiting[0]) && now.waiting == was.waiting[1..];
    }
  }

  /** Giving up a wait removes that ticket and no other. */
  lemma AbandonRemoves(steps: seq<Step>, g: nat, at: nat)
    requires g in RunFrom(INIT, steps).gates && at < |RunFrom(INIT, steps).gates[g].waiting|
    ensures var s, t := RunFrom(INIT, steps), Apply(RunFrom(INIT, steps), Abandon(g, at));
            var was, now := s.gates[g], t.gates[g];
            && OthersKept(s, t, g) && now.turn == was.turn && now.handles == was.handles && now.identity == was.identity
            && forall u :: u in now.waiting <==> u in was.waiting && u != was.waiting[at]
  {
    hide RunFrom, Queued, InOrder;
    RunKeepsInv(steps);
    var s := RunFrom(INIT, steps);
    var was, now := s.gates[g], Apply(s, Abandon(g, at)).gates[g];
    WaitingInOrder(was, s.nextTicket);
    WithoutTicket(was.waiting, at, s.nextTicket);
    assert now.waiting == was.waiting[..at] + was.waiting[at + 1..];
  }

  lemma WithoutTicket(ts: seq<nat>, k: nat, bound: nat)
    requires InOrder(ts, bound) && k < |ts|
    ensures forall u :: u in ts[..k] + ts[k + 1..] <==> u in ts && u != ts[k]
  {
    var rest := ts[..k] + ts[k + 1..];
    forall u | u in ts && u != ts[k] ensures u in rest {
      var i :| 0 <= i < |ts| && ts[i] == u;
      assert rest[if i < k then i else i - 1] == u;
    }
    forall u | u in rest ensures u in ts && u != ts[k] {
      var i :| 0 <= i < |rest| && rest[i] == u;
      assert ts[if i < k then i else i + 1] == u;
    }
  }

  /** Every ticket waiting or being served is earlier than `ticket`. */
  predicate Latest(s: State, ticket: nat)
  {
    forall k :: k in s.gates ==> Earlier(s.gates[k], ticket)
  }

  predicate Earlier(gate: Gate, ticket: nat)
  {
    (forall u :: u in gate.waiting ==> u < ticket) && (gate.turn.Some? ==> gate.turn.value < ticket)
  }

  /** An entry draws a ticket later than every one drawn before and waits with it behind the others. */
  lemma EnterWaits(steps: seq<Step>, g: nat, h: nat)
    requires g in RunFrom(INIT, steps).gates && h in RunFrom(INIT, steps).gates[g].handles
    ensures var s, t := RunFrom(INIT, steps), Apply(RunFrom(INIT, steps), Enter(g, h));
            var was, now := s.gates[g], t.gates[g];
            && OthersKept(s, t, g) && now.turn == was.turn && now.handles == was.handles && now.identity == was.identity
            && |now.waiting| == |was.waiting| + 1 && was.waiting <= now.waiting
            && Latest(s, now.waiting[|was.waiting|])
  {
    hide RunFrom, Queued, InOrder;
    RunKeepsInv(steps);
    var s := RunFrom(INIT, steps);
    forall k | k in s.gates ensures Earlier(s.gates[k], s.nextTicket) {
      forall u: nat | u in s.gates[k].waiting ensures u < s.nextTicket { TicketsBelow(s.gates[k], s.nextTicket, u); }
      if s.gates[k].turn.Some? { TicketsBelow(s.gates[k], s.nextTicket, s.gates[k].turn.value); }
    }
    assert Latest(s, s.nextTicket);
  }

  /** An open puts its handle on the gate registered for the file, which orders every live handle of it. */
  lemma OpenRegisters(steps: seq<Step>, handle: nat, identity: FileIdentity)
    ensures var t := Apply(RunFrom(INIT, steps), Open(handle, identity));
            && identity in t.registry && t.registry[identity] in t.gates
            && t.gates[t.registry[identity]].identity == identity && handle in t.gates[t.registry[identity]].handles
  {
    hide RunFrom, Queued;
    RunKeepsInv(steps);
  }

  /** A finished turn frees its gate; a closed handle leaves it; nothing else about the gate changes. */
  lemma FinishAndClose(steps: seq<Step>, g: nat, h: nat)
    requires g in RunFrom(INIT, steps).gates
    ensures var s := RunFrom(INIT, steps);
            && OthersKept(s, Apply(s, Finish(g)), g) && Apply(s, Finish(g)).gates[g] == s.gates[g].(turn := None)
            && OthersKept(s, Apply(s, Close(g, h)), g)
            && Apply(s, Close(g, h)).gates[g] == s.gates[g].(handles := s.gates[g].handles - {h})
  {
    hide RunFrom;
    var s := RunFrom(INIT, steps);
    assert h !in s.gates[g].handles ==> s.gates[g].handles - {h} == s.gates[g].handles;
  }

  /** At most one live gate per file. */
  lemma OneLiveGatePerFile(steps: seq<Step>, a: nat, b: nat)
    requires var s := RunFrom(INIT, steps);
             && a in s.gates && b in s.gates && s.gates[a].Live() && s.gates[b].Live()
             && s.gates[a].identity == s.gates[b].identity
    ensures a == b
  {
    RunKeepsInv(steps);
  }

  /** Two operations on one file never run at once, whichever handles they came through. */
  lemma TurnsNeverOverlap(steps: seq<Step>, a: nat, b: nat)
    requires var s := RunFrom(INIT, steps);
             && a in s.gates && b in s.gates && s.gates[a].turn.Some? && s.gates[b].turn.Some?
             && s.gates[a].identity == s.gates[b].identity
    ensures a == b && RunFrom(INIT, steps).gates[a].turn == RunFrom(INIT, steps).gates[b].turn
  {
    OneLiveGatePerFile(steps, a, b);
  }

  /** First come, first served: the running operation drew its ticket before every one still waiting on the file. */
  lemma ServedInOrder(steps: seq<Step>, a: nat, b: nat, i: nat)
    requires var s := RunFrom(INIT, steps);
             && a in s.gates && b in s.gates && s.gates[a].turn.Some? && i < |s.gates[b].waiting|
             && s.gates[a].identity == s.gates[b].identity
    ensures RunFrom(INIT, steps).gates[a].turn.value < RunFrom(INIT, steps).gates[b].waiting[i]
  {
    hide RunFrom;
    RunKeepsInv(steps);
    OneLiveGatePerFile(steps, a, b);
    var gate := RunFrom(INIT, steps).gates[a];
    var all := [gate.turn.value] + gate.waiting;
    assert all[0] == gate.turn.value && all[i + 1] == gate.waiting[i];
  }

  /** Every handle and every running or queued operation of a file is on the gate the next open will share. */
  lemma OpenSharesTheLiveGate(steps: seq<Step>, g: nat, handle: nat)
    requires var s := RunFrom(INIT, steps); g in s.gates && s.gates[g].Live()
    ensures var s := RunFrom(INIT, steps);
            DoOpen(s, handle, s.gates[g].identity) ==
            s.(gates := s.gates[g := s.gates[g].(handles := s.gates[g].handles + {handle})])
  {
    RunKeepsInv(steps);
  }

  /** A file stays registered only while a handle, an operation or a pending destructor of it remains. */
  lemma RegistryForgets(steps: seq<Step>, identity: FileIdentity)
    requires var s := RunFrom(INIT, steps);
             forall g :: g in s.gates && s.gates[g].identity == identity ==> !s.gates[g].Live() && g !in s.dropping
    ensures identity !in RunFrom(INIT, steps).registry
  {
    RunKeepsInv(steps);
  }
}
