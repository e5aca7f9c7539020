/** What each way of publishing a header does, from every state the protocol can reach. */
module Publications {
  import opened Arithmetic
  import opened Bytes
  import opened Nonces
  import opened HeaderSlots
  import opened AnchorProtocol

  /** A live handle with nothing in flight and a sequence number left. */
  predicate Ready(s: State)
  {
    s.handle.Some? && s.handle.value.phase.Idle? && s.handle.value.cursor.seqNo < U64_MAX
  }

  /** The successor header of a store: the next sequence number, the last counter handed out, these roots. */
  function Next(s: State, payload: seq<byte>): Header
    requires Ready(s) && s.acked.seqNo < U64_MAX
  {
    Header(s.acked.seqNo + 1, SatSub(s.handle.value.gen.next, 1), payload)
  }

  /** `t` has `header` acknowledged, opens at it, and its handle is ready to go on with the same counters. The first
      header of a handle counts its open as a writing one. */
  predicate Published(s: State, t: State, header: Header)
    requires s.handle.Some?
  {
    && t.acked == header && OpensAt(t.disk, header) && t.inFlight.None?
    && t.handle.Some? && t.handle.value.phase.Idle?
    && t.handle.value.gen == s.handle.value.gen.(durable := header.anchor)
    && t.handle.value.wrote && t.writingOpens == s.writingOpens + (if s.handle.value.wrote then 0 else 1)
    && t.issued == s.issued
  }

  lemma Three(s: State, a: Step, b: Step, c: Step)
    ensures RunFrom(s, [a, b, c]) == Apply(Apply(Apply(s, a), b), c)
  {
    Two(s, a, b);
    assert [a, b, c][..2] == [a, b];
  }

  lemma Two(s: State, a: Step, b: Step)
    ensures RunFrom(s, [a, b]) == Apply(Apply(s, a), b)
  {
    assert [a, b][..1] == [a] && [a][..0] == [];
    assert RunFrom(s, [a]) == Apply(RunFrom(s, []), a);
  }

  lemma ReadyHas(s: State)
    requires Inv(s) && Ready(s)
    ensures s.handle.value.cursor.seqNo == s.acked.seqNo < U64_MAX
    ensures Holds(s.disk, s.handle.value.cursor.slot, s.acked)
    ensures s.handle.value.gen.durable == s.acked.anchor <= SatSub(s.handle.value.gen.next, 1)
  {
  }

  // ---------------------------------------------------------------------
  // Commits and refreshes
  // ---------------------------------------------------------------------

  /** A commit whose write lands publishes exactly the roots it was given. */
  lemma CommitPublishes(s: State, q: seq<byte>)
    requires Inv(s) && Ready(s)
    ensures s.acked.seqNo < U64_MAX
    ensures Published(s, RunFrom(s, [BeginCommit(q), DiskSettles(NoFault), Acknowledge]), Next(s, q))
  {
    hide RunFrom, Inv;
    ReadyHas(s);
    Three(s, BeginCommit(q), DiskSettles(NoFault), Acknowledge);
  }

  /** A refresh whose write lands republishes the acknowledged roots under the last counter handed out. */
  lemma RefreshPublishes(s: State)
    requires Inv(s) && Ready(s)
    ensures s.acked.seqNo < U64_MAX
    ensures Published(s, RunFrom(s, [BeginRefresh, DiskSettles(NoFault), Acknowledge]), Next(s, s.acked.payload))
  {
    hide RunFrom, Inv;
    ReadyHas(s);
    Three(s, BeginRefresh, DiskSettles(NoFault), Acknowledge);
  }

  /** A crash during a commit: the new roots once the bytes landed, the acknowledged ones if they tore, and whatever the
      file opened at before if nothing landed. */
  lemma CommitCrashes(s: State, q: seq<byte>, fault: Fault)
    requires Inv(s) && Ready(s)
    ensures s.acked.seqNo < U64_MAX
    ensures var t := RunFrom(s, [BeginCommit(q), DiskSettles(fault), Crash(false)]);
            && t.handle.None?
            && (fault.NoFault? || fault.SyncFails? ==> OpensAt(t.disk, Next(s, q)))
            && (fault.WriteTorn? ==> OpensAt(t.disk, s.acked))
            && (fault.WriteLost? || fault.OpenFails? ==> t.disk == s.disk)
  {
    hide RunFrom, Inv;
    ReadyHas(s);
    Three(s, BeginCommit(q), DiskSettles(fault), Crash(false));
  }

  /** A header write that never started leaves the store and its handle as they were. */
  lemma NeverStartedIsHarmless(s: State, q: seq<byte>)
    requires Inv(s) && Ready(s)
    ensures s.acked.seqNo < U64_MAX
    ensures RunFrom(s, [BeginCommit(q), WriteNeverStarted]) == s.(inFlight := Some(Next(s, q)))
  {
    hide RunFrom, Inv;
    ReadyHas(s);
    Two(s, BeginCommit(q), WriteNeverStarted);
  }

  /** A commit that fails with its outcome unknown loses the handle; a refresh that does keeps it. */
  lemma UnknownOutcomes(s: State, q: seq<byte>, fault: Fault)
    requires Inv(s) && Ready(s)
    ensures RunFrom(s, [BeginCommit(q), DiskSettles(fault), WriteFails]).handle.None?
    ensures RunFrom(s, [BeginRefresh, DiskSettles(fault), WriteFails]).handle == s.handle
  {
    hide RunFrom, Inv;
    ReadyHas(s);
    Three(s, BeginCommit(q), DiskSettles(fault), WriteFails);
    Three(s, BeginRefresh, DiskSettles(fault), WriteFails);
  }

  // ---------------------------------------------------------------------
  // Rebuilds
  // ---------------------------------------------------------------------

  /** A rebuild publishes exactly the roots of the rebuilt file. */
  lemma RebuildPublishes(s: State, q: seq<byte>)
    requires Inv(s) && Ready(s)
    ensures s.acked.seqNo < U64_MAX
    ensures Published(s, RunFrom(s, [SealScratch(q), Rename, SyncDir]), Next(s, q))
  {
    hide RunFrom, Inv;
    ReadyHas(s);
    Three(s, SealScratch(q), Rename, SyncDir);
  }

  /** A crash after the rename: the rebuilt roots, or the replaced file as it was if the rename was lost. */
  lemma RebuildCrashes(s: State, q: seq<byte>)
    requires Inv(s) && Ready(s)
    ensures s.acked.seqNo < U64_MAX
    ensures OpensAt(RunFrom(s, [SealScratch(q), Rename, Crash(false)]).disk, Next(s, q))
    ensures RunFrom(s, [SealScratch(q), Rename, Crash(true)]).disk == s.disk
    ensures RunFrom(s, [SealScratch(q), Crash(false)]).disk == s.disk
  {
    hide RunFrom, Inv;
    ReadyHas(s);
    Three(s, SealScratch(q), Rename, Crash(false));
    Three(s, SealScratch(q), Rename, Crash(true));
    Two(s, SealScratch(q), Crash(false));
  }

  /** A rebuild given up before its rename leaves file and handle as they were. */
  lemma DroppedRebuildIsHarmless(s: State, q: seq<byte>)
    requires Inv(s) && Ready(s)
    ensures RunFrom(s, [SealScratch(q), DropScratch]) == s.(inFlight := None)
  {
    hide RunFrom, Inv;
    ReadyHas(s);
    Two(s, SealScratch(q), DropScratch);
  }

  // ---------------------------------------------------------------------
  // Counters and opens
  // ---------------------------------------------------------------------

  /** An issue hands out the next counter exactly inside the window over the acknowledged anchor and the 48-bit space. */
  lemma IssueHandsOut(s: State)
    requires Inv(s) && s.handle.Some?
    ensures var g, t := s.handle.value.gen, Apply(s, Issue);
            && (g.next <= COUNTER_MAX && g.next <= Min(s.acked.anchor + g.budget, U64_MAX) ==>
                  t.issued == s.issued + [g.next] && t.handle == Some(s.handle.value.(gen := g.(next := g.next + 1))))
            && (!(g.next <= COUNTER_MAX && g.next <= Min(s.acked.anchor + g.budget, U64_MAX)) ==> t == s)
            && t.(issued := s.issued, handle := s.handle) == s
  {
  }

  /** A store without a handle opens at the newer readable header, which becomes the acknowledged one. */
  lemma OpenResumes(s: State, budget: u64)
    requires Inv(s) && s.handle.None?
    ensures var t := Apply(s, Open(budget));
            && t.handle.Some? && t.handle.value.phase.Idle? && OpensAt(s.disk, t.acked)
            && t.handle.value.cursor.seqNo == t.acked.seqNo
            && t.handle.value.gen == RecoveredGen(t.acked.anchor, budget)
            && !t.handle.value.wrote && t.writingOpens == s.writingOpens
            && t.disk == s.disk && t.issued == s.issued
  {
  }
}
