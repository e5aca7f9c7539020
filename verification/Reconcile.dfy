/** Catalog reconciliation at open: authenticate every row, then promote, tombstone and remove. */
module Reconcile {
  import opened Bytes
  import opened Journal

  type File = seq<byte>

  /** A directory entry: some hexadecimal spelling of an identity (0 is the lower-case one), or anything else. */
  datatype FileName = HexName(id: SegmentId, spelling: nat) | OtherName(text: seq<byte>)

  function PathOf(id: SegmentId): FileName
  {
    HexName(id, 0)
  }

  datatype TombstoneName = TombstoneName(name: FileName, commit: u64)

  /** `seg/`, `seg/.staging/` and `seg/.tombstone/`. */
  datatype Dir = Dir(live: map<FileName, File>, staging: map<FileName, File>, tombstones: map<TombstoneName, File>)

  datatype Row = BadRow | SegmentRow(id: SegmentId, meta: seq<byte>)

  /** What authenticating a file against a row comes to: trusted, kept for the embedder to judge, or fatal. */
  datatype Verdict = Verified | Damaged | Fatal
  type Judge = (Row, File) -> Verdict

  datatype ReconcileError = RowInvalid | SegmentMissing | NotTrusted | Unsupported | RenameSourceMissing

  datatype Checked = Checked(id: SegmentId, promote: bool)

  /** One row against the directory; nothing moves. */
  function AuthenticateRow(dir: Dir, row: Row, judge: Judge): Result<Checked, ReconcileError>
  {
    match row
    case BadRow => Err(RowInvalid)
    case SegmentRow(id, _) =>
      if PathOf(id) in dir.live then
        if judge(row, dir.live[PathOf(id)]).Fatal? then Err(NotTrusted) else Ok(Checked(id, false))
      else if PathOf(id) in dir.staging then
        (match judge(row, dir.staging[PathOf(id)])
         case Fatal => Err(NotTrusted)
         case Verified => Ok(Checked(id, true))
         case Damaged => Ok(Checked(id, false)))
      else Err(SegmentMissing)
  }

  // ---------------------------------------------------------------------
  // What a catalog asks of a directory
  // ---------------------------------------------------------------------

  ghost predicate Validates(dir: Dir, rows: seq<Row>, judge: Judge)
  {
    forall i :: 0 <= i < |rows| ==> AuthenticateRow(dir, rows[i], judge).Ok?
  }

  /** The row's staged file is trusted and its live file is absent. */
  predicate Promotes(dir: Dir, row: Row, judge: Judge)
  {
    AuthenticateRow(dir, row, judge).Ok? && AuthenticateRow(dir, row, judge).value.promote
  }

  ghost predicate ToPromote(dir: Dir, rows: seq<Row>, judge: Judge, id: SegmentId)
  {
    exists i :: 0 <= i < |rows| && rows[i].SegmentRow? && rows[i].id == id && Promotes(dir, rows[i], judge)
  }

  /** No two rows ask for the same staged file. */
  ghost predicate DistinctPromotions(dir: Dir, rows: seq<Row>, judge: Judge)
  {
    forall i, j :: 0 <= i < j < |rows| && Promotes(dir, rows[i], judge) && Promotes(dir, rows[j], judge) ==>
      rows[i].SegmentRow? && rows[j].SegmentRow? && rows[i].id != rows[j].id
  }

  /** Two rows of one segment whose file is still staged: every row authenticates, and the second promotion finds its
      source gone. */
  lemma TwinRowsValidate(id: SegmentId, m1: seq<byte>, m2: seq<byte>, file: File, judge: Judge)
    requires judge(SegmentRow(id, m1), file).Verified? && judge(SegmentRow(id, m2), file).Verified?
    ensures var dir := Dir(map[], map[PathOf(id) := file], map[]);
            var rows := [SegmentRow(id, m1), SegmentRow(id, m2)];
            Validates(dir, rows, judge) && !DistinctPromotions(dir, rows, judge)
  {
    var dir := Dir(map[], map[PathOf(id) := file], map[]);
    var rows := [SegmentRow(id, m1), SegmentRow(id, m2)];
    assert AuthenticateRow(dir, rows[0], judge) == AuthenticateRow(dir, rows[1], judge) == Ok(Checked(id, true));
  }

  ghost predicate Named(rows: seq<Row>, id: SegmentId)
  {
    exists i :: 0 <= i < |rows| && rows[i].SegmentRow? && rows[i].id == id
  }

  /** A name the sweep leaves alone: not an identity, or one the catalog names. */
  ghost predicate Keeps(rows: seq<Row>, name: FileName)
  {
    name.OtherName? || Named(rows, name.id)
  }

  // ---------------------------------------------------------------------
  // The moves
  // ---------------------------------------------------------------------

  datatype Move = Promotion(id: SegmentId) | Tombstoning(name: FileName) | Removal(name: FileName)

  ghost predicate Enabled(dir: Dir, rows: seq<Row>, judge: Judge, move: Move)
  {
    match move
    case Promotion(id) => PathOf(id) in dir.staging && ToPromote(dir, rows, judge, id)
    case Tombstoning(name) => name in dir.live && !Keeps(rows, name)
    case Removal(name) => name in dir.staging && !Keeps(rows, name)
  }

  /** A rename or a removal, whole. */
  function Do(dir: Dir, move: Move, commit: u64): Dir
  {
    match move
    case Promotion(id) =>
      if PathOf(id) in dir.staging
      then dir.(live := dir.live[PathOf(id) := dir.staging[PathOf(id)]], staging := dir.staging - {PathOf(id)})
      else dir
    case Tombstoning(name) =>
      if name in dir.live
      then dir.(tombstones := dir.tombstones[TombstoneName(name, commit) := dir.live[name]], live := dir.live - {name})
      else dir
    case Removal(name) => dir.(staging := dir.staging - {name})
  }

  function DoAll(dir: Dir, moves: seq<Move>, commit: u64): Dir
  {
    if moves == [] then dir else Do(DoAll(dir, moves[..|moves| - 1], commit), moves[|moves| - 1], commit)
  }

  ghost predicate Legal(dir: Dir, moves: seq<Move>, rows: seq<Row>, judge: Judge, commit: u64)
  {
    forall k :: 0 <= k < |moves| ==> Enabled(DoAll(dir, moves[..k], commit), rows, judge, moves[k])
  }

  /** The files under names the sweep leaves alone. */
  ghost function Kept(m: map<FileName, File>, rows: seq<Row>): map<FileName, File>
  {
    map n | n in m && Keeps(rows, n) :: m[n]
  }

  /** The staged files that get promoted. */
  ghost function Arriving(dir: Dir, rows: seq<Row>, judge: Judge): map<FileName, File>
  {
    map n | n in dir.staging && n.HexName? && n.spelling == 0 && ToPromote(dir, rows, judge, n.id) :: dir.staging[n]
  }

  /** The live files no row names, under the names they are buried by. */
  ghost function Buried(live: map<FileName, File>, rows: seq<Row>, commit: u64): map<TombstoneName, File>
  {
    map n | n in live && !Keeps(rows, n) :: TombstoneName(n, commit) := live[n]
  }

  /** The directory a completed repair leaves. */
  ghost function Repaired(dir: Dir, rows: seq<Row>, judge: Judge, commit: u64): Dir
  {
    var arriving := Arriving(dir, rows, judge);
    Dir(Kept(dir.live, rows) + arriving,
        Kept(dir.staging, rows) - arriving.Keys,
        dir.tombstones + Buried(dir.live, rows, commit))
  }

  // ---------------------------------------------------------------------
  // The same in terms of files and verdicts alone
  // ---------------------------------------------------------------------

  /** The row is readable and its file, live or else staged, is there and not fatal. */
  ghost predicate RowHolds(dir: Dir, row: Row, judge: Judge)
  {
    && row.SegmentRow?
    && var n := HexName(row.id, 0);
       if n in dir.live then judge(row, dir.live[n]) != Fatal
       else n in dir.staging && judge(row, dir.staging[n]) != Fatal
  }

  /** The row's file is staged, not live, and verified. */
  ghost predicate RowPublishes(dir: Dir, row: Row, judge: Judge)
  {
    && row.SegmentRow?
    && var n := HexName(row.id, 0);
       n !in dir.live && n in dir.staging && judge(row, dir.staging[n]) == Verified
  }

  lemma RowIff(dir: Dir, row: Row, judge: Judge)
    ensures AuthenticateRow(dir, row, judge).Ok? <==> RowHolds(dir, row, judge)
    ensures Promotes(dir, row, judge) <==> RowPublishes(dir, row, judge)
  {
  }

  /** Why a row that does not hold is refused: it is unreadable, its file is fatal, or it has none. */
  ghost function RowError(dir: Dir, row: Row): ReconcileError
  {
    if row.BadRow? then RowInvalid
    else if HexName(row.id, 0) in dir.live || HexName(row.id, 0) in dir.staging then NotTrusted
    else SegmentMissing
  }

  /** `error` is that of the first row that does not hold. */
  ghost predicate FirstRefusal(dir: Dir, rows: seq<Row>, judge: Judge, error: ReconcileError)
  {
    exists i :: 0 <= i < |rows| && !RowHolds(dir, rows[i], judge) && error == RowError(dir, rows[i])
                && forall j :: 0 <= j < i ==> RowHolds(dir, rows[j], judge)
  }

  lemma RefusedFirst(dir: Dir, rows: seq<Row>, judge: Judge, i: nat)
    requires i < |rows| && AuthenticateRow(dir, rows[i], judge).Err?
    requires forall j :: 0 <= j < i ==> AuthenticateRow(dir, rows[j], judge).Ok?
    ensures FirstRefusal(dir, rows, judge, AuthenticateRow(dir, rows[i], judge).error)
  {
    RowIff(dir, rows[i], judge);
    forall j | 0 <= j < i ensures RowHolds(dir, rows[j], judge) { RowIff(dir, rows[j], judge); }
    assert !RowHolds(dir, rows[i], judge) && AuthenticateRow(dir, rows[i], judge).error == RowError(dir, rows[i]);
  }

  /** Some row names the segment a file name spells, or the name spells none. */
  ghost predicate Spared(rows: seq<Row>, n: FileName)
  {
    n.HexName? ==> exists i :: 0 <= i < |rows| && rows[i].SegmentRow? && rows[i].id == n.id
  }

  /** Some row publishes the staged file `n`. */
  ghost predicate Publishes(dir: Dir, rows: seq<Row>, judge: Judge, n: FileName)
  {
    exists i :: 0 <= i < |rows| && RowPublishes(dir, rows[i], judge) && n == HexName(rows[i].id, 0)
  }

  lemma PublishesIff(dir: Dir, rows: seq<Row>, judge: Judge, n: FileName)
    ensures n in Arriving(dir, rows, judge) <==> Publishes(dir, rows, judge, n)
    ensures n in Arriving(dir, rows, judge) ==> n in dir.staging && Arriving(dir, rows, judge)[n] == dir.staging[n]
  {
    forall i | 0 <= i < |rows| ensures Promotes(dir, rows[i], judge) <==> RowPublishes(dir, rows[i], judge) {
      RowIff(dir, rows[i], judge);
    }
    if Publishes(dir, rows, judge, n) {
      var i :| 0 <= i < |rows| && RowPublishes(dir, rows[i], judge) && n == HexName(rows[i].id, 0);
      assert ToPromote(dir, rows, judge, n.id);
    }
  }

  /** The repaired directory, file by file: what is live, what is staged and what is buried. */
  lemma RepairedIs(dir: Dir, rows: seq<Row>, judge: Judge, commit: u64, n: FileName, t: TombstoneName)
    requires Validates(dir, rows, judge)
    ensures var after, published := Repaired(dir, rows, judge, commit), Publishes(dir, rows, judge, n);
            && (n in after.live <==> (n in dir.live && Spared(rows, n)) || published)
            && (n in after.live ==> after.live[n] == if published then dir.staging[n] else dir.live[n])
            && (n in after.staging <==> n in dir.staging && Spared(rows, n) && !published)
            && (n in after.staging ==> after.staging[n] == dir.staging[n])
    ensures var after := Repaired(dir, rows, judge, commit);
            var buried := t.commit == commit && t.name in dir.live && !Spared(rows, t.name);
            && (t in after.tombstones <==> t in dir.tombstones || buried)
            && (t in after.tombstones ==>
                  after.tombstones[t] == if buried then dir.live[t.name] else dir.tombstones[t])
  {
    hide Arriving, Publishes;
    PublishesIff(dir, rows, judge, n);
  }

  // ---------------------------------------------------------------------
  // Every move keeps the destination
  // ---------------------------------------------------------------------

  /** A row's answer depends only on its own two paths. */
  lemma RowUnaffected(a: Dir, b: Dir, row: Row, judge: Judge)
    requires row.SegmentRow? ==>
               var n := PathOf(row.id);
               && (n in a.live <==> n in b.live) && (n in a.live ==> a.live[n] == b.live[n])
               && (n in a.staging <==> n in b.staging) && (n in a.staging ==> a.staging[n] == b.staging[n])
    ensures AuthenticateRow(a, row, judge) == AuthenticateRow(b, row, judge)
  {
  }

  /** Moving a file no row names changes no answer. */
  lemma SweepMoveAnswers(dir: Dir, rows: seq<Row>, judge: Judge, move: Move, commit: u64, i: nat)
    requires Enabled(dir, rows, judge, move) && !move.Promotion? && i < |rows|
    ensures AuthenticateRow(Do(dir, move, commit), rows[i], judge) == AuthenticateRow(dir, rows[i], judge)
  {
    RowUnaffected(Do(dir, move, commit), dir, rows[i], judge);
  }

  /** After its promotion a row is settled, and the other rows answer as before. */
  lemma PromotionAnswers(dir: Dir, rows: seq<Row>, judge: Judge, id: SegmentId, commit: u64, i: nat)
    requires Validates(dir, rows, judge) && Enabled(dir, rows, judge, Promotion(id)) && i < |rows|
    ensures var after := Do(dir, Promotion(id), commit);
            AuthenticateRow(after, rows[i], judge) ==
            if rows[i].SegmentRow? && rows[i].id == id then Ok(Checked(id, false))
            else AuthenticateRow(dir, rows[i], judge)
    ensures PathOf(id) !in dir.live && Named(rows, id)
  {
    var k :| 0 <= k < |rows| && rows[k].SegmentRow? && rows[k].id == id && Promotes(dir, rows[k], judge);
    if !(rows[i].SegmentRow? && rows[i].id == id) {
      RowUnaffected(Do(dir, Promotion(id), commit), dir, rows[i], judge);
    } else {
      assert AuthenticateRow(dir, rows[i], judge).Ok?;
    }
  }

  lemma MoveKeepsValid(dir: Dir, rows: seq<Row>, judge: Judge, move: Move, commit: u64)
    requires Validates(dir, rows, judge) && Enabled(dir, rows, judge, move)
    ensures Validates(Do(dir, move, commit), rows, judge)
  {
    hide Do, AuthenticateRow, Enabled;
    forall i | 0 <= i < |rows| ensures AuthenticateRow(Do(dir, move, commit), rows[i], judge).Ok? {
      if move.Promotion? {
        PromotionAnswers(dir, rows, judge, move.id, commit, i);
      } else {
        SweepMoveAnswers(dir, rows, judge, move, commit, i);
      }
    }
  }

  lemma SweepMoveToPromote(dir: Dir, rows: seq<Row>, judge: Judge, move: Move, commit: u64, id: SegmentId)
    requires Enabled(dir, rows, judge, move) && !move.Promotion?
    ensures ToPromote(Do(dir, move, commit), rows, judge, id) == ToPromote(dir, rows, judge, id)
  {
    hide Do, AuthenticateRow, Enabled;
    forall i | 0 <= i < |rows|
      ensures Promotes(Do(dir, move, commit), rows[i], judge) == Promotes(dir, rows[i], judge)
    {
      SweepMoveAnswers(dir, rows, judge, move, commit, i);
    }
  }

  lemma PromotionToPromote(dir: Dir, rows: seq<Row>, judge: Judge, id: SegmentId, commit: u64, other: SegmentId)
    requires Validates(dir, rows, judge) && Enabled(dir, rows, judge, Promotion(id))
    ensures ToPromote(Do(dir, Promotion(id), commit), rows, judge, other) <==>
            other != id && ToPromote(dir, rows, judge, other)
  {
    hide Do, AuthenticateRow, Enabled;
    forall i | 0 <= i < |rows|
      ensures Promotes(Do(dir, Promotion(id), commit), rows[i], judge) ==
              if rows[i].SegmentRow? && rows[i].id == id then false else Promotes(dir, rows[i], judge)
    {
      PromotionAnswers(dir, rows, judge, id, commit, i);
    }
  }

  lemma PromotionArriving(dir: Dir, rows: seq<Row>, judge: Judge, id: SegmentId, commit: u64)
    requires Validates(dir, rows, judge) && Enabled(dir, rows, judge, Promotion(id))
    ensures Arriving(Do(dir, Promotion(id), commit), rows, judge) == Arriving(dir, rows, judge) - {PathOf(id)}
    ensures PathOf(id) in Arriving(dir, rows, judge)
  {
    hide ToPromote, Validates;
    var after := Do(dir, Promotion(id), commit);
    forall other: SegmentId
      ensures ToPromote(after, rows, judge, other) <==> other != id && ToPromote(dir, rows, judge, other)
    {
      PromotionToPromote(dir, rows, judge, id, commit, other);
    }
  }

  lemma SweepMoveArriving(dir: Dir, rows: seq<Row>, judge: Judge, move: Move, commit: u64)
    requires Enabled(dir, rows, judge, move) && !move.Promotion?
    ensures Arriving(Do(dir, move, commit), rows, judge) == Arriving(dir, rows, judge)
  {
    var after := Do(dir, move, commit);
    forall other: SegmentId
      ensures ToPromote(after, rows, judge, other) == ToPromote(dir, rows, judge, other)
      ensures ToPromote(dir, rows, judge, other) ==> Named(rows, other)
    {
      SweepMoveToPromote(dir, rows, judge, move, commit, other);
    }
  }

  lemma MapMoves<K, V>(kept: map<K, V>, arriving: map<K, V>, n: K)
    requires n in arriving
    ensures kept[n := arriving[n]] + (arriving - {n}) == kept + arriving
  {
  }

  lemma PromotionKeepsGoal(dir: Dir, rows: seq<Row>, judge: Judge, id: SegmentId, commit: u64)
    requires Validates(dir, rows, judge) && Enabled(dir, rows, judge, Promotion(id)) && rows != []
    ensures Repaired(Do(dir, Promotion(id), commit), rows, judge, commit) == Repaired(dir, rows, judge, commit)
  {
    hide ToPromote, Validates, Named, Arriving;
    PromotionAnswers(dir, rows, judge, id, commit, 0);
    PromotionArriving(dir, rows, judge, id, commit);
    var n, arriving := PathOf(id), Arriving(dir, rows, judge);
    assert arriving[n] == dir.staging[n] by { ArrivesAsStaged(dir, rows, judge, n); }
    assert Kept(dir.live[n := dir.staging[n]], rows) == Kept(dir.live, rows)[n := dir.staging[n]];
    MapMoves(Kept(dir.live, rows), arriving, n);
    assert Kept(dir.staging - {n}, rows) - (arriving - {n}).Keys == Kept(dir.staging, rows) - arriving.Keys;
    assert Buried(dir.live[n := dir.staging[n]], rows, commit) == Buried(dir.live, rows, commit);
  }

  lemma ArrivesAsStaged(dir: Dir, rows: seq<Row>, judge: Judge, n: FileName)
    requires n in Arriving(dir, rows, judge)
    ensures n in dir.staging && Arriving(dir, rows, judge)[n] == dir.staging[n]
  {
  }

  lemma TombstoneKeepsGoal(dir: Dir, rows: seq<Row>, judge: Judge, name: FileName, commit: u64)
    requires Enabled(dir, rows, judge, Tombstoning(name))
    ensures Repaired(Do(dir, Tombstoning(name), commit), rows, judge, commit) == Repaired(dir, rows, judge, commit)
  {
    hide ToPromote, Keeps, Arriving, Buried;
    SweepMoveArriving(dir, rows, judge, Tombstoning(name), commit);
    assert Kept(dir.live - {name}, rows) == Kept(dir.live, rows);
    BuriedOne(dir.live, rows, name, commit);
    MapMoves(dir.tombstones, Buried(dir.live, rows, commit), TombstoneName(name, commit));
  }

  lemma BuriedOne(live: map<FileName, File>, rows: seq<Row>, name: FileName, commit: u64)
    requires name in live && !Keeps(rows, name)
    ensures var tomb, buried := TombstoneName(name, commit), Buried(live, rows, commit);
            && tomb in buried && buried[tomb] == live[name]
            && Buried(live - {name}, rows, commit) == buried - {tomb}
  {
    hide Keeps;
    var tomb, buried := TombstoneName(name, commit), Buried(live, rows, commit);
    assert tomb in buried;
    var less := Buried(live - {name}, rows, commit);
    assert forall t :: t in less <==> t in buried && t != tomb;
  }

  lemma RemovalKeepsGoal(dir: Dir, rows: seq<Row>, judge: Judge, name: FileName, commit: u64)
    requires Enabled(dir, rows, judge, Removal(name))
    ensures Repaired(Do(dir, Removal(name), commit), rows, judge, commit) == Repaired(dir, rows, judge, commit)
  {
    hide ToPromote, Named, Arriving;
    SweepMoveArriving(dir, rows, judge, Removal(name), commit);
    assert Kept(dir.staging - {name}, rows) == Kept(dir.staging, rows);
  }

  lemma MoveKeepsGoal(dir: Dir, rows: seq<Row>, judge: Judge, move: Move, commit: u64)
    requires Validates(dir, rows, judge) && Enabled(dir, rows, judge, move)
    ensures Repaired(Do(dir, move, commit), rows, judge, commit) == Repaired(dir, rows, judge, commit)
  {
    hide Repaired, Do;
    match move
    case Promotion(id) => PromotionKeepsGoal(dir, rows, judge, id, commit);
    case Tombstoning(name) => TombstoneKeepsGoal(dir, rows, judge, name, commit);
    case Removal(name) => RemovalKeepsGoal(dir, rows, judge, name, commit);
  }

  /** After any of its moves, in any order, a repair still has the same directory to reach and a valid catalog. */
  lemma {:induction false} MovesKeepGoal(dir: Dir, moves: seq<Move>, rows: seq<Row>, judge: Judge, commit: u64)
    requires Validates(dir, rows, judge) && Legal(dir, moves, rows, judge, commit)
    ensures var now := DoAll(dir, moves, commit);
            Validates(now, rows, judge) && Repaired(now, rows, judge, commit) == Repaired(dir, rows, judge, commit)
  {
    hide Repaired, Do, Validates, Enabled;
    if moves != [] {
      var n := |moves| - 1;
      var before := DoAll(dir, moves[..n], commit);
      assert forall k :: 0 <= k < n ==> moves[..n][..k] == moves[..k];
      MovesKeepGoal(dir, moves[..n], rows, judge, commit);
      MoveKeepsValid(before, rows, judge, moves[n], commit);
      MoveKeepsGoal(before, rows, judge, moves[n], commit);
    }
  }

  // ---------------------------------------------------------------------
  // Where a repair ends
  // ---------------------------------------------------------------------

  /** Nothing left to promote, bury or remove. */
  ghost predicate Settled(dir: Dir, rows: seq<Row>, judge: Judge)
  {
    && Validates(dir, rows, judge)
    && (forall i :: 0 <= i < |rows| ==> !Promotes(dir, rows[i], judge))
    && (forall n :: n in dir.live || n in dir.staging ==> Keeps(rows, n))
  }

  /** A settled directory is its own repair. */
  lemma SettledIsRepaired(dir: Dir, rows: seq<Row>, judge: Judge, commit: u64)
    requires Settled(dir, rows, judge)
    ensures Repaired(dir, rows, judge, commit) == dir
  {
    hide Keeps, Kept, Arriving, Buried, Validates;
    AllKept(dir.live, rows, commit);
    AllKept(dir.staging, rows, commit);
    NoneArriving(dir, rows, judge);
    assert dir.live + map[] == dir.live && dir.staging - {} == dir.staging && dir.tombstones + map[] == dir.tombstones;
  }

  lemma AllKept(m: map<FileName, File>, rows: seq<Row>, commit: u64)
    requires forall n :: n in m ==> Keeps(rows, n)
    ensures Kept(m, rows) == m && Buried(m, rows, commit) == map[]
  {
    hide Keeps;
  }

  lemma NoneArriving(dir: Dir, rows: seq<Row>, judge: Judge)
    requires forall i :: 0 <= i < |rows| ==> !Promotes(dir, rows[i], judge)
    ensures Arriving(dir, rows, judge) == map[]
  {
    hide Promotes;
  }

  /** Every file under a catalog-named identity survives: live ones in place, staged ones staged or live. */
  lemma NamedFilesSurvive(dir: Dir, rows: seq<Row>, judge: Judge, commit: u64, n: FileName)
    requires Validates(dir, rows, judge) && Keeps(rows, n)
    ensures var after := Repaired(dir, rows, judge, commit);
            && (n in dir.live && n !in Arriving(dir, rows, judge) ==> n in after.live && after.live[n] == dir.live[n])
            && (n in Arriving(dir, rows, judge) ==> n !in dir.live && n in after.live && after.live[n] == dir.staging[n])
            && (n in dir.staging ==>
                  || (n in after.live && after.live[n] == dir.staging[n])
                  || (n in after.staging && after.staging[n] == dir.staging[n]))
  {
    hide Keeps;
  }

  /** Only unnamed files are buried, and earlier tombstones stay unless the same name is buried again. */
  lemma OnlyOrphansBuried(dir: Dir, rows: seq<Row>, judge: Judge, commit: u64, t: TombstoneName)
    ensures var after := Repaired(dir, rows, judge, commit);
            && (t in dir.tombstones && t !in Buried(dir.live, rows, commit) ==>
                  t in after.tombstones && after.tombstones[t] == dir.tombstones[t])
            && (t in after.tombstones && t !in dir.tombstones ==>
                  && t.commit == commit && t.name in dir.live && !Keeps(rows, t.name)
                  && after.tombstones[t] == dir.live[t.name])
  {
    hide Keeps, Arriving;
  }

  /** Crash after any of a repair's moves, run it again: the same directory is reached. */
  lemma CrashThenRerun(dir: Dir, moves: seq<Move>, k: nat, rows: seq<Row>, judge: Judge, commit: u64)
    requires Validates(dir, rows, judge) && Legal(dir, moves, rows, judge, commit) && k <= |moves|
    ensures var crashed := DoAll(dir, moves[..k], commit);
            && Validates(crashed, rows, judge)
            && Repaired(crashed, rows, judge, commit) == Repaired(dir, rows, judge, commit)
  {
    hide Repaired, DoAll, Validates, Enabled;
    assert forall j :: 0 <= j < k ==> moves[..k][..j] == moves[..j];
    MovesKeepGoal(dir, moves[..k], rows, judge, commit);
  }

  // ---------------------------------------------------------------------
  // The operations
  // ---------------------------------------------------------------------

  function IdsOf(rows: seq<Row>): (ids: seq<SegmentId>)
    requires forall i :: 0 <= i < |rows| ==> rows[i].SegmentRow?
    ensures |ids| == |rows| && forall i :: 0 <= i < |rows| ==> ids[i] == rows[i].id
  {
    seq(|rows|, i requires 0 <= i < |rows| => rows[i].id)
  }

  /** The rows of the first `n` that get promoted, in order. */
  function PromotedIds(dir: Dir, rows: seq<Row>, judge: Judge, n: nat): seq<SegmentId>
    requires n <= |rows|
  {
    if n == 0 then []
    else PromotedIds(dir, rows, judge, n - 1)
         + if Promotes(dir, rows[n - 1], judge) then [AuthenticateRow(dir, rows[n - 1], judge).value.id] else []
  }

  class SegmentDirectory {
    var dir: Dir

    constructor (dir: Dir)
      ensures this.dir == dir
    {
      this.dir := dir;
    }

    /** Authenticates every row before anything may move. */
    method CheckRows(rows: seq<Row>, judge: Judge) returns (r: Result<(seq<SegmentId>, seq<SegmentId>), ReconcileError>)
      ensures r.Ok? <==> Validates(dir, rows, judge)
      ensures r.Err? ==> FirstRefusal(dir, rows, judge, r.error)
      ensures r.Ok? ==> (forall i :: 0 <= i < |rows| ==> rows[i].SegmentRow?)
      ensures r.Ok? ==> r.value.0 == IdsOf(rows) && r.value.1 == PromotedIds(dir, rows, judge, |rows|)
    {
      hide AuthenticateRow, FirstRefusal;
      var expected: seq<SegmentId>, promotions: seq<SegmentId> := [], [];
      var i := 0;
      while i < |rows|
        invariant 0 <= i <= |rows|
        invariant forall j :: 0 <= j < i ==> AuthenticateRow(dir, rows[j], judge).Ok? && rows[j].SegmentRow?
        invariant |expected| == i && forall j :: 0 <= j < i ==> expected[j] == rows[j].id
        invariant promotions == PromotedIds(dir, rows, judge, i)
      {
        var checked := AuthenticateRow(dir, rows[i], judge);
        if checked.Err? {
          RefusedFirst(dir, rows, judge, i);
          return Err(checked.error);
        }
        RowIsSegment(dir, rows[i], judge);
        expected := expected + [checked.value.id];
        if checked.value.promote { promotions := promotions + [checked.value.id]; }
        i := i + 1;
      }
      return Ok((expected, promotions));
    }

    /** Completes every trusted publication, one rename after another; a file asked for twice is missing the second
        time. */
    method PromoteAll(promotions: seq<SegmentId>, rows: seq<Row>, judge: Judge, commit: u64)
      returns (r: Result<(), ReconcileError>, ghost moves: seq<Move>)
      requires Validates(dir, rows, judge) && promotions == PromotedIds(dir, rows, judge, |rows|)
      modifies this
      ensures Underway(old(dir), dir, moves, rows, judge, commit) && Validates(dir, rows, judge)
      ensures r.Ok? <==> DistinctPromotions(old(dir), rows, judge)
      ensures r.Err? ==> r.error == RenameSourceMissing
      ensures r.Ok? ==> Quiet(dir, rows, judge)
    {
      hide AuthenticateRow, Promotes, Validates, Underway, Do, PromotedIds, ToPromote, DistinctPromotions;
      hide StillToPromote, Quiet;
      ghost var start := dir;
      moves := [];
      NotStarted(start, rows, judge, commit);
      NothingPromoted(start, rows, judge, promotions);
      PromotedIdsAre(start, rows, judge, |rows|);
      var k := 0;
      while k < |promotions|
        invariant 0 <= k <= |promotions| && NoRepeats(promotions[..k])
        invariant Underway(start, dir, moves, rows, judge, commit) && Validates(dir, rows, judge)
        invariant StillToPromote(start, dir, rows, judge, promotions, k)
      {
        var id := promotions[k];
        NextPromotion(start, dir, rows, judge, promotions, k, commit);
        if PathOf(id) !in dir.staging {
          return Err(RenameSourceMissing), moves;
        }
        OneMove(start, dir, moves, Promotion(id), rows, judge, commit);
        MoveKeepsValid(dir, rows, judge, Promotion(id), commit);
        moves := moves + [Promotion(id)];
        dir := Do(dir, Promotion(id), commit);
        k := k + 1;
      }
      assert promotions[..k] == promotions;
      AllPromoted(start, dir, rows, judge, promotions);
      return Ok(()), moves;
    }

    /** Buries every live file no row names, in whatever order the directory lists them. */
    method SweepLive(expected: set<SegmentId>, rows: seq<Row>, judge: Judge, commit: u64, ghost start: Dir,
                     ghost moves: seq<Move>)
      returns (ghost more: seq<Move>)
      requires forall id :: id in expected <==> Named(rows, id)
      requires Underway(start, dir, moves, rows, judge, commit) && Quiet(dir, rows, judge)
      modifies this
      ensures Underway(start, dir, more, rows, judge, commit) && Quiet(dir, rows, judge)
      ensures forall n :: n in dir.live ==> Keeps(rows, n)
    {
      hide Underway, Quiet, Do, Named;
      more := moves;
      var listed := dir.live.Keys;
      while listed != {}
        invariant forall n :: n in listed ==> n in dir.live
        invariant Underway(start, dir, more, rows, judge, commit) && Quiet(dir, rows, judge)
        invariant forall n :: n in dir.live && n !in listed ==> Keeps(rows, n)
        decreases |listed|
      {
        var name :| name in listed;
        listed := listed - {name};
        if name.HexName? && name.id !in expected {
          var move := Tombstoning(name);
          OneMove(start, dir, more, move, rows, judge, commit);
          StaysQuiet(dir, rows, judge, move, commit);
          TombstoneEffect(dir, name, commit);
          more := more + [move];
          dir := Do(dir, move, commit);
        }
      }
    }

    /** Removes every staged file no row names. */
    method SweepStaging(expected: set<SegmentId>, rows: seq<Row>, judge: Judge, commit: u64, ghost start: Dir,
                        ghost moves: seq<Move>)
      returns (ghost more: seq<Move>)
      requires forall id :: id in expected <==> Named(rows, id)
      requires Underway(start, dir, moves, rows, judge, commit) && Quiet(dir, rows, judge)
      requires forall n :: n in dir.live ==> Keeps(rows, n)
      modifies this
      ensures Underway(start, dir, more, rows, judge, commit) && Quiet(dir, rows, judge)
      ensures forall n :: n in dir.live || n in dir.staging ==> Keeps(rows, n)
    {
      hide Underway, Quiet, Do, Named;
      more := moves;
      var listed := dir.staging.Keys;
      while listed != {}
        invariant forall n :: n in listed ==> n in dir.staging
        invariant Underway(start, dir, more, rows, judge, commit) && Quiet(dir, rows, judge)
        invariant forall n :: n in dir.live ==> Keeps(rows, n)
        invariant forall n :: n in dir.staging && n !in listed ==> Keeps(rows, n)
        decreases |listed|
      {
        var name :| name in listed;
        listed := listed - {name};
        if name.HexName? && name.id !in expected {
          var move := Removal(name);
          OneMove(start, dir, more, move, rows, judge, commit);
          StaysQuiet(dir, rows, judge, move, commit);
          RemovalEffect(dir, name, commit);
          more := more + [move];
          dir := Do(dir, move, commit);
        }
      }
    }

    /** Authenticate everything, then promote, bury and remove. `moves` are the renames and removals it made. */
    method Repair(rows: seq<Row>, judge: Judge, commit: u64)
      returns (r: Result<seq<SegmentId>, ReconcileError>, ghost moves: seq<Move>)
      modifies this
      ensures r.Ok? <==> Validates(old(dir), rows, judge) && DistinctPromotions(old(dir), rows, judge)
      ensures dir == DoAll(old(dir), moves, commit) && Legal(old(dir), moves, rows, judge, commit)
      ensures !Validates(old(dir), rows, judge) ==>
                moves == [] && dir == old(dir) && r.Err? && FirstRefusal(dir, rows, judge, r.error)
      ensures Validates(old(dir), rows, judge) && r.Err? ==> r.error == RenameSourceMissing
      ensures r.Ok? ==>
                && (forall i :: 0 <= i < |rows| ==> rows[i].SegmentRow?) && r.value == IdsOf(rows)
                && dir == Repaired(old(dir), rows, judge, commit) && Settled(dir, rows, judge)
      ensures r.Ok? ==> forall i :: 0 <= i < |rows| ==> RowHolds(old(dir), rows[i], judge)
      ensures r.Ok? ==> forall n :: n in dir.live && n !in old(dir).live ==> Publishes(old(dir), rows, judge, n)
    {
      hide Repaired, DoAll, Legal, PromotedIds, Promotes, DistinctPromotions, RowHolds, Publishes;
      hide FirstRefusal;
      moves := [];
      NotStarted(dir, rows, judge, commit);
      var checked := CheckRows(rows, judge);
      if checked.Err? { return Err(checked.error), moves; }
      var expected, promotions := checked.value.0, checked.value.1;
      var promoted: Result<(), ReconcileError>;
      promoted, moves := PromoteAll(promotions, rows, judge, commit);
      if promoted.Err? { return Err(promoted.error), moves; }
      var expectedIds := set i | 0 <= i < |expected| :: expected[i];
      ExpectedAreNamed(rows, expectedIds);
      moves := SweepLive(expectedIds, rows, judge, commit, old(dir), moves);
      moves := SweepStaging(expectedIds, rows, judge, commit, old(dir), moves);
      MovesKeepGoal(old(dir), moves, rows, judge, commit);
      SettledIsRepaired(dir, rows, judge, commit);
      RowsHold(old(dir), rows, judge);
      OnlyPublished(old(dir), rows, judge, commit);
      return Ok(expected), moves;
    }

    /** The read-only open: accepts exactly a directory with nothing left to do, and moves nothing. */
    method Verify(rows: seq<Row>, judge: Judge) returns (r: Result<seq<SegmentId>, ReconcileError>)
      ensures r.Ok? <==> Settled(dir, rows, judge)
      ensures r.Err? ==> if Validates(dir, rows, judge) then r.error == Unsupported
                         else FirstRefusal(dir, rows, judge, r.error)
      ensures r.Ok? ==>
                forall i :: 0 <= i < |rows| ==> RowHolds(dir, rows[i], judge) && !RowPublishes(dir, rows[i], judge)
      ensures r.Ok? ==> (forall i :: 0 <= i < |rows| ==> rows[i].SegmentRow?) && r.value == IdsOf(rows)
    {
      hide Promotes, PromotedIds, FirstRefusal;
      var checked := CheckRows(rows, judge);
      if checked.Err? { return Err(checked.error); }
      NoPromotions(dir, rows, judge, |rows|);
      if checked.value.1 != [] { return Err(Unsupported); }
      var expected := checked.value.0;
      var expectedIds := set i | 0 <= i < |expected| :: expected[i];
      ExpectedAreNamed(rows, expectedIds);
      if exists n :: n in dir.live.Keys + dir.staging.Keys && n.HexName? && n.id !in expectedIds {
        return Err(Unsupported);
      }
      RowsHold(dir, rows, judge);
      return Ok(expected);
    }
  }

  lemma RowsHold(dir: Dir, rows: seq<Row>, judge: Judge)
    requires Validates(dir, rows, judge)
    ensures forall i :: 0 <= i < |rows| ==>
              RowHolds(dir, rows[i], judge) && (Promotes(dir, rows[i], judge) <==> RowPublishes(dir, rows[i], judge))
  {
    forall i | 0 <= i < |rows|
      ensures RowHolds(dir, rows[i], judge) && (Promotes(dir, rows[i], judge) <==> RowPublishes(dir, rows[i], judge))
    {
      RowIff(dir, rows[i], judge);
    }
  }

  lemma OnlyPublished(dir: Dir, rows: seq<Row>, judge: Judge, commit: u64)
    requires Validates(dir, rows, judge)
    ensures forall n :: n in Repaired(dir, rows, judge, commit).live && n !in dir.live ==> Publishes(dir, rows, judge, n)
  {
    forall n | n in Repaired(dir, rows, judge, commit).live && n !in dir.live ensures Publishes(dir, rows, judge, n) {
      RepairedIs(dir, rows, judge, commit, n, TombstoneName(n, commit));
    }
  }

  // ---------------------------------------------------------------------
  // Progress of a repair
  // ---------------------------------------------------------------------

  /** The catalog is valid and nothing is left to promote. */
  ghost predicate Quiet(dir: Dir, rows: seq<Row>, judge: Judge)
  {
    Validates(dir, rows, judge) && forall i :: 0 <= i < |rows| ==> !Promotes(dir, rows[i], judge)
  }

  lemma StaysQuiet(dir: Dir, rows: seq<Row>, judge: Judge, move: Move, commit: u64)
    requires Quiet(dir, rows, judge) && Enabled(dir, rows, judge, move) && !move.Promotion?
    ensures Quiet(Do(dir, move, commit), rows, judge)
  {
    hide AuthenticateRow, Do, Enabled;
    forall i | 0 <= i < |rows|
      ensures AuthenticateRow(Do(dir, move, commit), rows[i], judge) == AuthenticateRow(dir, rows[i], judge)
    {
      SweepMoveAnswers(dir, rows, judge, move, commit, i);
    }
  }

  lemma TombstoneEffect(dir: Dir, name: FileName, commit: u64)
    ensures Do(dir, Tombstoning(name), commit).live == dir.live - {name}
  {
    assert name !in dir.live ==> dir.live - {name} == dir.live;
  }

  lemma RemovalEffect(dir: Dir, name: FileName, commit: u64)
    ensures Do(dir, Removal(name), commit).live == dir.live
    ensures Do(dir, Removal(name), commit).staging == dir.staging - {name}
  {
  }

  lemma ExpectedAreNamed(rows: seq<Row>, expected: set<SegmentId>)
    requires forall i :: 0 <= i < |rows| ==> rows[i].SegmentRow?
    requires expected == set i | 0 <= i < |IdsOf(rows)| :: IdsOf(rows)[i]
    ensures forall id :: id in expected <==> Named(rows, id)
  {
    forall id ensures id in expected <==> Named(rows, id) {
      if Named(rows, id) {
        var i :| 0 <= i < |rows| && rows[i].SegmentRow? && rows[i].id == id;
        assert IdsOf(rows)[i] == id;
      }
    }
  }

  lemma {:induction false} NoPromotions(dir: Dir, rows: seq<Row>, judge: Judge, n: nat)
    requires n <= |rows|
    ensures PromotedIds(dir, rows, judge, n) == [] <==> forall i :: 0 <= i < n ==> !Promotes(dir, rows[i], judge)
  {
    hide AuthenticateRow, Promotes;
    if n > 0 {
      NoPromotions(dir, rows, judge, n - 1);
      if Promotes(dir, rows[n - 1], judge) {
        assert |PromotedIds(dir, rows, judge, n)| > 0;
      } else {
        assert PromotedIds(dir, rows, judge, n) == PromotedIds(dir, rows, judge, n - 1);
      }
    }
  }

  /** `now` is `start` after `moves`, each of them enabled when it was made. */
  ghost predicate Underway(start: Dir, now: Dir, moves: seq<Move>, rows: seq<Row>, judge: Judge, commit: u64)
  {
    now == DoAll(start, moves, commit) && Legal(start, moves, rows, judge, commit)
  }

  lemma NotStarted(start: Dir, rows: seq<Row>, judge: Judge, commit: u64)
    ensures Underway(start, start, [], rows, judge, commit)
  {
  }

  lemma OneMove(start: Dir, now: Dir, moves: seq<Move>, move: Move, rows: seq<Row>, judge: Judge, commit: u64)
    requires Underway(start, now, moves, rows, judge, commit) && Enabled(now, rows, judge, move)
    ensures Underway(start, Do(now, move, commit), moves + [move], rows, judge, commit)
  {
    hide Do, Enabled;
    var more := moves + [move];
    assert more[..|moves|] == moves;
    assert forall k :: 0 <= k < |moves| ==> more[..k] == moves[..k];
  }

  ghost predicate PromotedAmong(dir: Dir, rows: seq<Row>, judge: Judge, n: nat, id: SegmentId)
    requires n <= |rows|
  {
    exists i :: 0 <= i < n && rows[i].SegmentRow? && rows[i].id == id && Promotes(dir, rows[i], judge)
  }

  ghost predicate NoRepeats(ids: seq<SegmentId>)
  {
    forall j, k :: 0 <= j < k < |ids| ==> ids[j] != ids[k]
  }

  /** `ids` lists the promoted rows among the first `n`, and repeats one exactly when two rows ask for it. */
  ghost predicate ListsPromoted(dir: Dir, rows: seq<Row>, judge: Judge, n: nat, ids: seq<SegmentId>)
    requires n <= |rows|
  {
    && (forall k :: 0 <= k < |ids| ==> PromotedAmong(dir, rows, judge, n, ids[k]))
    && (forall i :: 0 <= i < n && Promotes(dir, rows[i], judge) ==> rows[i].SegmentRow? && rows[i].id in ids)
    && (NoRepeats(ids) <==> DistinctPromotions(dir, rows[..n], judge))
  }

  lemma ListOneMore(dir: Dir, rows: seq<Row>, judge: Judge, n: nat, ids: seq<SegmentId>)
    requires n < |rows| && ListsPromoted(dir, rows, judge, n, ids) && Promotes(dir, rows[n], judge) && rows[n].SegmentRow?
    ensures ListsPromoted(dir, rows, judge, n + 1, ids + [rows[n].id])
  {
    hide Promotes;
    var id, more := rows[n].id, ids + [rows[n].id];
    forall k | 0 <= k < |ids| ensures PromotedAmong(dir, rows, judge, n + 1, ids[k]) {
      assert PromotedAmong(dir, rows, judge, n, ids[k]);
    }
    assert PromotedAmong(dir, rows, judge, n + 1, id);
    RepeatOneMore(dir, rows, judge, n, ids);
  }

  /** The new id repeats exactly when an earlier promoted row has it. */
  lemma RepeatOneMore(dir: Dir, rows: seq<Row>, judge: Judge, n: nat, ids: seq<SegmentId>)
    requires n < |rows| && ListsPromoted(dir, rows, judge, n, ids) && Promotes(dir, rows[n], judge) && rows[n].SegmentRow?
    ensures NoRepeats(ids + [rows[n].id]) <==> DistinctPromotions(dir, rows[..n + 1], judge)
  {
    hide Promotes;
    var id, more, front := rows[n].id, ids + [rows[n].id], rows[..n + 1];
    assert id in ids <==> PromotedAmong(dir, rows, judge, n, id) by {
      if id in ids { var k :| 0 <= k < |ids| && ids[k] == id; assert PromotedAmong(dir, rows, judge, n, ids[k]); }
    }
    assert NoRepeats(more) <==> NoRepeats(ids) && id !in ids by {
      if NoRepeats(more) {
        assert forall k :: 0 <= k < |ids| ==> more[k] == ids[k];
        assert forall k :: 0 <= k < |ids| ==> more[k] != more[|ids|];
      }
    }
    assert forall i :: 0 <= i < n ==> front[i] == rows[..n][i];
    assert front[n] == rows[n];
  }

  lemma ListSkips(dir: Dir, rows: seq<Row>, judge: Judge, n: nat, ids: seq<SegmentId>)
    requires n < |rows| && ListsPromoted(dir, rows, judge, n, ids) && !Promotes(dir, rows[n], judge)
    ensures ListsPromoted(dir, rows, judge, n + 1, ids)
  {
    hide Promotes;
    forall k | 0 <= k < |ids| ensures PromotedAmong(dir, rows, judge, n + 1, ids[k]) {
      assert PromotedAmong(dir, rows, judge, n, ids[k]);
    }
    assert forall i :: 0 <= i < n ==> rows[..n + 1][i] == rows[..n][i];
    assert rows[..n + 1][n] == rows[n];
  }

  lemma {:induction false} PromotedIdsAre(dir: Dir, rows: seq<Row>, judge: Judge, n: nat)
    requires n <= |rows|
    ensures ListsPromoted(dir, rows, judge, n, PromotedIds(dir, rows, judge, n))
  {
    hide AuthenticateRow, ListsPromoted;
    if n == 0 {
      ListsNone(dir, rows, judge);
    } else {
      var ids := PromotedIds(dir, rows, judge, n - 1);
      PromotedIdsAre(dir, rows, judge, n - 1);
      if Promotes(dir, rows[n - 1], judge) {
        RowIsSegment(dir, rows[n - 1], judge);
        ListOneMore(dir, rows, judge, n - 1, ids);
      } else {
        ListSkips(dir, rows, judge, n - 1, ids);
        assert ids + [] == ids;
      }
    }
  }

  lemma ListsNone(dir: Dir, rows: seq<Row>, judge: Judge)
    ensures ListsPromoted(dir, rows, judge, 0, [])
  {
  }

  /** After `k` promotions exactly the rows of the first `k` ids are settled. */
  ghost predicate StillToPromote(start: Dir, now: Dir, rows: seq<Row>, judge: Judge, ids: seq<SegmentId>, k: nat)
  {
    && k <= |ids| && (forall j :: 0 <= j < k ==> PathOf(ids[j]) !in now.staging)
    && forall i :: 0 <= i < |rows| ==>
         (Promotes(now, rows[i], judge) <==>
          Promotes(start, rows[i], judge) && !(rows[i].SegmentRow? && rows[i].id in ids[..k]))
  }

  lemma NothingPromoted(start: Dir, rows: seq<Row>, judge: Judge, ids: seq<SegmentId>)
    ensures StillToPromote(start, start, rows, judge, ids, 0)
  {
    hide Promotes;
  }

  /** The next rename finds its source exactly when the id was not promoted already. */
  lemma NextPromotion(start: Dir, now: Dir, rows: seq<Row>, judge: Judge, ids: seq<SegmentId>, k: nat, commit: u64)
    requires ListsPromoted(start, rows, judge, |rows|, ids) && k < |ids| && NoRepeats(ids[..k])
    requires Validates(now, rows, judge) && StillToPromote(start, now, rows, judge, ids, k)
    ensures PathOf(ids[k]) in now.staging <==> ids[k] !in ids[..k]
    ensures PathOf(ids[k]) in now.staging ==>
              && NoRepeats(ids[..k + 1]) && Enabled(now, rows, judge, Promotion(ids[k]))
              && StillToPromote(start, Do(now, Promotion(ids[k]), commit), rows, judge, ids, k + 1)
    ensures PathOf(ids[k]) !in now.staging ==> !DistinctPromotions(start, rows, judge)
  {
    hide AuthenticateRow, Do, Promotes, DistinctPromotions, Validates;
    var id := ids[k];
    assert rows[..|rows|] == rows;
    assert PromotedAmong(start, rows, judge, |rows|, id);
    var i :| 0 <= i < |rows| && rows[i].SegmentRow? && rows[i].id == id && Promotes(start, rows[i], judge);
    assert ids[..k + 1] == ids[..k] + [id];
    if id in ids[..k] {
      var j :| 0 <= j < k && ids[j] == id;
      assert PathOf(ids[j]) !in now.staging;
      assert !NoRepeats(ids);
    } else {
      PromotesIsStaged(now, rows[i], judge);
      assert ToPromote(now, rows, judge, id);
      AfterPromotion(start, now, rows, judge, ids, k, commit);
    }
  }

  lemma AfterPromotion(start: Dir, now: Dir, rows: seq<Row>, judge: Judge, ids: seq<SegmentId>, k: nat, commit: u64)
    requires k < |ids| && Validates(now, rows, judge) && StillToPromote(start, now, rows, judge, ids, k)
    requires Enabled(now, rows, judge, Promotion(ids[k]))
    ensures StillToPromote(start, Do(now, Promotion(ids[k]), commit), rows, judge, ids, k + 1)
  {
    hide AuthenticateRow, Promotes, Validates;
    var id := ids[k];
    assert ids[..k + 1] == ids[..k] + [id];
    forall j | 0 <= j < |rows|
      ensures Promotes(Do(now, Promotion(id), commit), rows[j], judge) <==>
              Promotes(now, rows[j], judge) && !(rows[j].SegmentRow? && rows[j].id == id)
    {
      PromotionPromotes(now, rows, judge, id, commit, j);
    }
  }

  lemma PromotesIsStaged(dir: Dir, row: Row, judge: Judge)
    requires Promotes(dir, row, judge)
    ensures row.SegmentRow? && PathOf(row.id) in dir.staging && PathOf(row.id) !in dir.live
  {
  }

  lemma PromotionPromotes(dir: Dir, rows: seq<Row>, judge: Judge, id: SegmentId, commit: u64, j: nat)
    requires Validates(dir, rows, judge) && Enabled(dir, rows, judge, Promotion(id)) && j < |rows|
    ensures Promotes(Do(dir, Promotion(id), commit), rows[j], judge) <==>
            Promotes(dir, rows[j], judge) && !(rows[j].SegmentRow? && rows[j].id == id)
  {
    hide AuthenticateRow, Do, Enabled;
    PromotionAnswers(dir, rows, judge, id, commit, j);
  }

  lemma AllPromoted(start: Dir, now: Dir, rows: seq<Row>, judge: Judge, ids: seq<SegmentId>)
    requires ListsPromoted(start, rows, judge, |rows|, ids) && NoRepeats(ids) && Validates(now, rows, judge)
    requires StillToPromote(start, now, rows, judge, ids, |ids|)
    ensures Quiet(now, rows, judge) && DistinctPromotions(start, rows, judge)
  {
    hide Promotes, DistinctPromotions;
    assert ids[..|ids|] == ids && rows[..|rows|] == rows;
  }

  lemma RowIsSegment(dir: Dir, row: Row, judge: Judge)
    requires AuthenticateRow(dir, row, judge).Ok?
    ensures row.SegmentRow? && AuthenticateRow(dir, row, judge).value.id == row.id
  {
  }
}
