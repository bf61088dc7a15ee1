/** What recovery achieves: its verdict as a function, the end states of interrupted commands, and
    convergence of `recover --all`. */
module Recovery {
  import opened Base
  import opened Policy
  import opened FileSystem
  import opened Protocol
  import opened Safety
  import opened Crash

  // The reconciliation matrix as a function of the file system and the row

  /** The row `reconcile_action` leaves when both paths can be inspected and the write succeeds. */
  function Reconciled(cfg: Config, fs: Fs, row: Row, now: int): Row {
    if !Interrupted(row.status) then row
    else if row.quarantine.None? then Settle(row, ToFailed(NoQuarantinePath), now)
    else Settle(row, Judge(cfg, fs, row, row.original in fs, row.quarantine.value in fs, true), now)
  }

  lemma {:induction false} RunTwice(cfg: Config, s: State, a: seq<Event>, e: Event)
    ensures Run(cfg, s, a + [e]) == Advance(cfg, Run(cfg, s, a), e)
  {
    assert (a + [e])[..|a + [e]| - 1] == a;
  }

  /** Every statement proceeds, at one time. */
  predicate Smooth(events: seq<Event>, now: int) {
    forall i | 0 <= i < |events| :: events[i].Proceed? && events[i].supply.now == now
  }

  /** The statements of a reconciliation: that of a row without a quarantine path writes its verdict at once. */
  function RecoverSteps(row: Row): nat {
    if row.quarantine.None? then 2 else 5
  }

  /** Where the reconciliation is after `n` undisturbed statements. */
  function RecoverTask(cfg: Config, fs: Fs, id: nat, row: Row, n: nat): Task
    requires n < RecoverSteps(row)
  {
    Reconciling(id, row,
      if n == 0 then Dispatch
      else if row.quarantine.None? then WriteVerdict(ToFailed(NoQuarantinePath))
      else
        var original, quarantine := row.original in fs, row.quarantine.value in fs;
        if n == 1 then InspectOriginal
        else if n == 2 then InspectQuarantine(original)
        else if n == 3 then Decide(original, quarantine)
        else WriteVerdict(Judge(cfg, fs, row, original, quarantine, true)))
  }

  lemma {:induction false} RecoverTaskAdvances(cfg: Config, s: State, id: nat, n: nat, e: Event)
    requires id in s.rows && Interrupted(s.rows[id].status) && e.Proceed? && n < RecoverSteps(s.rows[id])
    requires s.task == RecoverTask(cfg, s.fs, id, s.rows[id], n)
    ensures Advance(cfg, s, e) ==
            if n + 1 < RecoverSteps(s.rows[id]) then s.(task := RecoverTask(cfg, s.fs, id, s.rows[id], n + 1))
            else s.(rows := s.rows[id := Reconciled(cfg, s.fs, s.rows[id], e.supply.now)], task := Resting(Succeeded))
  {
    assert Advance(cfg, s, e) == AdvanceRecover(cfg, s, e);
  }

  /** Recovering one action undisturbed takes a fixed number of statements and leaves exactly the reconciled
      row; before that it has changed nothing. */
  lemma {:induction false} RecoverOne(cfg: Config, s: State, id: nat, events: seq<Event>, now: int)
    requires id in s.rows && Interrupted(s.rows[id].status) && Smooth(events, now)
    ensures var n, row := |events|, s.rows[id];
            Run(cfg, StartRecover(s, id), events) ==
            if n < RecoverSteps(row) then s.(task := RecoverTask(cfg, s.fs, id, row, n))
            else s.(rows := s.rows[id := Reconciled(cfg, s.fs, row, now)], task := Resting(Succeeded))
  {
    if events != [] {
      var n := |events| - 1;
      RecoverOne(cfg, s, id, events[..n], now);
      if n < RecoverSteps(s.rows[id]) {
        RecoverTaskAdvances(cfg, s.(task := RecoverTask(cfg, s.fs, id, s.rows[id], n)), id, n, events[n]);
      }
    }
  }

  // The reconciliation matrix

  /** The payload at `p` is the one the row was written for. */
  ghost predicate Fingerprinted(cfg: Config, fs: Fs, row: Row, p: Path) {
    row.version == Some(Sha256TreeV1) && p in fs && row.digest == Some(cfg.fingerprint(TreeAt(fs, p)))
  }

  /** What becomes of an interrupted row, for each of the two kinds of interruption and each of the four
      ways its original place and its payload's place `q` can be: the status, and which column says why. */
  ghost predicate MatrixSays(cfg: Config, fs: Fs, row: Row, q: Path, readable: bool, now: int, r: Row) {
    if row.status == Restoring then
      (match (row.original in fs, q in fs)
       case (true, true) => r == row.(status := Failed, error := Some(BothExist))
       case (false, false) => r == row.(status := Failed, error := Some(NeitherExists))
       case (true, false) =>
         if readable && Fingerprinted(cfg, fs, row, row.original) then
           r == row.(status := Restored, error := None, restoreError := None,
                     restoredAt := Some(if row.restoredAt.Some? then row.restoredAt.value else now))
         else r == row.(status := Failed, error := Some(IdentityMismatch))
       case (false, true) =>
         if readable && Fingerprinted(cfg, fs, row, q) then
           r == row.(status := Quarantined, restoreError := Some(RestoreDidNotMove))
         else r == row.(status := Failed, error := Some(IdentityMismatch)))
    else
      (match (row.original in fs, q in fs)
       case (true, true) => r == row.(status := Failed, error := Some(BothExist))
       case (false, false) => r == row.(status := Failed, error := Some(NeitherExists))
       case (true, false) => r == row.(status := Failed, error := Some(NotMoved))
       case (false, true) =>
         if readable && Fingerprinted(cfg, fs, row, q) then r == row.(status := Quarantined, error := None)
         else r == row.(status := Failed, error := Some(IdentityMismatch)))
  }

  lemma {:induction false} JudgeFollowsMatrix(cfg: Config, fs: Fs, row: Row, q: Path, readable: bool, now: int)
    requires Interrupted(row.status) && row.quarantine == Some(q)
    ensures MatrixSays(cfg, fs, row, q, readable, now,
                    Settle(row, Judge(cfg, fs, row, row.original in fs, q in fs, readable), now))
  {
  }

  /** Reconciling an interrupted action that has a quarantine path settles its row by the matrix, and touches
      no other row and no file; a payload that cannot be read counts as a wrong one. */
  lemma {:induction false} ReconciliationMatrix(cfg: Config, s: State, id: nat, q: Path, looks: seq<Event>,
                                                read: Event, write: Event)
    requires id in s.rows && s.rows[id].quarantine == Some(q)
    requires s.rows[id].status == Planned || s.rows[id].status == Moving || s.rows[id].status == Restoring
    requires write.Proceed? && (read.Proceed? || read.Fault?) && |looks| == 3 && Smooth(looks, write.supply.now)
    ensures var s' := Run(cfg, StartRecover(s, id), looks + [read] + [write]);
            && s'.task == Resting(Succeeded) && s'.fs == s.fs && s'.nextId == s.nextId
            && s'.rows.Keys == s.rows.Keys && (forall j | j in s.rows && j != id :: s'.rows[j] == s.rows[j])
            && MatrixSays(cfg, s.fs, s.rows[id], q, read.Proceed?, write.supply.now, s'.rows[id])
  {
    var s0 := StartRecover(s, id);
    RecoverOne(cfg, s, id, looks, write.supply.now);
    RunTwice(cfg, s0, looks, read);
    RunTwice(cfg, s0, looks + [read], write);
    JudgeFollowsMatrix(cfg, s.fs, s.rows[id], q, read.Proceed?, write.supply.now);
    DecideAndWrite(cfg, s, id, q, read, write);
  }

  lemma {:induction false} DecideAndWrite(cfg: Config, s: State, id: nat, q: Path, read: Event, write: Event)
    requires id in s.rows && s.rows[id].quarantine == Some(q)
    requires (read.Proceed? || read.Fault?) && write.Proceed?
    ensures var row := s.rows[id];
            var verdict := Judge(cfg, s.fs, row, row.original in s.fs, q in s.fs, read.Proceed?);
            Advance(cfg, Advance(cfg, s.(task := Reconciling(id, row, Decide(row.original in s.fs, q in s.fs))), read),
                    write) ==
            s.(rows := s.rows[id := Settle(row, verdict, write.supply.now)], task := Resting(Succeeded))
  {
    var row := s.rows[id];
    var s1 := s.(task := Reconciling(id, row, Decide(row.original in s.fs, q in s.fs)));
    var s2 := Advance(cfg, s1, read);
    assert s2 == AdvanceRecover(cfg, s1, read);
    assert Advance(cfg, s2, write) == AdvanceRecover(cfg, s2, write);
  }

  /** So an interrupted clean ends in quarantine exactly when its payload is there, intact, and nothing is at
      its place. */
  lemma {:induction false} QuarantinedExactlyWhenMoved(cfg: Config, fs: Fs, row: Row, q: Path, readable: bool,
                                                       now: int, r: Row)
    requires (row.status == Planned || row.status == Moving) && MatrixSays(cfg, fs, row, q, readable, now, r)
    ensures r.status == Quarantined <==>
            && row.original !in fs && q in fs && readable && row.version == Some(Sha256TreeV1)
            && row.digest == Some(cfg.fingerprint(TreeAt(fs, q)))
    ensures r.status == Quarantined || r.status == Failed
  {
  }

  /** An interrupted action without a quarantine path is given up without a look at the files. */
  lemma {:induction false} NoPathIsGivenUp(cfg: Config, s: State, id: nat, events: seq<Event>)
    requires id in s.rows && s.rows[id].quarantine.None?
    requires s.rows[id].status == Planned || s.rows[id].status == Moving || s.rows[id].status == Restoring
    requires |events| == 2 && events[0].Proceed? && events[1].Proceed?
    ensures Run(cfg, StartRecover(s, id), events) ==
            s.(rows := s.rows[id := s.rows[id].(status := Failed, error := Some(NoQuarantinePath))],
               task := Resting(Succeeded))
  {
    var s0 := StartRecover(s, id);
    RunTwice(cfg, s0, [], events[0]);
    RunTwice(cfg, s0, [events[0]], events[1]);
    assert events == [events[0]] + [events[1]] && [events[0]] == [] + [events[0]];
    var s1 := Advance(cfg, s0, events[0]);
    assert s1 == AdvanceRecover(cfg, s0, events[0]);
    assert Advance(cfg, s1, events[1]) == AdvanceRecover(cfg, s1, events[1]);
  }

  /** `recover --all` on a table: every interrupted row is reconciled, every other row stays. */
  function RecoverAll(cfg: Config, fs: Fs, rows: Table, now: int): Table {
    map id | id in rows :: Reconciled(cfg, fs, rows[id], now)
  }

  /** Recovery converges: nothing stays interrupted, and a second recovery, at any later time, changes
      nothing. It reads the file system and writes only rows. */
  lemma {:induction false} RecoveryConverges(cfg: Config, fs: Fs, rows: Table, now: int, later: int)
    ensures forall id | id in rows :: !Interrupted(RecoverAll(cfg, fs, rows, now)[id].status)
    ensures RecoverAll(cfg, fs, RecoverAll(cfg, fs, rows, now), later) == RecoverAll(cfg, fs, rows, now)
    ensures forall id | id in rows && !Interrupted(rows[id].status) :: RecoverAll(cfg, fs, rows, now)[id] == rows[id]
  {
  }

  /** Actions reconciled one after the other, in the order of `ids`. */
  function RecoverInOrder(cfg: Config, fs: Fs, rows: Table, ids: seq<nat>, now: int): Table
    requires forall id | id in ids :: id in rows
  {
    if ids == [] then rows
    else
      var before := RecoverInOrder(cfg, fs, rows, ids[..|ids| - 1], now);
      var id := ids[|ids| - 1];
      if id in before then before[id := Reconciled(cfg, fs, before[id], now)] else before
  }

  lemma {:induction false} ReconciledTwice(cfg: Config, fs: Fs, row: Row, now: int)
    ensures Reconciled(cfg, fs, Reconciled(cfg, fs, row, now), now) == Reconciled(cfg, fs, row, now)
  {
  }

  lemma {:induction false} RecoverInOrderAt(cfg: Config, fs: Fs, rows: Table, ids: seq<nat>, now: int)
    requires forall id | id in ids :: id in rows
    ensures RecoverInOrder(cfg, fs, rows, ids, now).Keys == rows.Keys
    ensures forall id | id in rows :: RecoverInOrder(cfg, fs, rows, ids, now)[id] ==
              if id in ids then Reconciled(cfg, fs, rows[id], now) else rows[id]
  {
    if ids != [] {
      var n := |ids| - 1;
      RecoverInOrderAt(cfg, fs, rows, ids[..n], now);
      assert forall id :: id in ids <==> id in ids[..n] || id == ids[n] by { assert ids == ids[..n] + [ids[n]]; }
      ReconciledTwice(cfg, fs, rows[ids[n]], now);
    }
  }

  /** The order of the actions does not matter, as long as all interrupted ones are there. */
  lemma {:induction false} RecoverInAnyOrder(cfg: Config, fs: Fs, rows: Table, ids: seq<nat>, now: int)
    requires forall id | id in ids :: id in rows
    requires forall id | id in rows && Interrupted(rows[id].status) :: id in ids
    ensures RecoverInOrder(cfg, fs, rows, ids, now) == RecoverAll(cfg, fs, rows, now)
  {
    RecoverInOrderAt(cfg, fs, rows, ids, now);
  }

  // Crash atomicity

  predicate CleanSettled(cfg: Config, s: State, k: Case) {
    && k.id in s.rows
    && RowOf(cfg, s.rows[k.id], k)
    && (|| (s.rows[k.id].status == Quarantined && s.rows[k.id].quarantine.Some? && InQuarantine(cfg, s.fs, k))
        || (s.rows[k.id].status == Failed && AtSource(cfg, s.fs, k)))
  }

  /** An occupied place stays as it is, and so does the payload that should go there. */
  predicate RestoreSettled(cfg: Config, s: State, k: Case, occupied: bool) {
    && k.id in s.rows
    && RowOf(cfg, s.rows[k.id], k)
    && (|| (s.rows[k.id].status == Restored && !occupied && AtSource(cfg, s.fs, k))
        || (s.rows[k.id].status == Quarantined && Waiting(cfg, s.fs, k, occupied)))
  }

  /** A clean, stopped after any number of steps. */
  function StoppedClean(cfg: Config, s: State, c: Candidate, events: seq<Event>): State {
    Finish(Run(cfg, StartClean(s, c), events), Died)
  }

  function StoppedRestore(cfg: Config, s: State, id: nat, events: seq<Event>): State {
    Finish(Run(cfg, StartRestore(s, id), events), Died)
  }

  predicate RecoveryGoing(s: State, id: nat) {
    match s.task
    case Reconciling(i, _, _) => i == id
    case Resting(o) => o == Succeeded ==> id in s.rows && !Interrupted(s.rows[id].status)
    case _ => false
  }

  lemma {:induction false} RecoveryGoes(cfg: Config, s: State, id: nat, events: seq<Event>)
    requires RecoveryGoing(s, id)
    ensures RecoveryGoing(Run(cfg, s, events), id)
  {
    if events != [] {
      RecoveryGoes(cfg, s, id, events[..|events| - 1]);
    }
  }

  /** Cleaning, stopped anywhere, then recovered, whatever fails but the decisive reads: without a row the
      payload is where it was; a row ends `quarantined` with the payload in quarantine only, or `failed` with
      the payload at its place only. */
  lemma {:induction false} CleanCrashAtomic(cfg: Config, s: State, c: Candidate, events: seq<Event>,
                                            recovery: seq<Event>, k: Case)
    requires Inv(cfg, s) && s.task.Resting?
    requires c.path in s.fs && !Overlap(c.path, cfg.quarantineRoot)
    requires k == Case(c.path, TreeAt(s.fs, c.path), s.nextId)
    requires UndisturbedRun(cfg, StartClean(s, c), events, c.path)
    ensures var s' := StoppedClean(cfg, s, c, events);
            && Inv(cfg, s')
            && (k.id !in s'.rows ==> AtSource(cfg, s'.fs, k))
            && (k.id in s'.rows && !Interrupted(s'.rows[k.id].status) ==> CleanSettled(cfg, s', k))
            && (k.id in s'.rows && UndisturbedRun(cfg, StartRecover(s', k.id), recovery, c.path) ==>
              var s'' := Run(cfg, StartRecover(s', k.id), recovery);
              s''.task == Resting(Succeeded) ==> CleanSettled(cfg, s'', k))
  {
    var s0 := StartClean(s, c);
    assert AtSource(cfg, s.fs, k);
    StartCarries(cfg, s, c, k.id);
    CleanCaseRun(cfg, s0, events, k);
    var s' := StoppedClean(cfg, s, c, events);
    StartCarries(cfg, s', c, k.id);
    if k.id in s'.rows && UndisturbedRun(cfg, StartRecover(s', k.id), recovery, c.path) {
      CleanCaseRun(cfg, StartRecover(s', k.id), recovery, k);
      RecoveryGoes(cfg, StartRecover(s', k.id), k.id, recovery);
    }
  }

  /** Restoring, stopped anywhere, then recovered: `restored` with the payload at its place only, or
      `quarantined` with the payload in quarantine only.  A place that was occupied stays occupied, and the
      action quarantined. */
  lemma {:induction false} RestoreCrashAtomic(cfg: Config, s: State, events: seq<Event>, recovery: seq<Event>, k: Case)
    requires Inv(cfg, s) && s.task.Resting? && !Overlap(k.src, cfg.quarantineRoot)
    requires k.id in s.rows && RowOf(cfg, s.rows[k.id], k) && s.rows[k.id].status == Quarantined
    requires Waiting(cfg, s.fs, k, k.src in s.fs)
    requires UndisturbedRun(cfg, StartRestore(s, k.id), events, k.src)
    ensures var s' := StoppedRestore(cfg, s, k.id, events);
            && Inv(cfg, s')
            && k.id in s'.rows
            && (!Interrupted(s'.rows[k.id].status) ==> RestoreSettled(cfg, s', k, k.src in s.fs))
            && (UndisturbedRun(cfg, StartRecover(s', k.id), recovery, k.src) ==>
              var s'' := Run(cfg, StartRecover(s', k.id), recovery);
              s''.task == Resting(Succeeded) ==> RestoreSettled(cfg, s'', k, k.src in s.fs))
  {
    var c := Candidate(k.src, Low, true, Quarantine, None, None);
    var occupied := k.src in s.fs;
    StartCarries(cfg, s, c, k.id);
    assert RowOk(cfg, s.fs, k.id, s.rows[k.id]);
    RestoreCaseRun(cfg, StartRestore(s, k.id), events, k, occupied);
    var s' := StoppedRestore(cfg, s, k.id, events);
    StartCarries(cfg, s', c, k.id);
    if UndisturbedRun(cfg, StartRecover(s', k.id), recovery, k.src) {
      RestoreCaseRun(cfg, StartRecover(s', k.id), recovery, k, occupied);
      RecoveryGoes(cfg, StartRecover(s', k.id), k.id, recovery);
    }
  }

  predicate RestoreGoing(s: State, id: nat) {
    match s.task
    case RestoringAction(i, _, _) => i == id
    case Resting(o) => o == Succeeded ==> id in s.rows && s.rows[id].status == Restored
    case _ => false
  }

  lemma {:induction false} RestoreGoes(cfg: Config, s: State, id: nat, events: seq<Event>)
    requires RestoreGoing(s, id) && (s.task.RestoringAction? ==> id in s.rows)
    ensures RestoreGoing(Run(cfg, s, events), id)
    ensures Run(cfg, s, events).task.RestoringAction? ==> id in Run(cfg, s, events).rows
  {
    if events != [] {
      RestoreGoes(cfg, s, id, events[..|events| - 1]);
    }
  }

  /** A clean that succeeded, followed by a restore that succeeded, gives back the tree that was at the
      path, and takes it out of quarantine. */
  lemma {:induction false} CleanThenRestoreIsIdentity(
    cfg: Config, s: State, c: Candidate, cleaning: seq<Event>, restoring: seq<Event>)
    requires Inv(cfg, s) && s.task.Resting?
    requires c.path in s.fs && !Overlap(c.path, cfg.quarantineRoot)
    requires UndisturbedRun(cfg, StartClean(s, c), cleaning, c.path)
    requires s.nextId in StoppedClean(cfg, s, c, cleaning).rows
    requires StoppedClean(cfg, s, c, cleaning).rows[s.nextId].status == Quarantined
    requires UndisturbedRun(cfg, StartRestore(StoppedClean(cfg, s, c, cleaning), s.nextId), restoring, c.path)
    requires Run(cfg, StartRestore(StoppedClean(cfg, s, c, cleaning), s.nextId), restoring).task == Resting(Succeeded)
    ensures var s' := Run(cfg, StartRestore(StoppedClean(cfg, s, c, cleaning), s.nextId), restoring);
            && c.path in s'.fs
            && TreeAt(s'.fs, c.path) == TreeAt(s.fs, c.path)
            && PayloadPath(cfg, s.nextId) !in s'.fs
            && s.nextId in s'.rows && s'.rows[s.nextId].status == Restored
  {
    var k := Case(c.path, TreeAt(s.fs, c.path), s.nextId);
    CleanCrashAtomic(cfg, s, c, cleaning, [], k);
    var middle := StoppedClean(cfg, s, c, cleaning);
    RestoreCrashAtomic(cfg, middle, restoring, [], k);
    RestoreGoes(cfg, StartRestore(middle, k.id), k.id, restoring);
  }
}
