/** The three commands as they are written: sequences of statements with early returns, over a file
    system and a table that they update.  What happens around each statement comes from a script; a
    script that ends is a process that dies.  Each method is shown to be a run of the protocol. */
module Commands {
  import opened Base
  import opened Policy
  import opened FileSystem
  import opened Protocol
  import opened Recovery
  import opened Cleaning
  import opened Restoring
  import A = Admission
  import B = Batch

  lemma {:induction false} OutsideRun(cfg: Config, s: State, history: seq<Event>, e: Event)
    requires e.Outside?
    ensures Run(cfg, s, history + [e]) == Run(cfg, s, history).(fs := e.fs)
  {
    RunTwice(cfg, s, history, e);
  }

  // Commands under a smooth script

  /** What was taken from a script, and what is left of it: all of it, or the process has died at its end. */
  predicate Consumed(script: seq<Event>, history: seq<Event>, rest: seq<Event>) {
    history + rest == script || (rest == [] && history == script + [Crash])
  }

  lemma {:induction false} QuietScript(script: seq<Event>, history: seq<Event>, rest: seq<Event>)
    requires Consumed(script, history, rest)
    ensures A.Quiet(script) ==> A.Quiet(history)
  {
    forall e | e in history ensures e in script || e == Crash {
      if history + rest == script { assert e in history + rest; }
    }
  }

  /** The table has changed, so the candidate was admitted. */
  lemma {:induction false} AdmittedByScript(cfg: Config, s: State, c: Candidate, script: seq<Event>,
                                            history: seq<Event>, rest: seq<Event>)
    requires Consumed(script, history, rest)
    ensures var now := Run(cfg, StartClean(s, c), history);
            now.rows != s.rows || now.nextId != s.nextId ==>
              && c.risk == Low && c.reversible && (c.action == Quarantine || c.action == Trash)
              && cfg.scanRoot <= c.path
              && (A.Quiet(script) ==> A.ScannedAt(s.fs, c, c.path) && A.OnDeviceOf(s.fs, c.path, cfg.quarantineRoot))
  {
    var now := Run(cfg, StartClean(s, c), history);
    QuietScript(script, history, rest);
    if now.rows != s.rows || now.nextId != s.nextId {
      var first, device, last := A.InsertedMeansAdmitted(cfg, s, c, history);
    }
  }

  /** A command that is done before its script ends does not die at the end of it. */
  lemma {:induction false} TakenWhileGoing(cfg: Config, s: State, script: seq<Event>, history: seq<Event>,
                                           rest: seq<Event>)
    requires Consumed(script, history, rest) && Run(cfg, s, script).task.Resting?
    requires history != [] ==> !Run(cfg, s, history[..|history| - 1]).task.Resting?
    ensures |history| <= |script| && history == script[..|history|] && rest == script[|history|..]
  {
    assert (script + [Crash])[..|script + [Crash]| - 1] == script;
  }

  /** Nothing will go wrong for a clean of `c`. */
  ghost predicate GoesWell(cfg: Config, s: State, c: Candidate, script: seq<Event>) {
    AllProceed(script) && |script| >= CleanSteps(cfg, s) && Fit(cfg, s, c)
  }

  /** A command that stops when it is done takes exactly the statements of an undisturbed clean. */
  lemma {:induction false} SmoothClean(cfg: Config, s: State, c: Candidate, script: seq<Event>, history: seq<Event>,
                                       rest: seq<Event>)
    requires GoesWell(cfg, s, c, script) && Consumed(script, history, rest)
    requires Run(cfg, StartClean(s, c), history).task.Resting?
    requires history != [] ==> !Run(cfg, StartClean(s, c), history[..|history| - 1]).task.Resting?
    ensures AllProceed(history) && |history| == CleanSteps(cfg, s) && rest == script[CleanSteps(cfg, s)..]
    ensures var s' := Run(cfg, StartClean(s, c), history);
            s'.task == Resting(Succeeded) && Cleaned(cfg, s, c, s')
  {
    CleanSucceeds(cfg, s, c, script);
    TakenWhileGoing(cfg, StartClean(s, c), script, history, rest);
    CleanSucceeds(cfg, s, c, history);
    if |history| > CleanSteps(cfg, s) {
      CleanSucceeds(cfg, s, c, history[..|history| - 1]);
    }
  }

  lemma {:induction false} SmoothRecover(cfg: Config, s: State, id: nat, script: seq<Event>, history: seq<Event>,
                                         rest: seq<Event>, now: int)
    requires id in s.rows && Interrupted(s.rows[id].status)
    requires Smooth(script, now) && |script| >= 5 && Consumed(script, history, rest)
    requires Run(cfg, StartRecover(s, id), history).task.Resting?
    requires history != [] ==> !Run(cfg, StartRecover(s, id), history[..|history| - 1]).task.Resting?
    ensures |rest| >= |script| - 5 && Smooth(rest, now)
    ensures Run(cfg, StartRecover(s, id), history) ==
            s.(rows := s.rows[id := Reconciled(cfg, s.fs, s.rows[id], now)], task := Resting(Succeeded))
  {
    RecoverOne(cfg, s, id, script, now);
    TakenWhileGoing(cfg, StartRecover(s, id), script, history, rest);
    RecoverOne(cfg, s, id, history, now);
    if |history| > 5 {
      RecoverOne(cfg, s, id, history[..|history| - 1], now);
    }
  }

  /** Only a crash kills the process. */
  lemma {:induction false} OnlyCrashKills(cfg: Config, s: State, e: Event)
    requires !s.task.Resting? && !e.Outside?
    ensures Advance(cfg, s, e).task == Resting(Died) <==> e.Crash?
  {
    if !e.Crash? {
      if s.task.Cleaning? {
        CleanLives(cfg, s, e);
      } else if s.task.RestoringAction? {
        RestoreLives(cfg, s, e);
      }
    }
  }

  lemma {:induction false} CleanLives(cfg: Config, s: State, e: Event)
    requires s.task.Cleaning?
    ensures AdvanceClean(cfg, s, e).task != Resting(Died)
  {
  }

  lemma {:induction false} RestoreLives(cfg: Config, s: State, e: Event)
    requires s.task.RestoringAction?
    ensures AdvanceRestore(cfg, s, e).task != Resting(Died)
  {
  }

  lemma {:induction false} OneMoreRun(cfg: Config, s: State, cs: seq<Candidate>, runs: seq<seq<Event>>, i: nat,
                                      run: seq<Event>)
    requires i < |cs| && |runs| == i
    ensures var now := Run(cfg, StartClean(B.After(cfg, s, cs[..i], runs), cs[i]), run);
            && B.After(cfg, s, cs[..i + 1], runs + [run]) == now
            && B.Successes(cfg, s, cs[..i + 1], runs + [run]) ==
               B.Successes(cfg, s, cs[..i], runs) + if now.task == Resting(Succeeded) then 1 else 0
  {
    assert cs[..i + 1][..i] == cs[..i] && (runs + [run])[..i] == runs;
  }

  /** Nothing will go wrong for a restore of action `id`. */
  ghost predicate RestoreGoesWell(cfg: Config, s: State, id: nat, script: seq<Event>, now: int) {
    Smooth(script, now) && Restorable(cfg, s, id) && |script| >= RestoreSteps(s.fs, s.rows[id].original)
  }

  lemma {:induction false} SmoothRestore(cfg: Config, s: State, id: nat, script: seq<Event>, history: seq<Event>,
                                         rest: seq<Event>, now: int)
    requires RestoreGoesWell(cfg, s, id, script, now) && Consumed(script, history, rest)
    requires Run(cfg, StartRestore(s, id), history).task.Resting?
    requires history != [] ==> !Run(cfg, StartRestore(s, id), history[..|history| - 1]).task.Resting?
    ensures rest == script[RestoreSteps(s.fs, s.rows[id].original)..]
    ensures var s' := Run(cfg, StartRestore(s, id), history);
            s'.task == Resting(Succeeded) && RestoredState(cfg, s, id, now, s')
  {
    RestoreSucceeds(cfg, s, id, now, script);
    TakenWhileGoing(cfg, StartRestore(s, id), script, history, rest);
    RestoreSucceeds(cfg, s, id, now, history);
    if |history| > RestoreSteps(s.fs, s.rows[id].original) {
      RestoreSucceeds(cfg, s, id, now, history[..|history| - 1]);
    }
  }

  /** The loop has gone well so far, and nothing will go wrong for the rest of it. */
  ghost predicate LoopGoesWell(cfg: Config, s: State, cs: seq<Candidate>, runs: seq<seq<Event>>, script: seq<Event>) {
    && B.Executables(cfg, s, cs) && B.Smoothly(runs)
    && AllProceed(script) && |script| >= CLEAN_STEPS * (|cs| - |runs|)
  }

  /** Then the next candidate is as ready as it was before. */
  lemma {:induction false} NextGoesWell(cfg: Config, s: State, cs: seq<Candidate>, runs: seq<seq<Event>>, i: nat,
                                        script: seq<Event>)
    requires LoopGoesWell(cfg, s, cs, runs, script) && i < |cs| && |runs| == i
    ensures var now := B.After(cfg, s, cs[..i], runs);
            GoesWell(cfg, now, cs[i], script) && CleanSteps(cfg, now) == CLEAN_STEPS
  {
    B.BatchSucceeds(cfg, s, cs[..i], runs);
    B.NextIsReady(cfg, s, cs[..i], B.Numbered(s.nextId, cs[..i]), cs[i], B.After(cfg, s, cs[..i], runs));
    PreparedIsFit(cfg, B.After(cfg, s, cs[..i], runs), cs[i]);
  }

  lemma {:induction false} StillGoesWell(cfg: Config, s: State, cs: seq<Candidate>, runs: seq<seq<Event>>,
                                         script: seq<Event>, run: seq<Event>)
    requires LoopGoesWell(cfg, s, cs, runs, script) && |runs| < |cs|
    requires AllProceed(run) && |run| == CLEAN_STEPS <= |script|
    ensures LoopGoesWell(cfg, s, cs, runs + [run], script[CLEAN_STEPS..])
  {
  }

  lemma {:induction false} AllAreTaken(cfg: Config, s: State, cs: seq<Candidate>, runs: seq<seq<Event>>, now: State)
    requires |runs| == |cs| && B.Executables(cfg, s, cs) && B.Smoothly(runs) && now == B.After(cfg, s, cs, runs)
    ensures B.Successes(cfg, s, cs, runs) == |cs| && B.LoopDone(cfg, s, cs, now)
  {
    B.BatchSucceeds(cfg, s, cs, runs);
    B.BatchCountsAll(cfg, s, cs, runs);
  }

  lemma {:induction false} JudgedFollows(cfg: Config, fs: Fs, row: Row, q: Path, readable: bool)
    requires row.quarantine == Some(q)
    ensures Interrupted(row.status) ==>
              forall now :: MatrixSays(cfg, fs, row, q, readable, now,
                                       Settle(row, Judge(cfg, fs, row, row.original in fs, q in fs, readable), now))
  {
    if Interrupted(row.status) {
      forall now ensures MatrixSays(cfg, fs, row, q, readable, now,
                                    Settle(row, Judge(cfg, fs, row, row.original in fs, q in fs, readable), now)) {
        JudgeFollowsMatrix(cfg, fs, row, q, readable, now);
      }
    }
  }

  /** How many of these actions are given up. */
  function CountFailed(rows: Table, ids: seq<nat>): (n: nat)
    ensures n <= |ids|
  {
    if ids == [] then 0
    else
      var id := ids[|ids| - 1];
      CountFailed(rows, ids[..|ids| - 1]) + if id in rows && rows[id].status == Failed then 1 else 0
  }

  lemma {:induction false} CountStays(before: Table, rows: Table, ids: seq<nat>)
    requires forall id | id in ids :: (id in before <==> id in rows) && (id in rows ==> before[id] == rows[id])
    ensures CountFailed(before, ids) == CountFailed(rows, ids)
  {
    if ids != [] {
      CountStays(before, rows, ids[..|ids| - 1]);
      assert ids[|ids| - 1] in ids;
    }
  }

  lemma {:induction false} CountOneMore(before: Table, rows: Table, ids: seq<nat>, i: nat)
    requires i < |ids| && forall j, k | 0 <= j < k < |ids| :: ids[j] != ids[k]
    requires rows.Keys == before.Keys && forall j | j in rows && j != ids[i] :: rows[j] == before[j]
    requires ids[i] in rows
    ensures CountFailed(rows, ids[..i + 1]) ==
            CountFailed(before, ids[..i]) + if rows[ids[i]].status == Failed then 1 else 0
  {
    assert ids[..i + 1][..i] == ids[..i];
    CountStays(before, rows, ids[..i]);
  }

  /** Part of `recover --all` is done: the rows of `done` are settled, the others are as they were. */
  predicate Settled(before: Table, rows: Table, done: set<nat>) {
    && rows.Keys == before.Keys
    && (forall j | j in rows && j !in done :: rows[j] == before[j])
    && (forall j | j in done :: j in rows && !Interrupted(rows[j].status))
  }

  /** And undisturbed: they are reconciled. */
  predicate AllReconciled(cfg: Config, fs: Fs, before: Table, rows: Table, done: set<nat>, now: int) {
    rows.Keys == before.Keys && forall j | j in done && j in rows :: rows[j] == Reconciled(cfg, fs, before[j], now)
  }

  lemma {:induction false} SettledOneMore(before: Table, rows: Table, done: set<nat>, id: nat, rows': Table)
    requires Settled(before, rows, done) && id in rows && rows'.Keys == rows.Keys
    requires (forall j | j in rows && j != id :: rows'[j] == rows[j]) && !Interrupted(rows'[id].status)
    ensures Settled(before, rows', done + {id})
  {
  }

  lemma {:induction false} ReconciledOneMore(cfg: Config, fs: Fs, before: Table, rows: Table, done: set<nat>, id: nat,
                                             now: int)
    requires AllReconciled(cfg, fs, before, rows, done, now) && id in rows && id !in done && rows[id] == before[id]
    ensures AllReconciled(cfg, fs, before, rows[id := Reconciled(cfg, fs, rows[id], now)], done + {id}, now)
  {
  }

  class Tidyfs {
    const cfg: Config
    var fs: Fs
    var rows: Table
    var nextId: nat
    var script: seq<Event>
    var alive: bool

    // The command so far: where it started, what has happened since, which step is next, and its script
    ghost var start: State
    ghost var history: seq<Event>
    ghost var task: Task
    ghost var given: seq<Event>

    ghost function Now(): State
      reads this
    {
      State(fs, rows, nextId, task)
    }

    /** The state in which the last statement got its outcome. */
    ghost function Met(): State
      reads this
    {
      if history == [] then start else Run(cfg, start, history[..|history| - 1])
    }

    /** The outcome it got. */
    ghost function Last(): Event
      reads this
    {
      if history == [] then Crash else history[|history| - 1]
    }

    ghost predicate Valid()
      reads this
    {
      && Now() == Run(cfg, start, history)
      && (history != [] ==> !Met().task.Resting?)
      && Consumed(given, history, script)
      && (alive <==> task != Resting(Died))
    }

    /** The next statement has got the outcome `e`, and not yet had its effect. */
    ghost predicate Pending(e: Event)
      reads this
    {
      && Now() == Run(cfg, start, history)
      && !task.Resting? && !e.Outside?
      && Consumed(given, history + [e], script)
      && (alive <==> !e.Crash?)
    }

    constructor (cfg: Config, fs: Fs, rows: Table, nextId: nat, script: seq<Event>)
      ensures Valid() && task == Resting(Idle) && alive
      ensures this.cfg == cfg && this.fs == fs && this.rows == rows && this.nextId == nextId && this.script == script
    {
      this.cfg, this.fs, this.rows, this.nextId, this.script := cfg, fs, rows, nextId, script;
      this.task := Resting(Idle);
      this.start := State(fs, rows, nextId, Resting(Idle));
      this.history := [];
      this.given := script;
      this.alive := true;
    }

    ghost method Started(s: State)
      requires s == State(fs, rows, nextId, s.task) && alive && s.task != Resting(Died)
      modifies this`start, this`history, this`task, this`given
      ensures Valid() && start == s && history == [] && task == s.task && given == script
    {
      start, history, task, given := s, [], s.task, script;
    }

    /** Other programs act until the next statement gets its outcome. */
    method Await() returns (e: Event)
      requires Valid() && !task.Resting?
      modifies this`fs, this`alive, this`script, this`history
      ensures Pending(e) && |script| <= |old(script)| && (!e.Crash? ==> |script| < |old(script)|)
    {
      assert history + script == given by {
        if history == given + [Crash] { RunTwice(cfg, start, given, Crash); }
      }
      while script != []
        invariant Now() == Run(cfg, start, history) && history + script == given && alive
        invariant |script| <= |old(script)|
      {
        e := script[0];
        script := script[1..];
        assert history + [e] + script == given;
        if !e.Outside? {
          alive := !e.Crash?;
          return;
        }
        OutsideRun(cfg, start, history, e);
        fs, history := e.fs, history + [e];
      }
      e := Crash;
      alive := false;
    }

    /** The statement's effect on files and rows is the protocol's; its next step follows. */
    ghost method Took(s: State, e: Event)
      requires s == Run(cfg, start, history) && !s.task.Resting? && Consumed(given, history + [e], script)
      requires !e.Outside? && (alive <==> !e.Crash?)
      requires State(fs, rows, nextId, Advance(cfg, s, e).task) == Advance(cfg, s, e)
      modifies this`history, this`task
      ensures Valid() && Met() == s && Last() == e && task == Advance(cfg, s, e).task
    {
      RunTwice(cfg, start, history, e);
      OnlyCrashKills(cfg, s, e);
      assert (history + [e])[..|history + [e]| - 1] == history;
      history, task := history + [e], Advance(cfg, s, e).task;
    }

    /** The command is over, without success. */
    ghost function Over(e: Event): Task {
      Resting(if e.Crash? then Died else Refused)
    }

    // clean.rs

    /** `record_action_failure`: an error of the database is ignored. */
    method RecordActionFailure(id: nat, cause: Cause)
      requires Valid() && task.Cleaning? && task.clean == RecordFailure(cause) && task.id == id
      modifies this`fs, this`alive, this`rows, this`script, this`history, this`task
      ensures Valid() && task == Over(Last())
      ensures rows == if Last().Proceed? && id in old(rows)
                      then old(rows)[id := old(rows)[id].(status := Failed, error := Some(cause))] else old(rows)
    {
      var e := Await();
      ghost var s := Now();
      if e.Proceed? {
        rows := SetStatus(rows, id, Failed, Some(cause));
      }
      Took(s, e);
    }

    /** `preflight_candidate`. */
    method PreflightCandidate(c: Candidate) returns (ok: bool)
      requires Valid() && task == Cleaning(c, [], 0, Preflight)
      modifies this`fs, this`alive, this`script, this`history, this`task
      ensures Valid() && fs == Met().fs
      ensures ok <==>
                && Last().Proceed? && c.risk == Low && c.reversible && (c.action == Quarantine || c.action == Trash)
                && cfg.scanRoot <= c.path && A.ScannedAt(fs, c, c.path)
      ensures task == if ok then Cleaning(c, [], 0, CheckFilesystem) else Over(Last())
    {
      var e := Await();
      ghost var s := Now();
      ok := e.Proceed? && Executable(cfg, c) && HoldsScanned(fs, c, c.path);
      A.HoldsMeansScanned(fs, c, c.path);
      Took(s, e);
    }

    method EnsureSameFilesystem(c: Candidate) returns (ok: bool)
      requires Valid() && task == Cleaning(c, [], 0, CheckFilesystem)
      modifies this`fs, this`alive, this`script, this`history, this`task
      ensures Valid() && fs == Met().fs
      ensures ok <==> Last().Proceed? && [] in fs && A.OnDeviceOf(fs, c.path, cfg.quarantineRoot)
      ensures task == if ok then Cleaning(c, [], 0, FingerprintSource) else Over(Last())
    {
      var e := Await();
      ghost var s := Now();
      ok := e.Proceed? && SameFilesystem(fs, c.path, cfg.quarantineRoot);
      if [] in fs { A.SameMeansOnDevice(fs, c.path, cfg.quarantineRoot); }
      Took(s, e);
    }

    /** The fingerprint of the source, unless it cannot be read. */
    method FingerprintCandidate(c: Candidate) returns (digest: Option<Digest>)
      requires Valid() && task == Cleaning(c, [], 0, FingerprintSource)
      modifies this`fs, this`alive, this`script, this`history, this`task
      ensures Valid() && fs == Met().fs
      ensures digest == if Last().Proceed? && c.path in fs then Some(cfg.fingerprint(TreeAt(fs, c.path))) else None
      ensures task == if digest.Some? then Cleaning(c, digest.value, 0, VerifyAgain) else Over(Last())
    {
      var e := Await();
      ghost var s := Now();
      digest := if e.Proceed? && c.path in fs then Some(cfg.fingerprint(TreeAt(fs, c.path))) else None;
      Took(s, e);
    }

    /** What a failed `verify_candidate_at_path` leads to. */
    ghost function Unverified(t: Task, e: Event): Task
      requires t.Cleaning?
    {
      if e.Crash? || t.clean.VerifyAgain? then Over(e)
      else t.(clean := RecordFailure(if t.clean.VerifySource? then SourceChanged else PayloadNotScanned))
    }

    /** `verify_candidate_at_path`, of the source before the row is inserted and before the rename, of the
        payload after it. */
    method VerifyCandidateAtPath(c: Candidate, p: Path) returns (ok: bool)
      requires Valid() && task.Cleaning? && task.candidate == c
      requires task.clean.VerifyAgain? || task.clean.VerifySource? || task.clean.VerifyPayload?
      requires p == if task.clean.VerifyPayload? then PayloadPath(cfg, task.id) else c.path
      modifies this`fs, this`alive, this`script, this`history, this`task
      ensures Valid() && fs == Met().fs
      ensures ok <==> Last().Proceed? && A.ScannedAt(fs, c, p)
      ensures task == if ok then old(task).(clean := Next(old(task).clean).value) else Unverified(old(task), Last())
    {
      var e := Await();
      ghost var s := Now();
      ok := e.Proceed? && HoldsScanned(fs, c, p);
      A.HoldsMeansScanned(fs, c, p);
      Took(s, e);
    }

    /** The fingerprint of the source, checked to be that of the scanned object after it was taken. */
    method FingerprintScanned(c: Candidate) returns (digest: Option<Digest>)
      requires Valid() && task == Cleaning(c, [], 0, FingerprintSource)
      modifies this`fs, this`alive, this`script, this`history, this`task
      ensures Valid()
      ensures digest.Some? ==> A.ScannedAt(fs, c, c.path)
      ensures task == if digest.Some? then Cleaning(c, digest.value, 0, Insert) else Over(Last())
    {
      digest := FingerprintCandidate(c);
      if digest.None? { return; }
      var ok := VerifyCandidateAtPath(c, c.path);
      if !ok { digest := None; }
    }

    /** The checks up to the insertion of the row: the digest of the source, unless one refuses.  They write
        no row. */
    method Admit(c: Candidate) returns (digest: Option<Digest>)
      requires Valid() && task == Cleaning(c, [], 0, Preflight)
      modifies this`fs, this`alive, this`script, this`history, this`task
      ensures Valid()
      ensures digest.Some? ==>
                && c.risk == Low && c.reversible && (c.action == Quarantine || c.action == Trash)
                && cfg.scanRoot <= c.path && A.ScannedAt(fs, c, c.path)
      ensures task == if digest.Some? then Cleaning(c, digest.value, 0, Insert) else Over(Last())
    {
      var ok := PreflightCandidate(c);
      if !ok { return None; }
      ok := EnsureSameFilesystem(c);
      if !ok { return None; }
      digest := FingerprintScanned(c);
    }

    /** What is inserted for a candidate. */
    ghost function PlannedRow(c: Candidate, digest: Digest): Row {
      Row(c.path, None, Planned, None, None, None, Some(digest), Some(Sha256TreeV1))
    }

    method InsertAction(c: Candidate, digest: Digest) returns (action: Option<nat>)
      requires Valid() && task == Cleaning(c, digest, 0, Insert)
      modifies this`fs, this`alive, this`rows, this`nextId, this`script, this`history, this`task
      ensures Valid() && action == if Last().Proceed? then Some(old(nextId)) else None
      ensures nextId == if action.Some? then old(nextId) + 1 else old(nextId)
      ensures rows == if action.Some? then old(rows)[old(nextId) := PlannedRow(c, digest)] else old(rows)
      ensures task == if action.Some? then Cleaning(c, digest, old(nextId), SetIntent) else Over(Last())
    {
      var e := Await();
      ghost var s := Now();
      action := if e.Proceed? then Some(nextId) else None;
      if e.Proceed? {
        rows, nextId := rows[nextId := NewRow(c, digest)], nextId + 1;
      }
      Took(s, e);
    }

    method SetActionIntent(id: nat) returns (ok: bool)
      requires Valid() && task.Cleaning? && task.clean == SetIntent && task.id == id
      modifies this`fs, this`alive, this`rows, this`script, this`history, this`task
      ensures Valid() && (ok <==> Last().Proceed?)
      ensures rows == if ok && id in old(rows) && old(rows)[id].status == Planned
                      then old(rows)[id := old(rows)[id].(quarantine := Some(PayloadPath(cfg, id)))] else old(rows)
      ensures task == if ok then old(task).(clean := MakeActionDir) else Over(Last())
    {
      var e := Await();
      ghost var s := Now();
      ok := e.Proceed?;
      if ok {
        rows := SetIntentPath(rows, id, PayloadPath(cfg, id));
      }
      Took(s, e);
    }

    /** `create_dir_all` of the action directory, one level after the other. */
    method MakeDirectory(c: Candidate, digest: Digest, id: nat) returns (ok: bool)
      requires Valid() && task == Cleaning(c, digest, id, MakeActionDir)
      modifies this`fs, this`alive, this`script, this`history, this`task
      ensures Valid() && (ok ==> IsDir(fs, ActionDir(cfg, id)))
      ensures task == if ok then Cleaning(c, digest, id, WriteManifest)
                      else if Last().Crash? then Resting(Died)
                      else Cleaning(c, digest, id, RecordFailure(PrepareFailed))
    {
      ok := false;
      while !ok
        invariant Valid() && (ok ==> IsDir(fs, ActionDir(cfg, id)))
        invariant task == Cleaning(c, digest, id, if ok then WriteManifest else MakeActionDir)
        decreases |script|, !ok
      {
        var e := Await();
        ghost var s := Now();
        if e.Proceed? {
          match MakeDirs(fs, ActionDir(cfg, id), e.supply.ino)
          case Ready => ok := true;
          case Blocked => Took(s, e); return;
          case Made(fs') => fs := fs';
        }
        Took(s, e);
        if !e.Proceed? { return; }
      }
    }

    /** The manifest; a write can fail after it has had its effect. */
    method WriteManifestFile(c: Candidate, digest: Digest, id: nat) returns (ok: bool)
      requires Valid() && task == Cleaning(c, digest, id, WriteManifest)
      modifies this`fs, this`alive, this`script, this`history, this`task
      ensures Valid()
      ensures var writable := IsDir(Met().fs, ActionDir(cfg, id)) && !IsDir(Met().fs, ManifestPath(cfg, id));
              && (ok <==> writable && Last().Proceed?)
              && fs == if writable && (Last().Proceed? || Last().Partial?)
                       then Create(Met().fs, ManifestPath(cfg, id),
                                   WrittenNode(Met().fs, ManifestPath(cfg, id), Last().supply))
                       else Met().fs
      ensures task == if ok then Cleaning(c, digest, id, SetMoving)
                      else if Last().Crash? then Resting(Died)
                      else Cleaning(c, digest, id, RecordFailure(PrepareFailed))
    {
      var e := Await();
      ghost var s := Now();
      var writable := IsDir(fs, ActionDir(cfg, id)) && !IsDir(fs, ManifestPath(cfg, id));
      if writable && (e.Proceed? || e.Partial?) {
        fs := Create(fs, ManifestPath(cfg, id), WrittenNode(fs, ManifestPath(cfg, id), e.supply));
      }
      ok := writable && e.Proceed?;
      Took(s, e);
    }

    /** The row of `id` after a statement that failed: as it was, unless the failure has been recorded. */
    ghost predicate FailureRecorded(before: Table, id: nat, causes: set<Cause>)
      reads this
    {
      if Last().Proceed? && id in before then
        exists cause | cause in causes :: rows == before[id := before[id].(status := Failed, error := Some(cause))]
      else rows == before
    }

    /** The directory, then the manifest, then what is recorded when one fails. */
    method Prepare(c: Candidate, digest: Digest, id: nat) returns (ok: bool)
      requires Valid() && task == Cleaning(c, digest, id, MakeActionDir)
      modifies this`fs, this`alive, this`rows, this`script, this`history, this`task
      ensures Valid()
      ensures ok ==> ManifestPath(cfg, id) in fs && rows == old(rows)
      ensures !ok ==> FailureRecorded(old(rows), id, {PrepareFailed})
      ensures task == if ok then Cleaning(c, digest, id, SetMoving) else Over(Last())
    {
      ok := MakeDirectory(c, digest, id);
      if ok {
        ok := WriteManifestFile(c, digest, id);
      }
      if !ok && alive { RecordActionFailure(id, PrepareFailed); }
    }

    /** `set_action_status` with its error passed on: `moving` before the rename, `quarantined` at the end. */
    method SetActionStatus(id: nat, status: Status) returns (ok: bool)
      requires Valid() && task.Cleaning? && task.id == id
      requires (status == Moving && task.clean == SetMoving) || (status == Quarantined && task.clean == SetQuarantined)
      modifies this`fs, this`alive, this`rows, this`script, this`history, this`task
      ensures Valid() && (ok <==> Last().Proceed?)
      ensures rows == if ok && id in old(rows)
                      then old(rows)[id := old(rows)[id].(status := status, error := None)] else old(rows)
      ensures task == if !ok then Over(Last())
                      else if status == Moving then old(task).(clean := VerifySource) else Resting(Succeeded)
    {
      var e := Await();
      ghost var s := Now();
      ok := e.Proceed?;
      if ok {
        rows := SetStatus(rows, id, status, None);
      }
      Took(s, e);
    }

    method RenamePayload(c: Candidate, id: nat) returns (ok: bool)
      requires Valid() && task.Cleaning? && task.candidate == c && task.id == id && task.clean == RenameIn
      modifies this`fs, this`alive, this`script, this`history, this`task
      ensures Valid()
      ensures var renamed := Rename(Met().fs, c.path, PayloadPath(cfg, id));
              && (ok <==> Last().Proceed? && renamed.Some?)
              && fs == if ok then renamed.value else Met().fs
      ensures task == if ok then old(task).(clean := VerifyPayload)
                      else if Last().Crash? then Resting(Died) else old(task).(clean := RecordFailure(RenameFailed))
    {
      var e := Await();
      ghost var s := Now();
      var renamed := Rename(fs, c.path, PayloadPath(cfg, id));
      ok := e.Proceed? && renamed.Some?;
      if ok {
        fs := renamed.value;
      }
      Took(s, e);
    }

    /** The last check of the source, the rename, and what is recorded when one fails. */
    method MoveIn(c: Candidate, id: nat) returns (ok: bool)
      requires Valid() && task.Cleaning? && task.candidate == c && task.id == id && task.clean == VerifySource
      modifies this`fs, this`alive, this`rows, this`script, this`history, this`task
      ensures Valid()
      ensures ok ==> rows == old(rows) && Rename(Met().fs, c.path, PayloadPath(cfg, id)) == Some(fs)
      ensures !ok ==> FailureRecorded(old(rows), id, {SourceChanged, RenameFailed})
      ensures task == if ok then old(task).(clean := VerifyPayload) else Over(Last())
    {
      ok := VerifyCandidateAtPath(c, c.path);
      if !ok {
        if alive { RecordActionFailure(id, SourceChanged); }
        return;
      }
      ok := RenamePayload(c, id);
      if !ok && alive { RecordActionFailure(id, RenameFailed); }
    }

    /** The fingerprint of the moved payload, unless it cannot be read; then the command ends at once. */
    method FingerprintMoved(c: Candidate, digest: Digest, id: nat) returns (actual: Option<Digest>)
      requires Valid() && task == Cleaning(c, digest, id, FingerprintPayload)
      modifies this`fs, this`alive, this`script, this`history, this`task
      ensures Valid() && fs == Met().fs
      ensures var payload := PayloadPath(cfg, id);
              actual == if Last().Proceed? && payload in fs then Some(cfg.fingerprint(TreeAt(fs, payload))) else None
      ensures task == if actual.None? then Over(Last())
                      else Cleaning(c, digest, id, if actual.value == digest then SetQuarantined
                                                   else RecordFailure(PayloadChanged))
    {
      var payload := PayloadPath(cfg, id);
      var e := Await();
      ghost var s := Now();
      actual := if e.Proceed? && payload in fs then Some(cfg.fingerprint(TreeAt(fs, payload))) else None;
      Took(s, e);
    }

    /** The moved payload is the scanned object, and still the one that was fingerprinted.  One that cannot
        be fingerprinted leaves the row alone. */
    method CheckPayload(c: Candidate, digest: Digest, id: nat) returns (ok: bool)
      requires Valid() && task == Cleaning(c, digest, id, VerifyPayload)
      modifies this`fs, this`alive, this`rows, this`script, this`history, this`task
      ensures Valid()
      ensures ok ==> rows == old(rows)
      ensures ok ==> PayloadPath(cfg, id) in fs && cfg.fingerprint(TreeAt(fs, PayloadPath(cfg, id))) == digest
      ensures !ok ==> rows == old(rows) || FailureRecorded(old(rows), id, {PayloadNotScanned, PayloadChanged})
      ensures task == if ok then Cleaning(c, digest, id, SetQuarantined) else Over(Last())
    {
      ok := VerifyCandidateAtPath(c, PayloadPath(cfg, id));
      if !ok {
        if alive { RecordActionFailure(id, PayloadNotScanned); }
        return;
      }
      var actual := FingerprintMoved(c, digest, id);
      ok := actual == Some(digest);
      if actual.Some? && !ok { RecordActionFailure(id, PayloadChanged); }
    }

    /** At most the row of `id` differs. */
    ghost predicate WroteOnly(before: Table, id: nat)
      reads this
    {
      rows.Keys == before.Keys && forall j | j in rows && j != id :: rows[j] == before[j]
    }

    /** The row as it is between its insertion and the end of the clean. */
    ghost predicate RowSays(c: Candidate, digest: Digest, id: nat, status: Status)
      reads this
    {
      id in rows && rows[id] == PlannedRow(c, digest).(quarantine := Some(PayloadPath(cfg, id)), status := status)
    }

    /** The payload path goes into the row before anything is made. */
    method Announce(c: Candidate, digest: Digest, id: nat) returns (ok: bool)
      requires Valid() && task == Cleaning(c, digest, id, SetIntent) && id in rows && rows[id] == PlannedRow(c, digest)
      modifies this`fs, this`alive, this`rows, this`script, this`history, this`task
      ensures Valid() && WroteOnly(old(rows), id)
      ensures ok ==> RowSays(c, digest, id, Planned)
      ensures task == if ok then Cleaning(c, digest, id, SetMoving) else Over(Last())
    {
      ok := SetActionIntent(id);
      if !ok { return; }
      ok := Prepare(c, digest, id);
    }

    /** The payload is moved and checked. */
    method Take(c: Candidate, digest: Digest, id: nat) returns (ok: bool)
      requires Valid() && task == Cleaning(c, digest, id, VerifySource) && id in rows
      modifies this`fs, this`alive, this`rows, this`script, this`history, this`task
      ensures Valid() && WroteOnly(old(rows), id) && (ok ==> rows == old(rows))
      ensures ok ==> PayloadPath(cfg, id) in fs && cfg.fingerprint(TreeAt(fs, PayloadPath(cfg, id))) == digest
      ensures task == if ok then Cleaning(c, digest, id, SetQuarantined) else Over(Last())
    {
      ok := MoveIn(c, id);
      if !ok { return; }
      ok := CheckPayload(c, digest, id);
    }

    /** From `moving` to `quarantined`. */
    method TakeAndRecord(c: Candidate, digest: Digest, id: nat) returns (ok: bool)
      requires Valid() && task == Cleaning(c, digest, id, VerifySource) && RowSays(c, digest, id, Moving)
      modifies this`fs, this`alive, this`rows, this`script, this`history, this`task
      ensures Valid() && WroteOnly(old(rows), id)
      ensures ok ==> RowSays(c, digest, id, Quarantined)
      ensures task == if ok then Resting(Succeeded) else Over(Last())
    {
      ok := Take(c, digest, id);
      if !ok { return; }
      ok := SetActionStatus(id, Quarantined);
    }

    /** From the inserted row to the payload in quarantine; the row of `id` is the only one written. */
    method CarryOut(c: Candidate, digest: Digest, id: nat) returns (ok: bool)
      requires Valid() && task == Cleaning(c, digest, id, SetIntent) && id in rows && rows[id] == PlannedRow(c, digest)
      modifies this`fs, this`alive, this`rows, this`script, this`history, this`task
      ensures Valid() && WroteOnly(old(rows), id)
      ensures ok ==> RowSays(c, digest, id, Quarantined)
      ensures task == if ok then Resting(Succeeded) else Over(Last())
    {
      ok := Announce(c, digest, id);
      if !ok { return; }
      ok := SetActionStatus(id, Moving);
      if !ok { return; }
      ok := TakeAndRecord(c, digest, id);
    }

    /** The checks, and the row that records the action. */
    method Register(c: Candidate) returns (action: Option<nat>, digest: Digest)
      requires Valid() && task == Cleaning(c, [], 0, Preflight)
      modifies this`fs, this`alive, this`rows, this`nextId, this`script, this`history, this`task
      ensures Valid()
      ensures action.Some? ==> action == Some(old(nextId)) && nextId == old(nextId) + 1
      ensures rows == if action.Some? then old(rows)[old(nextId) := PlannedRow(c, digest)] else old(rows)
      ensures task == if action.Some? then Cleaning(c, digest, old(nextId), SetIntent) else Over(Last())
    {
      var admitted := Admit(c);
      if admitted.None? { return None, []; }
      digest := admitted.value;
      action := InsertAction(c, digest);
    }

    /** The statements of `quarantine_candidate`. */
    method QuarantineStatements(c: Candidate) returns (action: Option<nat>)
      requires Valid() && task == Cleaning(c, [], 0, Preflight)
      modifies this`fs, this`alive, this`rows, this`nextId, this`script, this`history, this`task
      ensures Valid() && task == if action.Some? then Resting(Succeeded) else Over(Last())
      ensures forall j | j in old(rows) && j != old(nextId) :: j in rows && rows[j] == old(rows)[j]
      ensures action.Some? ==>
                && action == Some(old(nextId)) && nextId == old(nextId) + 1
                && exists digest :: RowSays(c, digest, old(nextId), Quarantined)
    {
      var digest;
      action, digest := Register(c);
      if action.None? { return; }
      var ok := CarryOut(c, digest, action.value);
      if !ok { action := None; }
    }

    /** `quarantine_candidate`: the id of the quarantined action, unless it fails or the process dies.
        Undisturbed, a candidate that passes the checks is quarantined. */
    method QuarantineCandidate(c: Candidate) returns (action: Option<nat>)
      requires Valid() && task.Resting? && alive
      modifies this
      ensures Valid() && start == StartClean(old(Now()), c)
      ensures task == if action.Some? then Resting(Succeeded) else Over(Last())
      ensures forall j | j in old(rows) && j != old(nextId) :: j in rows && rows[j] == old(rows)[j]
      ensures action.Some? ==>
                && action == Some(old(nextId)) && nextId == old(nextId) + 1
                && exists digest :: RowSays(c, digest, old(nextId), Quarantined)
      ensures GoesWell(cfg, old(Now()), c, old(script)) ==>
                && action.Some? && script == old(script)[CleanSteps(cfg, old(Now()))..]
                && AllProceed(history) && |history| == CleanSteps(cfg, old(Now()))
      ensures rows != old(rows) || nextId != old(nextId) ==>
                && c.risk == Low && c.reversible && (c.action == Quarantine || c.action == Trash)
                && cfg.scanRoot <= c.path
      ensures A.Quiet(old(script)) && (rows != old(rows) || nextId != old(nextId)) ==>
                A.ScannedAt(old(fs), c, c.path) && A.OnDeviceOf(old(fs), c.path, cfg.quarantineRoot)
    {
      Started(StartClean(Now(), c));
      action := QuarantineStatements(c);
      AdmittedByScript(cfg, old(Now()), c, given, history, script);
      if GoesWell(cfg, old(Now()), c, given) {
        SmoothClean(cfg, old(Now()), c, given, history, script);
      }
    }

    /** One more candidate of several: `runs` are the runs of the first `i` of `cs` since `s0`. */
    method QuarantineNext(ghost s0: State, cs: seq<Candidate>, i: nat, ghost runs: seq<seq<Event>>)
      returns (action: Option<nat>)
      requires Valid() && task.Resting? && alive && i < |cs| && |runs| == i && Now() == B.After(cfg, s0, cs[..i], runs)
      modifies this
      ensures Valid() && task == if action.Some? then Resting(Succeeded) else Over(Last())
      ensures Now() == B.After(cfg, s0, cs[..i + 1], runs + [history])
      ensures B.Successes(cfg, s0, cs[..i + 1], runs + [history]) ==
              B.Successes(cfg, s0, cs[..i], runs) + if action.Some? then 1 else 0
      ensures LoopGoesWell(cfg, s0, cs, runs, old(script)) ==>
                action.Some? && LoopGoesWell(cfg, s0, cs, runs + [history], script)
    {
      if LoopGoesWell(cfg, s0, cs, runs, script) { NextGoesWell(cfg, s0, cs, runs, i, script); }
      action := QuarantineCandidate(cs[i]);
      OneMoreRun(cfg, s0, cs, runs, i, history);
      if LoopGoesWell(cfg, s0, cs, runs, old(script)) {
        StillGoesWell(cfg, s0, cs, runs, old(script), history);
      }
    }

    /** The loop of `execute_interactive`: every candidate gets its turn, whatever became of the others, as
        long as the process lives.  Undisturbed, all of them are quarantined. */
    method ExecuteInteractive(cs: seq<Candidate>) returns (success: nat, failed: nat, ghost runs: seq<seq<Event>>)
      requires Valid() && task.Resting? && alive
      modifies this
      ensures Valid() && task.Resting? && |runs| <= |cs|
      ensures |runs| < |cs| ==> task == Resting(Died)
      ensures Now() == B.After(cfg, old(Now()), cs[..|runs|], runs)
      ensures success == B.Successes(cfg, old(Now()), cs[..|runs|], runs) && success + failed == |runs|
      ensures LoopGoesWell(cfg, old(Now()), cs, [], old(script)) ==>
                && success == |cs| && failed == 0
                && B.LoopDone(cfg, old(Now()), cs, Now())
    {
      ghost var s0 := Now();
      ghost var smooth := LoopGoesWell(cfg, s0, cs, [], script);
      success, failed, runs := 0, 0, [];
      for i := 0 to |cs|
        invariant Valid() && task.Resting? && alive && |runs| == i
        invariant Now() == B.After(cfg, s0, cs[..i], runs)
        invariant success == B.Successes(cfg, s0, cs[..i], runs) && success + failed == i
        invariant smooth ==> LoopGoesWell(cfg, s0, cs, runs, script)
      {
        var action := QuarantineNext(s0, cs, i, runs);
        runs := runs + [history];
        if action.Some? {
          success := success + 1;
        } else {
          assert !smooth;
          failed := failed + 1;
          if !alive { return; }
        }
      }
      assert cs[..|cs|] == cs;
      if smooth { AllAreTaken(cfg, s0, cs, runs, Now()); }
    }

    // restore.rs

    /** `record_restore_failure` and `record_terminal_restore_failure`: an error of the database is ignored. */
    method RecordRestoreOutcome(id: nat, status: Status, cause: Cause)
      requires Valid() && task.RestoringAction? && task.id == id && task.row.quarantine.Some?
      requires (status == Quarantined && task.restore == RecordRestoreFailure(cause)) ||
               (status == Failed && task.restore == RecordTerminalFailure(cause))
      modifies this`fs, this`alive, this`rows, this`script, this`history, this`task
      ensures Valid() && task == Over(Last())
      ensures rows == if Last().Proceed? && id in old(rows)
                      then old(rows)[id := old(rows)[id].(status := status, restoreError := Some(cause))] else old(rows)
    {
      var e := Await();
      ghost var s := Now();
      if e.Proceed? {
        rows := SetRestoreStatus(rows, id, status, Some(cause));
      }
      Took(s, e);
    }

    /** The two looks at the row that was loaded. */
    method CheckRow(id: nat, row: Row) returns (ok: bool)
      requires Valid() && task == RestoringAction(id, row, CheckStatus)
      modifies this`fs, this`alive, this`script, this`history, this`task
      ensures Valid()
      ensures ok <==> !Last().Crash? && row.quarantine.Some? && row.status == Quarantined && row.restoredAt.None?
      ensures task == if ok then RestoringAction(id, row, CheckQuarantine) else Over(Last())
    {
      var e := Await();
      ghost var s := Now();
      ok := alive && row.quarantine.Some? && row.status == Quarantined && row.restoredAt.None?;
      Took(s, e);
    }

    /** The payload is there; a path that cannot be read counts as absent. */
    method PayloadExists(id: nat, row: Row) returns (ok: bool)
      requires Valid() && task == RestoringAction(id, row, CheckQuarantine) && row.quarantine.Some?
      modifies this`fs, this`alive, this`script, this`history, this`task
      ensures Valid() && fs == Met().fs
      ensures ok <==> Last().Proceed? && row.quarantine.value in fs
      ensures task == if ok then RestoringAction(id, row, CheckOriginal) else Over(Last())
    {
      var e := Await();
      ghost var s := Now();
      ok := e.Proceed? && row.quarantine.value in fs;
      Took(s, e);
    }

    /** The destination is free, as far as it can be read. */
    method DestinationIsFree(id: nat, row: Row) returns (ok: bool)
      requires Valid() && task == RestoringAction(id, row, CheckOriginal) && row.quarantine.Some?
      modifies this`fs, this`alive, this`script, this`history, this`task
      ensures Valid() && fs == Met().fs
      ensures ok <==> !Last().Crash? && !(Last().Proceed? && row.original in fs)
      ensures task == if ok then RestoringAction(id, row, VerifyQuarantined) else Over(Last())
    {
      var e := Await();
      ghost var s := Now();
      ok := alive && !(e.Proceed? && row.original in fs);
      Took(s, e);
    }

    /** `verify_identity`, of the payload before the restore and at its place after it. */
    method VerifyIdentity(id: nat, row: Row, p: Path) returns (ok: bool)
      requires Valid() && task.RestoringAction? && task.id == id && task.row == row && row.quarantine.Some?
      requires task.restore.VerifyQuarantined? || task.restore.VerifyRestored?
      requires p == if task.restore.VerifyRestored? then row.original else row.quarantine.value
      modifies this`fs, this`alive, this`script, this`history, this`task
      ensures Valid() && fs == Met().fs
      ensures ok <==> Last().Proceed? && Fingerprinted(cfg, fs, row, p)
      ensures old(task).restore.VerifyQuarantined? ==>
                task == if ok then RestoringAction(id, row, SetRestoring) else Over(Last())
      ensures old(task).restore.VerifyRestored? ==>
                task == if ok then RestoringAction(id, row, SetRestored)
                        else if Last().Crash? then Resting(Died)
                        else RestoringAction(id, row, RecordTerminalFailure(IdentityMismatch))
    {
      var e := Await();
      ghost var s := Now();
      ok := e.Proceed? && Verified(cfg, fs, row, p);
      Took(s, e);
    }

    /** The checks of `run_restore` before it writes anything. */
    method CanRestore(id: nat, row: Row) returns (ok: bool)
      requires Valid() && task == RestoringAction(id, row, CheckStatus)
      modifies this`fs, this`alive, this`script, this`history, this`task
      ensures Valid()
      ensures ok ==> row.status == Quarantined && row.restoredAt.None? && row.quarantine.Some?
                     && Verified(cfg, fs, row, row.quarantine.value)
      ensures task == if ok then RestoringAction(id, row, SetRestoring) else Over(Last())
    {
      ok := CheckRow(id, row);
      if !ok { return; }
      ok := PayloadExists(id, row);
      if !ok { return; }
      ok := DestinationIsFree(id, row);
      if !ok { return; }
      ok := VerifyIdentity(id, row, row.quarantine.value);
    }

    method SetRestoringStatus(id: nat) returns (ok: bool)
      requires Valid() && task.RestoringAction? && task.restore == SetRestoring && task.id == id
      requires task.row.quarantine.Some?
      modifies this`fs, this`alive, this`rows, this`script, this`history, this`task
      ensures Valid() && (ok <==> Last().Proceed?)
      ensures rows == if ok && id in old(rows)
                      then old(rows)[id := old(rows)[id].(status := Restoring, restoreError := None)] else old(rows)
      ensures task == if ok then old(task).(restore := MakeParents) else Over(Last())
    {
      var e := Await();
      ghost var s := Now();
      ok := e.Proceed?;
      if ok {
        rows := SetRestoreStatus(rows, id, Restoring, None);
      }
      Took(s, e);
    }

    /** `create_dir_all` of the parent of the destination, one level after the other. */
    method MakeParentDirs(id: nat, row: Row) returns (ok: bool)
      requires Valid() && task == RestoringAction(id, row, MakeParents) && row.quarantine.Some?
      modifies this`fs, this`alive, this`script, this`history, this`task
      ensures Valid() && (ok ==> row.original == [] || IsDir(fs, Parent(row.original)))
      ensures task == if ok then RestoringAction(id, row, RenameBack)
                      else if Last().Crash? then Resting(Died)
                      else RestoringAction(id, row, RecordRestoreFailure(PrepareFailed))
    {
      ok := false;
      while !ok
        invariant Valid() && (ok ==> row.original == [] || IsDir(fs, Parent(row.original)))
        invariant task == RestoringAction(id, row, if ok then RenameBack else MakeParents)
        decreases |script|, !ok
      {
        var e := Await();
        ghost var s := Now();
        if row.original == [] {
          ok := alive;
        } else if e.Proceed? {
          match MakeDirs(fs, Parent(row.original), e.supply.ino)
          case Ready => ok := true;
          case Blocked => Took(s, e); return;
          case Made(fs') => fs := fs';
        }
        Took(s, e);
        if !ok && !e.Proceed? { return; }
      }
    }

    /** `atomic_rename_noreplace`: an existing destination is never replaced. */
    method RenameOut(id: nat, row: Row) returns (ok: bool)
      requires Valid() && task == RestoringAction(id, row, RenameBack) && row.quarantine.Some?
      modifies this`fs, this`alive, this`script, this`history, this`task
      ensures Valid()
      ensures var renamed := RenameNoReplace(Met().fs, row.quarantine.value, row.original);
              && (ok <==> Last().Proceed? && renamed.Some?)
              && fs == if ok then renamed.value else Met().fs
      ensures ok ==> row.original !in Met().fs
      ensures task == if ok then RestoringAction(id, row, VerifyRestored)
                      else if Last().Crash? then Resting(Died)
                      else RestoringAction(id, row, RecordRestoreFailure(RenameFailed))
    {
      var e := Await();
      ghost var s := Now();
      var renamed := RenameNoReplace(fs, row.quarantine.value, row.original);
      ok := e.Proceed? && renamed.Some?;
      if ok {
        fs := renamed.value;
      }
      Took(s, e);
    }

    /** The row of a restore after a statement that failed: as it was, unless the failure has been recorded. */
    ghost predicate OutcomeRecorded(before: Table, id: nat, status: Status, cause: Cause)
      reads this
    {
      rows == if Last().Proceed? && id in before
              then before[id := before[id].(status := status, restoreError := Some(cause))] else before
    }

    /** The rename, the check of the restored payload, and what is recorded when one fails: `quarantined`
        again after the one, `failed` after the other. */
    method MoveBack(id: nat, row: Row) returns (ok: bool)
      requires Valid() && task == RestoringAction(id, row, RenameBack) && row.quarantine.Some?
      modifies this`fs, this`alive, this`rows, this`script, this`history, this`task
      ensures Valid()
      ensures ok ==> rows == old(rows) && Verified(cfg, fs, row, row.original)
      ensures !ok ==> OutcomeRecorded(old(rows), id, Quarantined, RenameFailed) ||
                      OutcomeRecorded(old(rows), id, Failed, IdentityMismatch)
      ensures task == if ok then RestoringAction(id, row, SetRestored) else Over(Last())
    {
      ok := RenameOut(id, row);
      if !ok {
        if alive { RecordRestoreOutcome(id, Quarantined, RenameFailed); }
        return;
      }
      ok := VerifyIdentity(id, row, row.original);
      if !ok && alive { RecordRestoreOutcome(id, Failed, IdentityMismatch); }
    }

    method SetRestoredStatus(id: nat) returns (ok: bool)
      requires Valid() && task.RestoringAction? && task.restore == SetRestored && task.id == id
      requires task.row.quarantine.Some?
      modifies this`fs, this`alive, this`rows, this`script, this`history, this`task
      ensures Valid() && (ok <==> Last().Proceed?)
      ensures rows == if ok && id in old(rows)
                      then old(rows)[id := old(rows)[id].(status := Restored, restoredAt := Some(Last().supply.now),
                                                          error := None, restoreError := None)]
                      else old(rows)
      ensures task == if ok then Resting(Succeeded) else Over(Last())
    {
      var e := Await();
      ghost var s := Now();
      ok := e.Proceed?;
      if ok {
        rows := SetRestoredRow(rows, id, e.supply.now);
      }
      Took(s, e);
    }

    /** The parents, then what is recorded when they cannot be made. */
    method PrepareParents(id: nat, row: Row) returns (ok: bool)
      requires Valid() && task == RestoringAction(id, row, MakeParents) && row.quarantine.Some?
      modifies this`fs, this`alive, this`rows, this`script, this`history, this`task
      ensures Valid() && (if ok then rows == old(rows) else OutcomeRecorded(old(rows), id, Quarantined, PrepareFailed))
      ensures task == if ok then RestoringAction(id, row, RenameBack) else Over(Last())
    {
      ok := MakeParentDirs(id, row);
      if !ok && alive { RecordRestoreOutcome(id, Quarantined, PrepareFailed); }
    }

    /** The payload goes back to its place and is verified there. */
    method GiveBack(id: nat, row: Row) returns (ok: bool)
      requires Valid() && task == RestoringAction(id, row, MakeParents) && row.quarantine.Some? && id in rows
      modifies this`fs, this`alive, this`rows, this`script, this`history, this`task
      ensures Valid() && WroteOnly(old(rows), id) && (ok ==> rows == old(rows))
      ensures ok ==> Verified(cfg, fs, row, row.original)
      ensures task == if ok then RestoringAction(id, row, SetRestored) else Over(Last())
    {
      ok := PrepareParents(id, row);
      if !ok { return; }
      ok := MoveBack(id, row);
    }

    /** From `restoring` to `restored`. */
    method GiveBackAndRecord(id: nat, row: Row) returns (ok: bool)
      requires Valid() && task == RestoringAction(id, row, MakeParents) && row.quarantine.Some? && id in rows
      modifies this`fs, this`alive, this`rows, this`script, this`history, this`task
      ensures Valid() && WroteOnly(old(rows), id)
      ensures ok ==> rows[id].status == Restored && rows[id].restoredAt.Some?
      ensures task == if ok then Resting(Succeeded) else Over(Last())
    {
      ok := GiveBack(id, row);
      if !ok { return; }
      ok := SetRestoredStatus(id);
    }

    /** From the first write to the last; the row of `id` is the only one written. */
    method PutBack(id: nat, row: Row) returns (ok: bool)
      requires Valid() && task == RestoringAction(id, row, SetRestoring) && row.quarantine.Some? && id in rows
      modifies this`fs, this`alive, this`rows, this`script, this`history, this`task
      ensures Valid() && WroteOnly(old(rows), id)
      ensures ok ==> rows[id].status == Restored && rows[id].restoredAt.Some?
      ensures task == if ok then Resting(Succeeded) else Over(Last())
    {
      ok := SetRestoringStatus(id);
      if !ok { return; }
      ok := GiveBackAndRecord(id, row);
    }

    /** The statements of `run_restore` for a row that was found. */
    method RestoreStatements(id: nat, row: Row) returns (ok: bool)
      requires Valid() && task == RestoringAction(id, row, CheckStatus) && id in rows
      modifies this`fs, this`alive, this`rows, this`script, this`history, this`task
      ensures Valid() && WroteOnly(old(rows), id)
      ensures ok ==> row.status == Quarantined && rows[id].status == Restored
      ensures task == if ok then Resting(Succeeded) else Over(Last())
    {
      ok := CanRestore(id, row);
      if !ok { return; }
      ok := PutBack(id, row);
    }

    /** `run_restore` for one action: success is reported exactly when the row says `restored`.  Undisturbed, an
        action whose place is free is restored. */
    method RestoreAction(id: nat, ghost now: int) returns (ok: bool)
      requires Valid() && task.Resting? && alive
      modifies this
      ensures Valid() && start == StartRestore(old(Now()), id)
      ensures task.Resting? && (ok <==> task == Resting(Succeeded))
      ensures nextId == old(nextId) && WroteOnly(old(rows), id)
      ensures ok ==> id in rows && old(rows)[id].status == Quarantined && rows[id].status == Restored
      ensures RestoreGoesWell(cfg, old(Now()), id, old(script), now) ==>
                ok && RestoredState(cfg, old(Now()), id, now, Now())
    {
      Started(StartRestore(Now(), id));
      if id !in rows { return false; }
      ok := RestoreStatements(id, rows[id]);
      if RestoreGoesWell(cfg, old(Now()), id, given, now) {
        SmoothRestore(cfg, old(Now()), id, given, history, script, now);
      }
    }

    // recover.rs

    /** `path_entry_exists` of the original path; an error ends the reconciliation. */
    method SeeOriginal(id: nat, row: Row) returns (ok: bool, found: bool)
      requires Valid() && task == Reconciling(id, row, InspectOriginal)
      modifies this`fs, this`alive, this`script, this`history, this`task
      ensures Valid() && fs == Met().fs
      ensures (ok <==> Last().Proceed?) && (found <==> row.original in fs)
      ensures task == if ok then Reconciling(id, row, InspectQuarantine(found)) else Over(Last())
    {
      var e := Await();
      ghost var s := Now();
      ok, found := e.Proceed?, row.original in fs;
      Took(s, e);
    }

    method SeeQuarantine(id: nat, row: Row, original: bool) returns (ok: bool, found: bool)
      requires Valid() && task == Reconciling(id, row, InspectQuarantine(original)) && row.quarantine.Some?
      modifies this`fs, this`alive, this`script, this`history, this`task
      ensures Valid() && fs == Met().fs
      ensures (ok <==> Last().Proceed?) && (found <==> row.quarantine.value in fs)
      ensures task == if ok then Reconciling(id, row, Decide(original, found)) else Over(Last())
    {
      var e := Await();
      ghost var s := Now();
      ok, found := e.Proceed?, row.quarantine.value in fs;
      Took(s, e);
    }

    /** The reconcile functions up to their write: the verdict for the two flags and what the payload holds. */
    method JudgeAction(id: nat, row: Row, original: bool, quarantine: bool) returns (verdict: Option<Verdict>)
      requires Valid() && task == Reconciling(id, row, Decide(original, quarantine)) && row.quarantine.Some?
      modifies this`fs, this`alive, this`script, this`history, this`task
      ensures Valid() && fs == Met().fs
      ensures verdict == if Last().Crash? then None
                         else Some(Judge(cfg, fs, row, original, quarantine, Last().Proceed?))
      ensures verdict.Some? ==> forall now :: !Interrupted(Settle(row, verdict.value, now).status)
      ensures verdict.Some? && Interrupted(row.status) && (original <==> row.original in fs)
                && (quarantine <==> row.quarantine.value in fs) ==>
                forall now :: MatrixSays(cfg, fs, row, row.quarantine.value, Last().Proceed?, now,
                                         Settle(row, verdict.value, now))
      ensures task == if verdict.Some? then Reconciling(id, row, WriteVerdict(verdict.value)) else Over(Last())
    {
      var e := Await();
      ghost var s := Now();
      verdict := if alive then Some(Judge(cfg, fs, row, original, quarantine, e.Proceed?)) else None;
      JudgedFollows(cfg, fs, row, row.quarantine.value, e.Proceed?);
      Took(s, e);
    }

    /** The two existence checks, then the verdict. */
    method Inspect(id: nat, row: Row) returns (verdict: Option<Verdict>)
      requires Valid() && task == Reconciling(id, row, InspectOriginal) && row.quarantine.Some?
      modifies this`fs, this`alive, this`script, this`history, this`task
      ensures Valid()
      ensures verdict.Some? ==> exists original, quarantine, readable ::
                verdict.value == Judge(cfg, fs, row, original, quarantine, readable)
      ensures verdict.Some? ==> forall now :: !Interrupted(Settle(row, verdict.value, now).status)
      ensures task == if verdict.Some? then Reconciling(id, row, WriteVerdict(verdict.value)) else Over(Last())
    {
      var ok, original := SeeOriginal(id, row);
      if !ok { return None; }
      var quarantine;
      ok, quarantine := SeeQuarantine(id, row, original);
      if !ok { return None; }
      verdict := JudgeAction(id, row, original, quarantine);
    }

    method WriteVerdictRow(id: nat, row: Row, verdict: Verdict) returns (ok: bool)
      requires Valid() && task == Reconciling(id, row, WriteVerdict(verdict)) && id in rows && rows[id] == row
      modifies this`fs, this`alive, this`rows, this`script, this`history, this`task
      ensures Valid() && (ok <==> Last().Proceed?)
      ensures rows == if ok then old(rows)[id := Settle(row, verdict, Last().supply.now)] else old(rows)
      ensures task == if ok then Resting(Succeeded) else Over(Last())
    {
      var e := Await();
      ghost var s := Now();
      ok := e.Proceed?;
      if ok {
        rows := rows[id := Settle(row, verdict, e.supply.now)];
      }
      Took(s, e);
    }

    /** Only an interrupted row is reconciled; one without a quarantine path is given up at once. */
    method DispatchAction(id: nat, row: Row) returns (ok: bool)
      requires Valid() && task == Reconciling(id, row, Dispatch)
      modifies this`fs, this`alive, this`script, this`history, this`task
      ensures Valid()
      ensures ok <==>
                !Last().Crash? && (row.status == Planned || row.status == Moving || row.status == Restoring)
      ensures task == if !ok then Over(Last())
                      else Reconciling(id, row, if row.quarantine.None? then WriteVerdict(ToFailed(NoQuarantinePath))
                                                else InspectOriginal)
    {
      var e := Await();
      ghost var s := Now();
      ok := alive && Interrupted(row.status);
      Took(s, e);
    }

    /** `reconcile_action`: whether it reached a verdict and wrote it.  It writes one row or none; undisturbed,
        it writes exactly the reconciled row and no file. */
    method ReconcileAction(id: nat, ghost now: int) returns (ok: bool)
      requires Valid() && task.Resting? && alive && id in rows
      modifies this
      ensures Valid() && start == StartRecover(old(Now()), id)
      ensures task == if ok then Resting(Succeeded) else Over(Last())
      ensures nextId == old(nextId) && WroteOnly(old(rows), id)
      ensures if ok then !Interrupted(rows[id].status) else rows == old(rows)
      ensures Smooth(old(script), now) && |old(script)| >= 5 && Interrupted(old(rows)[id].status) ==>
                && ok && fs == old(fs) && |script| >= |old(script)| - 5 && Smooth(script, now)
                && rows == old(rows)[id := Reconciled(cfg, fs, old(rows)[id], now)]
                && (old(rows)[id].quarantine.Some? ==>
                     MatrixSays(cfg, fs, old(rows)[id], old(rows)[id].quarantine.value, true, now, rows[id]))
    {
      var row := rows[id];
      Started(StartRecover(Now(), id));
      ok := Reconcile(id, row);
      if Smooth(given, now) && |given| >= 5 && Interrupted(row.status) {
        SmoothRecover(cfg, old(Now()), id, given, history, script, now);
        if row.quarantine.Some? { JudgeFollowsMatrix(cfg, fs, row, row.quarantine.value, true, now); }
      }
    }

    /** The statements of `reconcile_action`. */
    method Reconcile(id: nat, row: Row) returns (ok: bool)
      requires Valid() && task == Reconciling(id, row, Dispatch) && id in rows && rows[id] == row
      modifies this`fs, this`alive, this`rows, this`script, this`history, this`task
      ensures Valid() && WroteOnly(old(rows), id)
      ensures if ok then !Interrupted(rows[id].status) else rows == old(rows)
      ensures task == if ok then Resting(Succeeded) else Over(Last())
    {
      ok := DispatchAction(id, row);
      if !ok { return; }
      var verdict := ToFailed(NoQuarantinePath);
      if row.quarantine.Some? {
        var judged := Inspect(id, row);
        if judged.None? { return false; }
        verdict := judged.value;
      }
      ok := WriteVerdictRow(id, row, verdict);
    }

    /** One more action of several: the rows of `done` are settled since `before`. */
    method ReconcileNext(id: nat, ghost before: Table, ghost done: set<nat>, ghost now: int) returns (ok: bool)
      requires Valid() && task.Resting? && alive && id in rows && id !in done && Settled(before, rows, done)
      modifies this
      ensures Valid() && task.Resting? && (ok ==> alive && Settled(before, rows, done + {id}))
      ensures WroteOnly(old(rows), id)
      ensures !ok ==> rows == old(rows)
      ensures Smooth(old(script), now) && |old(script)| >= 5 && Interrupted(before[id].status)
                && AllReconciled(cfg, old(fs), before, old(rows), done, now) ==>
                && ok && fs == old(fs) && |script| >= |old(script)| - 5 && Smooth(script, now)
                && AllReconciled(cfg, fs, before, rows, done + {id}, now)
    {
      ghost var was := rows;
      ok := ReconcileAction(id, now);
      if ok { SettledOneMore(before, was, done, id, rows); }
      if AllReconciled(cfg, old(fs), before, was, done, now) {
        ReconciledOneMore(cfg, old(fs), before, was, done, id, now);
      }
    }

    /** `run_recover --all` over the interrupted actions, in the order the query gives them.  A success
        leaves nothing interrupted; undisturbed it succeeds, writes no file, and the order is immaterial. */
    method RecoverEverything(ids: seq<nat>, ghost now: int) returns (ok: bool, recovered: nat, failed: nat)
      requires Valid() && task.Resting? && alive
      requires forall i, j | 0 <= i < j < |ids| :: ids[i] != ids[j]
      requires forall id :: id in ids <==> id in rows && Interrupted(rows[id].status)
      modifies this
      ensures rows.Keys == old(rows.Keys)
      ensures forall j | j in rows && j !in ids :: rows[j] == old(rows)[j]
      ensures ok ==> failed == CountFailed(rows, ids) && recovered == |ids| - failed
      ensures ok ==> forall j | j in rows :: !Interrupted(rows[j].status)
      ensures Smooth(old(script), now) && |old(script)| >= 5 * |ids| ==>
                ok && fs == old(fs) && rows == RecoverAll(cfg, fs, old(rows), now)
    {
      ghost var smooth := Smooth(script, now) && |script| >= 5 * |ids|;
      ghost var done: set<nat> := {};
      recovered, failed := 0, 0;
      for i := 0 to |ids|
        invariant Valid() && task.Resting? && alive && Settled(old(rows), rows, done)
        invariant (forall k | 0 <= k < |ids| :: ids[k] in done <==> k < i) && forall j | j in done :: j in ids
        invariant failed == CountFailed(rows, ids[..i]) && recovered + failed == i
        invariant smooth ==> fs == old(fs) && Smooth(script, now) && |script| >= 5 * (|ids| - i)
        invariant smooth ==> AllReconciled(cfg, fs, old(rows), rows, done, now)
      {
        assert ids[i] in ids && ids[i] !in done;
        ghost var was := rows;
        ok := ReconcileNext(ids[i], old(rows), done, now);
        if !ok { return; }
        CountOneMore(was, rows, ids, i);
        done := done + {ids[i]};
        if rows[ids[i]].status == Failed { failed := failed + 1; } else { recovered := recovered + 1; }
      }
      assert ids[..|ids|] == ids;
      ok := true;
    }
  }
}
