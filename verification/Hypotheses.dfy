/** What the guarantees of the protocol depend on, exactly: a candidate apart from the quarantined payloads
    (H2), and the reads that have to succeed. */
module Hypotheses {
  import opened Base
  import opened FileSystem
  import opened Protocol
  import opened Safety
  import opened Crash
  import opened Recovery
  import opened Cleaning
  import opened Restoring

  // H2: the candidate is apart from the quarantined payloads

  /** The payload of action `j` is still there, unchanged. */
  predicate Undamaged(cfg: Config, fs: Fs, fs': Fs, j: nat) {
    PayloadPath(cfg, j) in fs' && TreeAt(fs', PayloadPath(cfg, j)) == TreeAt(fs, PayloadPath(cfg, j))
  }

  /** Taking out `src` leaves the payload of another action as it is if and only if neither contains the
      other. */
  lemma {:induction false} TakenOutUndamagedIff(cfg: Config, fs: Fs, fs': Fs, src: Path, id: nat, j: nat)
    requires (forall q | !(ActionDir(cfg, id) <= q) ::
                (q in fs' <==> q in fs && !(src <= q)) && (q in fs' ==> fs'[q] == fs[q]))
    requires j != id && src in fs && PayloadPath(cfg, j) in fs && !Overlap(src, ActionDir(cfg, id))
    ensures Undamaged(cfg, fs, fs', j) <==> !Overlap(src, PayloadPath(cfg, j))
  {
    var p := PayloadPath(cfg, j);
    forall q | p <= q ensures (q in fs' <==> q in fs && !(src <= q)) && (q in fs' ==> fs'[q] == fs[q]) {
      DirsApart(cfg, j, id);
      assert ActionDir(cfg, j) <= p;
      if ActionDir(cfg, id) <= q { PrefixesOverlap(ActionDir(cfg, j), ActionDir(cfg, id), q); }
    }
    assert p <= p;
    if p <= src {
      SplitAt(p, src);
      TreeAtContents(fs, p);
      TreeAtContents(fs', p);
      assert src[|p|..] in TreeAt(fs, p) && src[|p|..] !in TreeAt(fs', p);
    } else if !(src <= p) {
      forall q | p <= q ensures (q in fs <==> q in fs') && (q in fs ==> fs[q] == fs'[q]) {
        if src <= q { PrefixesOverlap(src, p, q); }
      }
      SameTree(fs, fs', p);
    }
  }

  /** The rename of a clean, exactly: whatever its candidate is, the payload of another action survives the
      rename if and only if the candidate and that payload are apart. */
  lemma {:induction false} RenameInUndamagedIff(cfg: Config, fs: Fs, fs': Fs, src: Path, id: nat, j: nat)
    requires Rename(fs, src, PayloadPath(cfg, id)) == Some(fs')
    requires j != id && PayloadPath(cfg, j) in fs
    ensures Undamaged(cfg, fs, fs', j) <==> !Overlap(src, PayloadPath(cfg, j))
  {
    var p, dst := PayloadPath(cfg, j), PayloadPath(cfg, id);
    PayloadsApart(cfg, j, id);
    assert p <= p;
    if p <= src {
      SplitAt(p, src);
      TreeAtContents(fs, p);
      TreeAtContents(fs', p);
      assert !(dst <= src) && src <= src;
      assert src[|p|..] in TreeAt(fs, p) && src[|p|..] !in TreeAt(fs', p);
    } else if src <= p {
      assert !(dst <= p) && p !in fs';
    } else {
      MovedElsewhere(fs, fs', src, dst, p);
      SameTree(fs, fs', p);
    }
  }

  lemma {:induction false} PayloadsApart(cfg: Config, i: nat, j: nat)
    requires i != j
    ensures !Overlap(PayloadPath(cfg, i), PayloadPath(cfg, j))
  {
    DirsApart(cfg, i, j);
    var a, b := PayloadPath(cfg, i), PayloadPath(cfg, j);
    assert ActionDir(cfg, i) <= a && ActionDir(cfg, j) <= b;
    if a <= b { PrefixesOverlap(ActionDir(cfg, i), ActionDir(cfg, j), b); }
    if b <= a { PrefixesOverlap(ActionDir(cfg, i), ActionDir(cfg, j), a); }
  }

  /** The guard a caller could check before a clean: the candidate is apart from every quarantined payload. */
  predicate ApartFromPayloads(cfg: Config, rows: Table, p: Path) {
    forall j | j in rows && rows[j].status == Quarantined :: !Overlap(p, PayloadPath(cfg, j))
  }

  /** Every quarantined row of `before` is still one, with the payload it had. */
  predicate QuarantineKept(cfg: Config, before: State, after: State) {
    forall j | j in before.rows && before.rows[j].status == Quarantined ::
      j in after.rows && after.rows[j] == before.rows[j] && Undamaged(cfg, before.fs, after.fs, j)
  }

  /** H2 exactly, from the start of a clean to its end: every candidate that passes the checks of clean is
      quarantined when nothing fails, and it leaves what was quarantined before if and only if it is apart
      from each of those payloads.  No check of clean looks at that; a row whose payload is damaged goes on
      saying `quarantined`. */
  lemma {:induction false} CleanKeepsQuarantineIff(cfg: Config, s: State, c: Candidate, events: seq<Event>)
    requires Fit(cfg, s, c) && AllProceed(events) && |events| >= CleanSteps(cfg, s)
    requires forall j | j in s.rows :: j < s.nextId
    requires forall j | j in s.rows && s.rows[j].status == Quarantined :: PayloadPath(cfg, j) in s.fs
    ensures var s' := Run(cfg, StartClean(s, c), events);
            && s'.task == Resting(Succeeded)
            && (forall j | j in s.rows :: j in s'.rows && s'.rows[j] == s.rows[j])
            && (QuarantineKept(cfg, s, s') <==> ApartFromPayloads(cfg, s.rows, c.path))
  {
    CleanSucceeds(cfg, s, c, events);
    var s' := Run(cfg, StartClean(s, c), events);
    forall j | j in s.rows && s.rows[j].status == Quarantined
      ensures Undamaged(cfg, s.fs, s'.fs, j) <==> !Overlap(c.path, PayloadPath(cfg, j))
    {
      TakenOutUndamagedIff(cfg, s.fs, s'.fs, c.path, s.nextId, j);
    }
  }

  /** Such candidates there are: anything at or below the directory of an earlier action is clear of the next
      one. */
  lemma {:induction false} EarlierActionIsClear(cfg: Config, c: Candidate, j: nat, id: nat)
    requires j != id && ActionDir(cfg, j) <= c.path
    ensures Clear(cfg, c, id)
  {
    DirsApart(cfg, j, id);
    if ActionDir(cfg, id) <= c.path { PrefixesOverlap(ActionDir(cfg, j), ActionDir(cfg, id), c.path); }
  }

  // The reads that have to succeed

  lemma {:induction false} SidesExclude(cfg: Config, fs: Fs, k: Case)
    ensures !(AtSource(cfg, fs, k) && InQuarantine(cfg, fs, k))
  {
  }

  /** A statement of a clean, or of the recovery of one, that cannot read leaves the payload accounted for if
      and only if it is not a decisive check. */
  lemma {:induction false} CleanReadFaultIff(cfg: Config, s: State, k: Case)
    requires Inv(cfg, s) && CleanCase(cfg, s, k) && k.id in s.rows && (s.task.Cleaning? || s.task.Reconciling?)
    ensures CleanCase(cfg, Advance(cfg, s, Fault), k) <==> !Decisive(s)
  {
    if Decisive(s) {
      SidesExclude(cfg, s.fs, k);
    } else {
      CleanCaseStep(cfg, s, Fault, k);
    }
  }

  /** The same for a restore, or the recovery of one. */
  lemma {:induction false} RestoreReadFaultIff(cfg: Config, s: State, k: Case, occupied: bool)
    requires Inv(cfg, s) && RestoreCase(cfg, s, k, occupied) && (s.task.RestoringAction? || s.task.Reconciling?)
    ensures RestoreCase(cfg, Advance(cfg, s, Fault), k, occupied) <==> !Decisive(s)
  {
    if Decisive(s) {
      SidesExclude(cfg, s.fs, k);
    } else {
      RestoreCaseStep(cfg, s, Fault, k, occupied);
    }
  }

  /** The action is recorded as failed, for good. */
  predicate GivenUp(s: State, id: nat) {
    id in s.rows && s.rows[id].status == Failed
  }

  /** Three statements before its end, a clean looks at the payload that it has moved. */
  lemma {:induction false} ReachesMovedPayload(cfg: Config, s: State, c: Candidate, events: seq<Event>)
    requires Fit(cfg, s, c) && AllProceed(events) && |events| == CleanSteps(cfg, s) - 3
    ensures var k, now := Case(c.path, TreeAt(s.fs, c.path), s.nextId), Run(cfg, StartClean(s, c), events);
            && now.task.Cleaning? && now.task.clean.VerifyPayload? && now.task.id == s.nextId
            && s.nextId in now.rows && InQuarantine(cfg, now.fs, k)
  {
    RunStaysOnTrack(cfg, s, c, events);
    RunCountsDown(cfg, s, c, events);
    LooksAtPayload(cfg, s, c, Run(cfg, StartClean(s, c), events));
  }

  lemma {:induction false} ThreeLeft(cfg: Config, s: State, fs: Fs, task: Task)
    requires StepsLeft(cfg, s, fs, task) == 3
    ensures task.Cleaning? && task.clean.VerifyPayload?
  {
  }

  lemma {:induction false} LooksAtPayload(cfg: Config, s: State, c: Candidate, now: State)
    requires Fit(cfg, s, c) && OnTrack(cfg, s, c, now) && StepsLeft(cfg, s, now.fs, now.task) == 3
    ensures now.task.Cleaning? && now.task.clean.VerifyPayload? && now.task.id == s.nextId && s.nextId in now.rows
    ensures InQuarantine(cfg, now.fs, Case(c.path, TreeAt(s.fs, c.path), s.nextId))
  {
    ThreeLeft(cfg, s, now.fs, now.task);
    SourceIsApart(cfg, c, s.nextId, ActionDir(cfg, s.nextId));
    assert c.path <= c.path;
  }

  /** The first decisive check: a clean that goes well up to the rename and then cannot inspect the moved
      payload is recorded as failed, with the payload in quarantine. */
  lemma {:induction false} UnreadMovedPayloadIsStranded(cfg: Config, s: State, c: Candidate, events: seq<Event>,
                                                        p: Event)
    requires Fit(cfg, s, c) && AllProceed(events) && |events| == CleanSteps(cfg, s) - 3 && p.Proceed?
    ensures var k := Case(c.path, TreeAt(s.fs, c.path), s.nextId);
            var s' := Run(cfg, StartClean(s, c), events + [Fault] + [p]);
            GivenUp(s', k.id) && InQuarantine(cfg, s'.fs, k)
  {
    ReachesMovedPayload(cfg, s, c, events);
    RunTwice(cfg, StartClean(s, c), events, Fault);
    RunTwice(cfg, StartClean(s, c), events + [Fault], p);
    UnreadPayloadFails(cfg, Run(cfg, StartClean(s, c), events), p);
  }

  lemma {:induction false} UnreadPayloadFails(cfg: Config, s: State, p: Event)
    requires s.task.Cleaning? && s.task.clean.VerifyPayload? && s.task.id in s.rows && p.Proceed?
    ensures var s' := Advance(cfg, Advance(cfg, s, Fault), p);
            s'.fs == s.fs && s'.rows == s.rows[s.task.id := s'.rows[s.task.id]] && s'.rows[s.task.id].status == Failed
  {
    var s1 := CleanTo(s, RecordFailure(PayloadNotScanned));
    assert Advance(cfg, s, Fault) == s1;
    assert Advance(cfg, s1, p) == AdvanceClean(cfg, s1, p);
  }

  /** The second: a restore that goes well up to the rename and then cannot read the restored payload is
      recorded as failed, with the payload at its place. */
  lemma {:induction false} UnreadRestoredPayloadIsStranded(cfg: Config, s: State, id: nat, events: seq<Event>, at: int,
                                                           p: Event)
    requires Restorable(cfg, s, id) && Smooth(events, at) && p.Proceed?
    requires |events| == RestoreSteps(s.fs, s.rows[id].original) - 2
    ensures var s' := Run(cfg, StartRestore(s, id), events + [Fault] + [p]);
            GivenUp(s', id) && GivenBack(cfg, s.fs, s'.fs, s.rows[id].original, id)
  {
    var s0 := StartRestore(s, id);
    RunLeadsBack(cfg, s, id, at, events);
    LooksAtRestored(cfg, s, id, at, Run(cfg, s0, events));
    RunTwice(cfg, s0, events, Fault);
    RunTwice(cfg, s0, events + [Fault], p);
    UnreadRestoredFails(cfg, Run(cfg, s0, events), p);
  }

  lemma {:induction false} TwoLeft(fs: Fs, o: Path, task: Task)
    requires o != [] && LeftBack(fs, o, task) == 2
    ensures task.RestoringAction? && task.restore.VerifyRestored?
  {
  }

  lemma {:induction false} LooksAtRestored(cfg: Config, s: State, id: nat, at: int, now: State)
    requires Restorable(cfg, s, id) && OnWay(cfg, s, id, at, now)
    requires LeftBack(now.fs, s.rows[id].original, now.task) == 2
    ensures now.task.RestoringAction? && now.task.restore.VerifyRestored? && now.task.id == id && id in now.rows
    ensures now.task.row.quarantine.Some? && GivenBack(cfg, s.fs, now.fs, s.rows[id].original, id)
  {
    TwoLeft(now.fs, s.rows[id].original, now.task);
  }

  lemma {:induction false} UnreadRestoredFails(cfg: Config, s: State, p: Event)
    requires s.task.RestoringAction? && s.task.restore.VerifyRestored? && s.task.id in s.rows && p.Proceed?
    requires s.task.row.quarantine.Some?
    ensures var s' := Advance(cfg, Advance(cfg, s, Fault), p);
            s'.fs == s.fs && GivenUp(s', s.task.id)
  {
    var s1 := RestoreTo(s, RecordTerminalFailure(IdentityMismatch));
    assert Advance(cfg, s, Fault) == s1;
    assert Advance(cfg, s1, p) == AdvanceRestore(cfg, s1, p);
  }

  /** The third: a recovery that finds the payload of an interrupted clean in quarantine, and cannot read it,
      gives the action up. */
  lemma {:induction false} UnreadInterruptedPayloadIsStranded(cfg: Config, s: State, k: Case, events: seq<Event>,
                                                              now: int, p: Event)
    requires Inv(cfg, s) && CleanCase(cfg, s, k) && k.id in s.rows && s.rows[k.id].status == Moving
    requires InQuarantine(cfg, s.fs, k) && Smooth(events, now) && |events| == 3 && p.Proceed?
    ensures var s' := Run(cfg, StartRecover(s, k.id), events + [Fault] + [p]);
            GivenUp(s', k.id) && InQuarantine(cfg, s'.fs, k)
  {
    var s0 := StartRecover(s, k.id);
    RecoverOne(cfg, s, k.id, events, now);
    RunTwice(cfg, s0, events, Fault);
    RunTwice(cfg, s0, events + [Fault], p);
    var row := s.rows[k.id];
    assert RowOk(cfg, s.fs, k.id, row);
    var s1 := s.(task := Reconciling(k.id, row, Decide(false, true)));
    assert Run(cfg, s0, events) == s1;
    var s2 := RecoverTo(s1, WriteVerdict(ToFailed(IdentityMismatch)));
    assert Advance(cfg, s1, Fault) == AdvanceRecover(cfg, s1, Fault) == s2;
    assert Advance(cfg, s2, p) == AdvanceRecover(cfg, s2, p);
  }

  /** The fourth: a restore that takes an occupied place for free and dies before it could move is given up
      by recovery, with the payload still in quarantine and no file changed. */
  lemma {:induction false} UnreadDestinationIsStranded(cfg: Config, s: State, id: nat, first: Event, second: Event,
                                                       p: Event, events: seq<Event>, now: int)
    requires Stored(cfg, s, id) && s.rows[id].original in s.fs
    requires first.Proceed? && second.Proceed? && p.Proceed? && Smooth(events, now) && |events| == 5
    ensures var s2 := Advance(cfg, Advance(cfg, StartRestore(s, id), first), second);
            var stopped := Advance(cfg, Advance(cfg, Advance(cfg, Advance(cfg, s2, Fault), p), p), Crash);
            var s' := Run(cfg, StartRecover(stopped, id), events);
            GivenUp(s', id) && s'.fs == s.fs
  {
    ReachesDestination(cfg, s, id, first, second);
    var s2 := s.(task := RestoringAction(id, s.rows[id], CheckOriginal));
    UnreadDestinationGoesOn(cfg, s2, p);
    var stopped := Finish(s.(rows := SetRestoreStatus(s.rows, id, Restoring, None)), Died);
    RecoverOne(cfg, stopped, id, events, now);
    assert Judge(cfg, s.fs, stopped.rows[id], true, true, true) == ToFailed(BothExist);
  }

  lemma {:induction false} ReachesDestination(cfg: Config, s: State, id: nat, first: Event, second: Event)
    requires Stored(cfg, s, id) && first.Proceed? && second.Proceed?
    ensures Advance(cfg, Advance(cfg, StartRestore(s, id), first), second) ==
              s.(task := RestoringAction(id, s.rows[id], CheckOriginal))
  {
    var s1 := s.(task := RestoringAction(id, s.rows[id], CheckQuarantine));
    assert Advance(cfg, StartRestore(s, id), first) == s1;
    assert Advance(cfg, s1, second) == AdvanceRestore(cfg, s1, second);
  }

  lemma {:induction false} UnreadDestinationGoesOn(cfg: Config, s: State, p: Event)
    requires s.task.RestoringAction? && s.task.restore.CheckOriginal? && p.Proceed?
    requires s.task.row.quarantine.Some? && Verified(cfg, s.fs, s.task.row, s.task.row.quarantine.value)
    ensures var stopped := Advance(cfg, Advance(cfg, Advance(cfg, Advance(cfg, s, Fault), p), p), Crash);
            stopped == Finish(s.(rows := SetRestoreStatus(s.rows, s.task.id, Restoring, None)), Died)
  {
    var s1 := RestoreTo(s, VerifyQuarantined);
    assert Advance(cfg, s, Fault) == AdvanceRestore(cfg, s, Fault) == s1;
    var s2 := RestoreTo(s1, SetRestoring);
    assert Advance(cfg, s1, p) == AdvanceRestore(cfg, s1, p) == s2;
    var s3 := RestoreTo(s2.(rows := SetRestoreStatus(s.rows, s.task.id, Restoring, None)), MakeParents);
    assert Advance(cfg, s2, p) == AdvanceRestore(cfg, s2, p) == s3;
  }
}
