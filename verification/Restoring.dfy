/** One undisturbed restore: that it ends after a fixed number of statements, what it leaves, and that it undoes
    a clean. */
module Restoring {
  import opened Base
  import opened FileSystem
  import opened Protocol
  import opened Safety
  import opened Recovery
  import opened Cleaning

  // What a restore needs

  /** How many directories on the way to `p` are missing, `p` included. */
  function Missing(fs: Fs, p: Path): nat
    requires [] in fs
    decreases |p|
  {
    if p in fs then 0 else 1 + Missing(fs, Parent(p))
  }

  /** The payload of a quarantined action is what its row says. */
  predicate Stored(cfg: Config, s: State, id: nat) {
    && id in s.rows
    && s.rows[id].status == Quarantined && s.rows[id].restoredAt.None?
    && s.rows[id].quarantine == Some(PayloadPath(cfg, id))
    && Verified(cfg, s.fs, s.rows[id], PayloadPath(cfg, id))
  }

  /** Its place is free, on the way to it there are directories or nothing, and it is not in the quarantine. */
  ghost predicate Vacant(cfg: Config, fs: Fs, o: Path) {
    && WellFormed(fs) && o !in fs && IsDir(fs, NearestExisting(fs, Parent(o)))
    && !Overlap(o, cfg.quarantineRoot)
  }

  /** Nothing keeps the restore of action `id` from succeeding. */
  ghost predicate Restorable(cfg: Config, s: State, id: nat) {
    Stored(cfg, s, id) && s.rows[id].original != [] && Vacant(cfg, s.fs, s.rows[id].original)
  }

  // What it does

  /** The file system with the payload back at `o`: what was elsewhere stays, and nothing is new but
      directories on the way. */
  ghost predicate GivenBack(cfg: Config, fs: Fs, fs': Fs, o: Path, id: nat)
    requires o != []
  {
    var payload := PayloadPath(cfg, id);
    && o in fs' && TreeAt(fs', o) == TreeAt(fs, payload) && payload !in fs'
    && (forall q | q in fs && !(payload <= q) :: q in fs' && fs'[q] == fs[q])
    && (forall q | q in fs' && q !in fs && !(o <= q) :: q <= Parent(o) && IsDir(fs', q))
    && (forall q | payload <= q :: q !in fs')
  }

  function RestoredRow(row: Row, at: int): Row {
    row.(status := Restored, restoredAt := Some(at), error := None, restoreError := None)
  }

  ghost predicate RestoredState(cfg: Config, s: State, id: nat, at: int, s': State)
    requires id in s.rows && s.rows[id].original != []
  {
    && WellFormed(s'.fs) && GivenBack(cfg, s.fs, s'.fs, s.rows[id].original, id)
    && s'.rows == s.rows[id := RestoredRow(s.rows[id], at)] && s'.nextId == s.nextId
  }

  /** On the way: directories made, nothing else changed, the place still free. */
  ghost predicate Parented(cfg: Config, before: Fs, fs: Fs, o: Path, id: nat)
    requires o != []
  {
    && Vacant(cfg, fs, o) && PayloadPath(cfg, id) in fs
    && TreeAt(fs, PayloadPath(cfg, id)) == TreeAt(before, PayloadPath(cfg, id))
    && (forall q | q in before :: q in fs && fs[q] == before[q])
    && (forall q | q in fs && q !in before :: q <= Parent(o) && IsDir(fs, q))
  }

  function RowInRestore(row: Row): Row {
    row.(status := Restoring, restoreError := None)
  }

  predicate BeforeParents(step: RestoreStep) {
    step.CheckStatus? || step.CheckQuarantine? || step.CheckOriginal? || step.VerifyQuarantined? || step.SetRestoring?
  }

  predicate AfterRename(step: RestoreStep) {
    step.VerifyRestored? || step.SetRestored?
  }

  ghost predicate FilesInRestore(cfg: Config, before: Fs, o: Path, id: nat, step: RestoreStep, fs: Fs)
    requires o != []
  {
    if step.MakeParents? then Parented(cfg, before, fs, o, id)
    else if step.RenameBack? then Parented(cfg, before, fs, o, id) && IsDir(fs, Parent(o))
    else AfterRename(step) && WellFormed(fs) && GivenBack(cfg, before, fs, o, id)
  }

  ghost predicate OnWay(cfg: Config, s: State, id: nat, at: int, now: State)
    requires id in s.rows && s.rows[id].original != []
  {
    match now.task
    case Resting(o) => o == Succeeded && RestoredState(cfg, s, id, at, now)
    case RestoringAction(i, row, step) =>
      && i == id && row == s.rows[id] && now.nextId == s.nextId
      && if BeforeParents(step) then now.fs == s.fs && now.rows == s.rows
         else
           && now.rows == s.rows[id := RowInRestore(row)]
           && FilesInRestore(cfg, s.fs, row.original, id, step, now.fs)
    case _ => false
  }

  ghost predicate GoingBack(cfg: Config, s: State, id: nat, at: int, now: State) {
    Restorable(cfg, s, id) && OnWay(cfg, s, id, at, now) && now.task.RestoringAction?
  }

  predicate At(e: Event, at: int) {
    e.Proceed? && e.supply.now == at
  }

  lemma {:induction false} PlaceIsApart(cfg: Config, o: Path, id: nat)
    requires !Overlap(o, cfg.quarantineRoot)
    ensures !Overlap(o, PayloadPath(cfg, id))
  {
    assert cfg.quarantineRoot <= PayloadPath(cfg, id);
    if o <= PayloadPath(cfg, id) { PrefixesOverlap(o, cfg.quarantineRoot, PayloadPath(cfg, id)); }
  }

  // Step by step

  lemma {:induction false} ChecksLeadOn(cfg: Config, s: State, id: nat, at: int, now: State, e: Event)
    requires GoingBack(cfg, s, id, at, now) && BeforeParents(now.task.restore) && !now.task.restore.SetRestoring?
    requires At(e, at)
    ensures OnWay(cfg, s, id, at, AdvanceRestore(cfg, now, e))
    ensures AdvanceRestore(cfg, now, e) == RestoreTo(now, NextBack(now.task.restore))
  {
  }

  /** The step that follows when nothing is wrong. */
  function NextBack(step: RestoreStep): RestoreStep {
    match step
    case CheckStatus => CheckQuarantine
    case CheckQuarantine => CheckOriginal
    case CheckOriginal => VerifyQuarantined
    case VerifyQuarantined => SetRestoring
    case SetRestoring => MakeParents
    case MakeParents => RenameBack
    case RenameBack => VerifyRestored
    case VerifyRestored => SetRestored
    case _ => step
  }

  lemma {:induction false} SetRestoringDoes(cfg: Config, now: State, e: Event)
    requires now.task.RestoringAction? && now.task.restore.SetRestoring? && now.task.row.quarantine.Some? && e.Proceed?
    ensures AdvanceRestore(cfg, now, e) ==
              RestoreTo(now.(rows := SetRestoreStatus(now.rows, now.task.id, Restoring, None)), MakeParents)
  {
  }

  lemma {:induction false} StatusIsRestoring(cfg: Config, s: State, id: nat, at: int, now: State, e: Event)
    requires GoingBack(cfg, s, id, at, now) && now.task.restore.SetRestoring? && At(e, at)
    ensures OnWay(cfg, s, id, at, AdvanceRestore(cfg, now, e))
    ensures AdvanceRestore(cfg, now, e).task == now.task.(restore := MakeParents)
    ensures AdvanceRestore(cfg, now, e).fs == now.fs
  {
    SetRestoringDoes(cfg, now, e);
  }

  lemma {:induction false} DirIsMade(cfg: Config, before: Fs, fs: Fs, o: Path, id: nat, ino: Inode)
    requires o != [] && Parented(cfg, before, fs, o, id) && !IsDir(fs, Parent(o))
    ensures MakeDirs(fs, Parent(o), ino).Made?
    ensures var fs' := MakeDirs(fs, Parent(o), ino).fs;
            Parented(cfg, before, fs', o, id) && Missing(fs', Parent(o)) + 1 == Missing(fs, Parent(o))
  {
    var parent, payload := Parent(o), PayloadPath(cfg, id);
    PlaceIsApart(cfg, o, id);
    NearestIsFirst(fs, parent);
    assert parent <= o && MakeDirs(fs, parent, ino).Made?;
    var fs' := MakeDirs(fs, parent, ino).fs;
    var m := FirstMissing(fs, parent);
    MakeDirsOnlyAdds(fs, parent, ino, payload);
    SameTree(fs, fs', payload);
    OneLessMissing(fs, parent, Node(ino, Dir));
  }

  lemma {:induction false} NearestIsFirst(fs: Fs, p: Path)
    requires [] in fs
    ensures p in fs ==> NearestExisting(fs, p) == p
  {
  }

  /** Making the first missing directory leaves one less to make. */
  lemma {:induction false} OneLessMissing(fs: Fs, p: Path, node: Node)
    requires [] in fs && p !in fs
    ensures var fs' := Create(fs, FirstMissing(fs, p), node);
            && Missing(fs', p) + 1 == Missing(fs, p)
            && NearestExisting(fs', p) == FirstMissing(fs, p)
    decreases |p|
  {
    if Parent(p) !in fs {
      OneLessMissing(fs, Parent(p), node);
      assert |FirstMissing(fs, p)| < |p|;
    }
  }

  lemma {:induction false} ParentsLeadOn(cfg: Config, s: State, id: nat, at: int, now: State, e: Event)
    requires GoingBack(cfg, s, id, at, now) && now.task.restore.MakeParents? && At(e, at)
    ensures var next, parent := AdvanceRestore(cfg, now, e), Parent(s.rows[id].original);
            && OnWay(cfg, s, id, at, next) && next.task.RestoringAction?
            && if parent in now.fs then next.task.restore.RenameBack?
               else next.task.restore.MakeParents? && Missing(next.fs, parent) + 1 == Missing(now.fs, parent)
  {
    var o := s.rows[id].original;
    MakeParentsDoes(cfg, now, e);
    if Parent(o) in now.fs {
      NearestIsFirst(now.fs, Parent(o));
    } else {
      DirIsMade(cfg, s.fs, now.fs, o, id, e.supply.ino);
    }
  }

  lemma {:induction false} MoveGivesBack(cfg: Config, before: Fs, fs: Fs, o: Path, id: nat) returns (fs': Fs)
    requires o != [] && Parented(cfg, before, fs, o, id) && IsDir(fs, Parent(o))
    ensures RenameNoReplace(fs, PayloadPath(cfg, id), o) == Some(fs')
    ensures WellFormed(fs') && GivenBack(cfg, before, fs', o, id)
  {
    var payload := PayloadPath(cfg, id);
    PlaceIsApart(cfg, o, id);
    fs' := Move(fs, payload, o);
    MovedWellFormed(fs, fs', payload, o);
    MovedTree(fs, fs', payload, o);
    MovedIsGivenBack(cfg, before, fs, fs', o, id);
  }

  lemma {:induction false} MovedIsGivenBack(cfg: Config, before: Fs, fs: Fs, fs': Fs, o: Path, id: nat)
    requires o != [] && Parented(cfg, before, fs, o, id) && Moved(fs, fs', PayloadPath(cfg, id), o)
    requires !Overlap(o, PayloadPath(cfg, id)) && o in fs' && PayloadPath(cfg, id) !in fs'
    requires TreeAt(fs', o) == TreeAt(fs, PayloadPath(cfg, id))
    ensures GivenBack(cfg, before, fs', o, id)
  {
    var payload := PayloadPath(cfg, id);
    forall q | q in before && !(payload <= q) ensures q in fs' && fs'[q] == before[q] {
      if o <= q { AbsentBelowAbsent(fs, o, q); }
      assert Source(payload, o, q) == q;
    }
    forall q | q in fs' && q !in before && !(o <= q) ensures q <= Parent(o) && IsDir(fs', q) {
      assert Source(payload, o, q) == q;
    }
    forall q | payload <= q ensures q !in fs' {
      if o <= q { PrefixesOverlap(o, payload, q); }
    }
  }

  lemma {:induction false} RenamedLeadsOn(cfg: Config, s: State, id: nat, at: int, now: State, e: Event)
    requires GoingBack(cfg, s, id, at, now) && now.task.restore.RenameBack? && At(e, at)
    ensures OnWay(cfg, s, id, at, AdvanceRestore(cfg, now, e))
    ensures AdvanceRestore(cfg, now, e).task == now.task.(restore := VerifyRestored)
  {
    var fs' := MoveGivesBack(cfg, s.fs, now.fs, s.rows[id].original, id);
    RenameBackDoes(cfg, now, e);
    RenamedIsOnWay(cfg, s, id, at, now, fs');
  }

  lemma {:induction false} RenamedIsOnWay(cfg: Config, s: State, id: nat, at: int, now: State, fs': Fs)
    requires GoingBack(cfg, s, id, at, now) && now.task.restore.RenameBack?
    requires WellFormed(fs') && GivenBack(cfg, s.fs, fs', s.rows[id].original, id)
    ensures OnWay(cfg, s, id, at, RestoreTo(now.(fs := fs'), VerifyRestored))
  {
  }

  lemma {:induction false} VerifiedLeadsOn(cfg: Config, s: State, id: nat, at: int, now: State, e: Event)
    requires GoingBack(cfg, s, id, at, now) && now.task.restore.VerifyRestored? && At(e, at)
    ensures AdvanceRestore(cfg, now, e) == RestoreTo(now, SetRestored)
    ensures OnWay(cfg, s, id, at, AdvanceRestore(cfg, now, e))
  {
    var row := s.rows[id];
    assert Verified(cfg, now.fs, row, row.original);
  }

  lemma {:induction false} SetRestoredDoes(cfg: Config, now: State, e: Event)
    requires now.task.RestoringAction? && now.task.restore.SetRestored? && now.task.row.quarantine.Some? && e.Proceed?
    ensures AdvanceRestore(cfg, now, e) ==
              Finish(now.(rows := SetRestoredRow(now.rows, now.task.id, e.supply.now)), Succeeded)
  {
  }

  lemma {:induction false} StatusIsRestored(cfg: Config, s: State, id: nat, at: int, now: State, e: Event)
    requires GoingBack(cfg, s, id, at, now) && now.task.restore.SetRestored? && At(e, at)
    ensures OnWay(cfg, s, id, at, AdvanceRestore(cfg, now, e)) && AdvanceRestore(cfg, now, e).task == Resting(Succeeded)
  {
    SetRestoredDoes(cfg, now, e);
    assert SetRestoredRow(now.rows, id, at) == s.rows[id := RestoredRow(s.rows[id], at)];
  }

  // How long it takes

  /** Nine statements, and one more for every directory that has to be made. */
  function RestoreSteps(fs: Fs, o: Path): nat
    requires [] in fs && o != []
  {
    9 + Missing(fs, Parent(o))
  }

  function LeftBack(fs: Fs, o: Path, task: Task): nat
    requires o != []
  {
    if !task.RestoringAction? || [] !in fs then 0
    else
      var missing := Missing(fs, Parent(o));
      match task.restore
      case CheckStatus => 9 + missing
      case CheckQuarantine => 8 + missing
      case CheckOriginal => 7 + missing
      case VerifyQuarantined => 6 + missing
      case SetRestoring => 5 + missing
      case MakeParents => 4 + missing
      case RenameBack => 3
      case VerifyRestored => 2
      case SetRestored => 1
      case _ => 0
  }

  lemma {:induction false} StepLeadsBack(cfg: Config, s: State, id: nat, at: int, now: State, e: Event)
    requires GoingBack(cfg, s, id, at, now) && At(e, at)
    ensures var next, o := AdvanceRestore(cfg, now, e), s.rows[id].original;
            OnWay(cfg, s, id, at, next) && LeftBack(now.fs, o, now.task) == LeftBack(next.fs, o, next.task) + 1
  {
    match now.task.restore
    case SetRestoring => StatusIsRestoring(cfg, s, id, at, now, e);
    case MakeParents => ParentsLeadOn(cfg, s, id, at, now, e);
    case RenameBack => RenamedLeadsOn(cfg, s, id, at, now, e);
    case VerifyRestored => VerifiedLeadsOn(cfg, s, id, at, now, e);
    case SetRestored => StatusIsRestored(cfg, s, id, at, now, e);
    case _ => ChecksLeadOn(cfg, s, id, at, now, e);
  }

  lemma {:induction false} OneStepBack(cfg: Config, s: State, id: nat, at: int, now: State, e: Event)
    requires Restorable(cfg, s, id) && OnWay(cfg, s, id, at, now) && At(e, at)
    ensures var next, o := Advance(cfg, now, e), s.rows[id].original;
            OnWay(cfg, s, id, at, next) && LeftBack(next.fs, o, next.task) == Less(LeftBack(now.fs, o, now.task))
  {
    if now.task.RestoringAction? {
      StepLeadsBack(cfg, s, id, at, now, e);
      assert Advance(cfg, now, e) == AdvanceRestore(cfg, now, e);
    }
  }

  lemma {:induction false} RunLeadsBack(cfg: Config, s: State, id: nat, at: int, events: seq<Event>)
    requires Restorable(cfg, s, id) && Smooth(events, at)
    ensures var now, o := Run(cfg, StartRestore(s, id), events), s.rows[id].original;
            var n := RestoreSteps(s.fs, o);
            && OnWay(cfg, s, id, at, now)
            && LeftBack(now.fs, o, now.task) == if |events| < n then n - |events| else 0
  {
    if events != [] {
      var n := |events| - 1;
      RunLeadsBack(cfg, s, id, at, events[..n]);
      OneStepBack(cfg, s, id, at, Run(cfg, StartRestore(s, id), events[..n]), events[n]);
    }
  }

  lemma {:induction false} NothingLeft(cfg: Config, s: State, id: nat, at: int, now: State)
    requires Restorable(cfg, s, id) && OnWay(cfg, s, id, at, now)
    ensures LeftBack(now.fs, s.rows[id].original, now.task) == 0 <==> now.task == Resting(Succeeded)
    ensures now.task != Resting(Succeeded) ==> now.task.RestoringAction?
  {
    OnWayGoesWell(cfg, s, id, at, now);
    if now.task.RestoringAction? { SomeLeft(now.fs, s.rows[id].original, now.task); }
  }

  lemma {:induction false} OnWayGoesWell(cfg: Config, s: State, id: nat, at: int, now: State)
    requires Restorable(cfg, s, id) && OnWay(cfg, s, id, at, now)
    ensures if now.task.RestoringAction? then
              [] in now.fs && !now.task.restore.RecordRestoreFailure? && !now.task.restore.RecordTerminalFailure?
            else now.task == Resting(Succeeded)
  {
  }

  lemma {:induction false} SomeLeft(fs: Fs, o: Path, task: Task)
    requires o != [] && [] in fs && task.RestoringAction?
    requires !task.restore.RecordRestoreFailure? && !task.restore.RecordTerminalFailure?
    ensures LeftBack(fs, o, task) > 0
  {
  }

  /** Without failures, a restore that passes its checks succeeds, after a fixed number of statements. */
  lemma {:induction false} RestoreSucceeds(cfg: Config, s: State, id: nat, at: int, events: seq<Event>)
    requires Restorable(cfg, s, id) && Smooth(events, at)
    ensures var s' := Run(cfg, StartRestore(s, id), events);
            if |events| < RestoreSteps(s.fs, s.rows[id].original) then s'.task.RestoringAction?
            else s'.task == Resting(Succeeded) && RestoredState(cfg, s, id, at, s')
  {
    RunLeadsBack(cfg, s, id, at, events);
    NothingLeft(cfg, s, id, at, Run(cfg, StartRestore(s, id), events));
  }

  // The round trip

  lemma {:induction false} CleanedIsRestorable(cfg: Config, s: State, c: Candidate, s': State)
    requires WellFormed(s.fs) && Cleaned(cfg, s, c, s') && c.path in s.fs && !Overlap(c.path, cfg.quarantineRoot)
    ensures c.path != [] && Restorable(cfg, s', s.nextId) && RestoreSteps(s'.fs, c.path) == 9
    ensures s'.rows[s.nextId].original == c.path
  {
    var id, o := s.nextId, c.path;
    assert o != [] && IsDir(s.fs, Parent(o));
    ApartFromDir(cfg, o, id);
    assert !(ActionDir(cfg, id) <= o) && o <= o && !(o <= Parent(o));
    assert Parent(o) in s'.fs && s'.fs[Parent(o)] == s.fs[Parent(o)];
    NearestIsFirst(s'.fs, Parent(o));
  }

  lemma {:induction false} ApartFromDir(cfg: Config, o: Path, id: nat)
    requires !Overlap(o, cfg.quarantineRoot) && o != []
    ensures !Overlap(o, ActionDir(cfg, id)) && !(ActionDir(cfg, id) <= Parent(o))
  {
    assert cfg.quarantineRoot <= ActionDir(cfg, id) && Parent(o) <= o;
    if o <= ActionDir(cfg, id) { PrefixesOverlap(o, cfg.quarantineRoot, ActionDir(cfg, id)); }
  }

  /** A clean and the restore of its action, both undisturbed, succeed and give back the whole file system, but
      for the action's own directory with its manifest. */
  lemma {:induction false} CleanThenRestoreUndisturbed(cfg: Config, s: State, c: Candidate, cleaning: seq<Event>,
                                                       restoring: seq<Event>, at: int)
    requires Fit(cfg, s, c) && !Overlap(c.path, cfg.quarantineRoot)
    requires AllProceed(cleaning) && |cleaning| >= CleanSteps(cfg, s) && Smooth(restoring, at) && |restoring| >= 9
    ensures var middle := Run(cfg, StartClean(s, c), cleaning);
            var s' := Run(cfg, StartRestore(middle, s.nextId), restoring);
            && middle.task == Resting(Succeeded) && s'.task == Resting(Succeeded)
            && s.nextId in s'.rows && s'.rows[s.nextId].status == Restored && PayloadPath(cfg, s.nextId) !in s'.fs
            && TreeAt(s'.fs, c.path) == TreeAt(s.fs, c.path)
            && SameExcept(s.fs, s'.fs, ActionDir(cfg, s.nextId))
  {
    var id := s.nextId;
    CleanSucceeds(cfg, s, c, cleaning);
    var middle := Run(cfg, StartClean(s, c), cleaning);
    CleanedIsRestorable(cfg, s, c, middle);
    RestoreSucceeds(cfg, middle, id, at, restoring);
    RoundTrip(cfg, s.fs, middle.fs, Run(cfg, StartRestore(middle, id), restoring).fs, c.path, id);
  }

  lemma {:induction false} RoundTrip(cfg: Config, before: Fs, middle: Fs, after: Fs, o: Path, id: nat)
    requires WellFormed(before) && WellFormed(middle) && WellFormed(after) && o in before && o != []
    requires !Overlap(o, cfg.quarantineRoot)
    requires TakenOut(cfg, before, middle, o, id) && GivenBack(cfg, middle, after, o, id) && IsDir(middle, Parent(o))
    ensures SameExcept(before, after, ActionDir(cfg, id)) && TreeAt(after, o) == TreeAt(before, o)
  {
    ApartFromDir(cfg, o, id);
    TreeAtContents(before, o);
    TreeAtContents(after, o);
    assert ActionDir(cfg, id) <= PayloadPath(cfg, id);
    forall q | !(ActionDir(cfg, id) <= q)
      ensures (q in before <==> q in after) && (q in before ==> after[q] == before[q])
    {
      if o <= q {
        SplitAt(o, q);
        assert q[|o|..] in TreeAt(before, o) <==> q in before;
        assert q[|o|..] in TreeAt(after, o) <==> q in after;
      } else if q in after && q !in middle {
        if q != Parent(o) { AncestorIsDir(middle, q, Parent(o)); }
      }
    }
  }
}
