/** Crash atomicity: cleaning or restoring, stopped anywhere and then recovered, ends with the payload
    on exactly one side and a row that says which. */
module Crash {
  import opened Base
  import opened FileSystem
  import opened Protocol
  import opened Safety

  /** The checks whose failure to read is taken for an answer about the payload: the moved payload is "not
      the scanned one", the restored or interrupted one "does not verify", an occupied destination "is free".
      A failure to read anywhere else stops the command, or is not what decides. */
  predicate Decisive(s: State) {
    match s.task
    case Resting(_) => false
    case Cleaning(_, _, _, step) => step.VerifyPayload?
    case RestoringAction(_, row, step) => step.VerifyRestored? || (step.CheckOriginal? && row.original in s.fs)
    case Reconciling(_, row, step) =>
      step.Decide? && (if row.status == Restoring then step.original != step.quarantine
                       else !step.original && step.quarantine)
  }

  /** Nobody else touches the two paths, and the decisive checks can read. Anything else may fail. */
  ghost predicate Undisturbed(cfg: Config, s: State, e: Event, src: Path) {
    && Admissible(cfg, s, e)
    && (e.Outside? ==> SameBelow(s.fs, e.fs, src))
    && (e.Fault? || e.Partial? ==> !Decisive(s))
  }

  ghost predicate UndisturbedRun(cfg: Config, s: State, events: seq<Event>, src: Path) {
    events == [] ||
    (UndisturbedRun(cfg, s, events[..|events| - 1], src) &&
     Undisturbed(cfg, Run(cfg, s, events[..|events| - 1]), events[|events| - 1], src))
  }

  /** What one action is about: the payload `tree` that was at `src` when action `id` began. */
  datatype Case = Case(src: Path, tree: Tree, id: nat)

  predicate AtSource(cfg: Config, fs: Fs, k: Case) {
    k.src in fs && TreeAt(fs, k.src) == k.tree && PayloadPath(cfg, k.id) !in fs
  }

  predicate InQuarantine(cfg: Config, fs: Fs, k: Case) {
    k.src !in fs && PayloadPath(cfg, k.id) in fs && TreeAt(fs, PayloadPath(cfg, k.id)) == k.tree
  }

  predicate RowOf(cfg: Config, row: Row, k: Case) {
    row.original == k.src && row.digest == Some(cfg.fingerprint(k.tree)) && row.version == Some(Sha256TreeV1)
  }

  /** The scanned object is the root of the payload. */
  predicate ScannedRoot(c: Candidate, t: Tree) {
    [] in t && HoldsScanned(t, c, [])
  }

  // Clean

  predicate CleanCase(cfg: Config, s: State, k: Case) {
    && !Overlap(k.src, cfg.quarantineRoot)
    && (if k.id in s.rows then
          && s.nextId == k.id + 1
          && RowOf(cfg, s.rows[k.id], k)
          && CleanPlace(cfg, s, k)
          && CleanTask(cfg, s, k)
        else
          && s.nextId == k.id
          && AtSource(cfg, s.fs, k)
          && CleanNotInserted(cfg, s, k))
  }

  predicate CleanNotInserted(cfg: Config, s: State, k: Case) {
    match s.task
    case Resting(_) => true
    case Cleaning(c, digest, _, step) =>
      && c.path == k.src && BeforeInsert(step)
      && (step.VerifyAgain? || step.Insert? ==> digest == cfg.fingerprint(k.tree))
    case _ => false
  }

  predicate CleanPlace(cfg: Config, s: State, k: Case)
    requires k.id in s.rows
  {
    var row := s.rows[k.id];
    match row.status
    case Planned | Failed => AtSource(cfg, s.fs, k)
    case Moving => row.quarantine.Some? && (AtSource(cfg, s.fs, k) || InQuarantine(cfg, s.fs, k))
    case Quarantined => row.quarantine.Some? && InQuarantine(cfg, s.fs, k)
    case _ => false
  }

  predicate CleanTask(cfg: Config, s: State, k: Case)
    requires k.id in s.rows
  {
    match s.task
    case Resting(_) => true
    case Cleaning(c, digest, id, step) =>
      && id == k.id && !BeforeInsert(step)
      && (BeforeRename(step) || step.RecordFailure? ==> AtSource(cfg, s.fs, k))
      && (step.VerifyPayload? || step.FingerprintPayload? || step.SetQuarantined? ==>
        InQuarantine(cfg, s.fs, k) && s.rows[id].status == Moving)
      && (step.VerifySource? || step.RenameIn? ==> s.rows[id].status == Moving)
      && (step.RenameIn? || step.VerifyPayload? ==> ScannedRoot(c, k.tree))
    case RestoringAction(_, _, _) => false
    case Reconciling(id, row, step) =>
      && id == k.id
      && FlagsRight(cfg, s, k, step)
      && (step.WriteVerdict? ==>
        if AtSource(cfg, s.fs, k) then step.verdict.ToFailed? else step.verdict == ToQuarantined)
  }

  predicate FlagsRight(cfg: Config, s: State, k: Case, step: RecoverStep) {
    && (step.InspectQuarantine? || step.Decide? ==> step.original == (k.src in s.fs))
    && (step.Decide? ==> step.quarantine == (PayloadPath(cfg, k.id) in s.fs))
  }

  lemma {:induction false} KeptPlace(cfg: Config, fs: Fs, fs': Fs, k: Case)
    requires SameBelow(fs, fs', k.src) && SameBelow(fs, fs', PayloadPath(cfg, k.id))
    ensures AtSource(cfg, fs, k) == AtSource(cfg, fs', k)
    ensures InQuarantine(cfg, fs, k) == InQuarantine(cfg, fs', k)
    ensures k.src in fs <==> k.src in fs'
    ensures PayloadPath(cfg, k.id) in fs <==> PayloadPath(cfg, k.id) in fs'
    ensures TreeAt(fs, PayloadPath(cfg, k.id)) == TreeAt(fs', PayloadPath(cfg, k.id))
  {
    SameTree(fs, fs', k.src);
    SameTree(fs, fs', PayloadPath(cfg, k.id));
  }

  lemma {:induction false} OutsideKeepsPlace(cfg: Config, s: State, fs': Fs, k: Case)
    requires Undisturbed(cfg, s, Outside(fs'), k.src)
    ensures AtSource(cfg, s.fs, k) == AtSource(cfg, fs', k)
    ensures InQuarantine(cfg, s.fs, k) == InQuarantine(cfg, fs', k)
    ensures k.src in s.fs <==> k.src in fs'
    ensures PayloadPath(cfg, k.id) in s.fs <==> PayloadPath(cfg, k.id) in fs'
    ensures TreeAt(s.fs, PayloadPath(cfg, k.id)) == TreeAt(fs', PayloadPath(cfg, k.id))
  {
    assert cfg.quarantineRoot <= PayloadPath(cfg, k.id);
    KeptPlace(cfg, s.fs, fs', k);
  }

  lemma {:induction false} RootNode(fs: Fs, p: Path, c: Candidate)
    ensures [] in TreeAt(fs, p) <==> p in fs
    ensures HoldsScanned(TreeAt(fs, p), c, []) <==> HoldsScanned(fs, c, p)
  {
    TreeAtContents(fs, p);
    assert p + [] == p;
  }

  lemma {:induction false} SourceApart(cfg: Config, src: Path, p: Path)
    requires !Overlap(src, cfg.quarantineRoot) && cfg.quarantineRoot <= p
    ensures !Overlap(src, p)
  {
    if src <= p { PrefixesOverlap(src, cfg.quarantineRoot, p); }
  }

  /** The parts of the invariant the steps of one case use. */
  ghost predicate Local(cfg: Config, s: State, k: Case) {
    && WellFormed(s.fs)
    && TaskOk(cfg, s)
    && (k.id in s.rows ==> RowOk(cfg, s.fs, k.id, s.rows[k.id]))
  }

  lemma {:induction false} MakeActionDirStep(cfg: Config, s: State, e: Event, k: Case)
    requires Local(cfg, s, k) && CleanCase(cfg, s, k) && Works(e)
    requires s.task.Cleaning? && s.task.clean.MakeActionDir?
    ensures CleanCase(cfg, AdvanceClean(cfg, s, e), k)
  {
    var dir := ActionDir(cfg, k.id);
    if e.Proceed? && MakeDirs(s.fs, dir, e.supply.ino).Made? {
      SourceApart(cfg, k.src, dir);
      MakeDirsOnlyAdds(s.fs, dir, e.supply.ino, k.src);
      MakeDirsOnlyAdds(s.fs, dir, e.supply.ino, PayloadPath(cfg, k.id));
      KeptPlace(cfg, s.fs, MakeDirs(s.fs, dir, e.supply.ino).fs, k);
    }
  }

  lemma {:induction false} ManifestKeepsPlace(cfg: Config, fs: Fs, node: Node, k: Case)
    requires WellFormed(fs) && IsDir(fs, ActionDir(cfg, k.id)) && !node.kind.Dir?
    requires !IsDir(fs, ManifestPath(cfg, k.id)) && !Overlap(k.src, cfg.quarantineRoot)
    ensures AtSource(cfg, fs, k) ==> AtSource(cfg, Create(fs, ManifestPath(cfg, k.id), node), k)
  {
    var m := ManifestPath(cfg, k.id);
    SourceApart(cfg, k.src, m);
    assert Parent(m) == ActionDir(cfg, k.id);
    assert PayloadPath(cfg, k.id) != m by { assert PayloadPath(cfg, k.id)[|m| - 1] != m[|m| - 1]; }
    CreateKeeps(fs, m, node, k.src);
    CreateKeeps(fs, m, node, PayloadPath(cfg, k.id));
    KeptPlace(cfg, fs, Create(fs, m, node), k);
  }

  lemma {:induction false} WriteManifestStep(cfg: Config, s: State, e: Event, k: Case)
    requires Local(cfg, s, k) && CleanCase(cfg, s, k) && Works(e)
    requires s.task.Cleaning? && s.task.clean.WriteManifest?
    ensures CleanCase(cfg, AdvanceClean(cfg, s, e), k)
  {
    var s' := AdvanceClean(cfg, s, e);
    if s'.fs != s.fs {
      ManifestKeepsPlace(cfg, s.fs, WrittenNode(s.fs, ManifestPath(cfg, k.id), e.supply), k);
    }
    AtSourceGoesOn(cfg, s, s', k);
  }

  /** A step before the rename that leaves the row as it is, the payload at its place, and goes on. */
  lemma {:induction false} AtSourceGoesOn(cfg: Config, s: State, s': State, k: Case)
    requires CleanCase(cfg, s, k) && s.task.Cleaning? && BeforeRename(s.task.clean)
    requires s'.rows == s.rows && s'.nextId == s.nextId && AtSource(cfg, s'.fs, k) && s.rows[k.id].status == Planned
    requires s'.task.Cleaning? && s'.task == s.task.(clean := s'.task.clean)
    requires s'.task.clean.SetMoving? || s'.task.clean.RecordFailure?
    ensures CleanCase(cfg, s', k)
  {
  }

  lemma {:induction false} RenameInPlace(cfg: Config, fs: Fs, fs': Fs, k: Case)
    requires AtSource(cfg, fs, k) && Rename(fs, k.src, PayloadPath(cfg, k.id)) == Some(fs')
    ensures InQuarantine(cfg, fs', k)
  {
    MovedTree(fs, fs', k.src, PayloadPath(cfg, k.id));
  }

  lemma {:induction false} RenamedCase(cfg: Config, s: State, fs': Fs, k: Case)
    requires Local(cfg, s, k) && CleanCase(cfg, s, k)
    requires s.task.Cleaning? && s.task.clean.RenameIn?
    ensures CleanCase(cfg, CleanTo(s, RecordFailure(RenameFailed)), k)
    ensures InQuarantine(cfg, fs', k) ==> CleanCase(cfg, CleanTo(s.(fs := fs'), VerifyPayload), k)
  {
  }

  lemma {:induction false} RenameInStep(cfg: Config, s: State, e: Event, k: Case)
    requires Local(cfg, s, k) && CleanCase(cfg, s, k) && Works(e)
    requires s.task.Cleaning? && s.task.clean.RenameIn?
    ensures CleanCase(cfg, AdvanceClean(cfg, s, e), k)
  {
    var s' := AdvanceClean(cfg, s, e);
    RenamedCase(cfg, s, s'.fs, k);
    if s'.task.clean.VerifyPayload? {
      RenameInPlace(cfg, s.fs, s'.fs, k);
    }
  }

  lemma {:induction false} BeforeInsertStep(cfg: Config, s: State, e: Event, k: Case)
    requires Local(cfg, s, k) && CleanCase(cfg, s, k) && Works(e)
    requires s.task.Cleaning? && BeforeInsert(s.task.clean)
    ensures CleanCase(cfg, AdvanceClean(cfg, s, e), k)
  {
  }

  lemma {:induction false} CheckSourceStep(cfg: Config, s: State, e: Event, k: Case)
    requires Local(cfg, s, k) && CleanCase(cfg, s, k) && Works(e) && s.task.Cleaning? && s.task.clean.VerifySource?
    ensures CleanCase(cfg, AdvanceClean(cfg, s, e), k)
  {
    RootNode(s.fs, k.src, s.task.candidate);
  }

  lemma {:induction false} CheckPayloadStep(cfg: Config, s: State, e: Event, k: Case)
    requires Local(cfg, s, k) && CleanCase(cfg, s, k) && e.Proceed? && s.task.Cleaning? && s.task.clean.VerifyPayload?
    ensures CleanCase(cfg, AdvanceClean(cfg, s, e), k)
  {
    RootNode(s.fs, PayloadPath(cfg, k.id), s.task.candidate);
  }

  lemma {:induction false} CheckDigestStep(cfg: Config, s: State, e: Event, k: Case)
    requires Local(cfg, s, k) && CleanCase(cfg, s, k) && Works(e) && s.task.Cleaning?
    requires s.task.clean.FingerprintPayload?
    ensures CleanCase(cfg, AdvanceClean(cfg, s, e), k)
  {
  }

  lemma {:induction false} RowStep(cfg: Config, s: State, e: Event, k: Case)
    requires Local(cfg, s, k) && CleanCase(cfg, s, k) && Works(e) && s.task.Cleaning?
    requires s.task.clean.SetIntent? || s.task.clean.SetMoving?
    ensures CleanCase(cfg, AdvanceClean(cfg, s, e), k)
  {
  }

  lemma {:induction false} LastRowStep(cfg: Config, s: State, e: Event, k: Case)
    requires Local(cfg, s, k) && CleanCase(cfg, s, k) && Works(e) && s.task.Cleaning?
    requires s.task.clean.SetQuarantined? || s.task.clean.RecordFailure?
    ensures CleanCase(cfg, AdvanceClean(cfg, s, e), k)
  {
  }

  lemma {:induction false} InspectCleanStep(cfg: Config, s: State, e: Event, k: Case)
    requires Local(cfg, s, k) && CleanCase(cfg, s, k) && Works(e)
    requires s.task.Reconciling? && (Decisive(s) ==> e.Proceed?) && !s.task.recover.WriteVerdict?
    ensures CleanCase(cfg, AdvanceRecover(cfg, s, e), k)
  {
  }

  lemma {:induction false} VerdictCleanStep(cfg: Config, s: State, e: Event, k: Case)
    requires Local(cfg, s, k) && CleanCase(cfg, s, k) && Works(e)
    requires s.task.Reconciling? && s.task.recover.WriteVerdict?
    ensures CleanCase(cfg, AdvanceRecover(cfg, s, e), k)
  {
  }

  lemma {:induction false} CleanCaseStep(cfg: Config, s: State, e: Event, k: Case)
    requires Local(cfg, s, k) && CleanCase(cfg, s, k) && Undisturbed(cfg, s, e, k.src)
    ensures CleanCase(cfg, Advance(cfg, s, e), k)
  {
    if e.Outside? {
      OutsideKeepsPlace(cfg, s, e.fs, k);
    } else if Works(e) && s.task.Cleaning? {
      match s.task.clean
      case MakeActionDir => MakeActionDirStep(cfg, s, e, k);
      case WriteManifest => WriteManifestStep(cfg, s, e, k);
      case RenameIn => RenameInStep(cfg, s, e, k);
      case VerifySource => CheckSourceStep(cfg, s, e, k);
      case VerifyPayload => CheckPayloadStep(cfg, s, e, k);
      case FingerprintPayload => CheckDigestStep(cfg, s, e, k);
      case SetQuarantined => LastRowStep(cfg, s, e, k);
      case RecordFailure(_) => LastRowStep(cfg, s, e, k);
      case _ => if BeforeInsert(s.task.clean) { BeforeInsertStep(cfg, s, e, k); } else { RowStep(cfg, s, e, k); }
    } else if Works(e) && s.task.Reconciling? {
      if s.task.recover.WriteVerdict? { VerdictCleanStep(cfg, s, e, k); } else { InspectCleanStep(cfg, s, e, k); }
    }
  }

  lemma {:induction false} CleanCaseRun(cfg: Config, s: State, events: seq<Event>, k: Case)
    requires Inv(cfg, s) && CleanCase(cfg, s, k) && UndisturbedRun(cfg, s, events, k.src)
    ensures Inv(cfg, Run(cfg, s, events)) && CleanCase(cfg, Run(cfg, s, events), k)
  {
    if events != [] {
      var before := events[..|events| - 1];
      CleanCaseRun(cfg, s, before, k);
      CleanCaseStep(cfg, Run(cfg, s, before), events[|events| - 1], k);
      StepCarries(cfg, Run(cfg, s, before), events[|events| - 1]);
    }
  }

  // Restore

  /** The payload waits in quarantine; its place may be occupied. */
  predicate Waiting(cfg: Config, fs: Fs, k: Case, occupied: bool) {
    && (k.src in fs <==> occupied)
    && PayloadPath(cfg, k.id) in fs && TreeAt(fs, PayloadPath(cfg, k.id)) == k.tree
  }

  /** A restore of an action whose place was `occupied` when it began. */
  predicate RestoreCase(cfg: Config, s: State, k: Case, occupied: bool) {
    && !Overlap(k.src, cfg.quarantineRoot)
    && k.id in s.rows
    && RowOf(cfg, s.rows[k.id], k)
    && s.rows[k.id].quarantine.Some?
    && (match s.rows[k.id].status
        case Quarantined => Waiting(cfg, s.fs, k, occupied)
        case Restoring => !occupied && (AtSource(cfg, s.fs, k) || InQuarantine(cfg, s.fs, k))
        case Restored => !occupied && AtSource(cfg, s.fs, k)
        case _ => false)
    && (match s.task
        case Resting(_) => true
        case Cleaning(_, _, _, _) => false
        case RestoringAction(id, row, step) =>
          && id == k.id
          && (if step.VerifyRestored? || step.SetRestored? then AtSource(cfg, s.fs, k)
              else !step.RecordTerminalFailure? && Waiting(cfg, s.fs, k, occupied) &&
                   (step.CheckStatus? || step.CheckQuarantine? || step.CheckOriginal? || !occupied))
        case Reconciling(id, row, step) =>
          && id == k.id
          && FlagsRight(cfg, s, k, step)
          && (step.WriteVerdict? ==>
            step.verdict == if AtSource(cfg, s.fs, k) then ToRestored else BackToQuarantined))
  }

  lemma {:induction false} MakeParentsStep(cfg: Config, s: State, e: Event, k: Case, occupied: bool)
    requires Local(cfg, s, k) && RestoreCase(cfg, s, k, occupied) && Works(e)
    requires s.task.RestoringAction? && s.task.restore.MakeParents?
    ensures RestoreCase(cfg, AdvanceRestore(cfg, s, e), k, occupied)
  {
    if k.src != [] && e.Proceed? && MakeDirs(s.fs, Parent(k.src), e.supply.ino).Made? {
      SourceApart(cfg, k.src, PayloadPath(cfg, k.id));
      assert Parent(k.src) <= k.src;
      MakeDirsOnlyAdds(s.fs, Parent(k.src), e.supply.ino, k.src);
      MakeDirsOnlyAdds(s.fs, Parent(k.src), e.supply.ino, PayloadPath(cfg, k.id));
      KeptPlace(cfg, s.fs, MakeDirs(s.fs, Parent(k.src), e.supply.ino).fs, k);
    }
  }

  lemma {:induction false} RenameBackPlace(cfg: Config, fs: Fs, fs': Fs, k: Case)
    requires InQuarantine(cfg, fs, k) && RenameNoReplace(fs, PayloadPath(cfg, k.id), k.src) == Some(fs')
    ensures AtSource(cfg, fs', k)
  {
    MovedTree(fs, fs', PayloadPath(cfg, k.id), k.src);
  }

  lemma {:induction false} RenamedBackCase(cfg: Config, s: State, fs': Fs, k: Case, occupied: bool)
    requires Local(cfg, s, k) && RestoreCase(cfg, s, k, occupied)
    requires s.task.RestoringAction? && s.task.restore.RenameBack?
    ensures RestoreCase(cfg, RestoreTo(s, RecordRestoreFailure(RenameFailed)), k, occupied)
    ensures AtSource(cfg, fs', k) ==> RestoreCase(cfg, RestoreTo(s.(fs := fs'), VerifyRestored), k, occupied)
  {
  }

  lemma {:induction false} RenameBackStep(cfg: Config, s: State, e: Event, k: Case, occupied: bool)
    requires Local(cfg, s, k) && RestoreCase(cfg, s, k, occupied) && Works(e)
    requires s.task.RestoringAction? && s.task.restore.RenameBack?
    ensures RestoreCase(cfg, AdvanceRestore(cfg, s, e), k, occupied)
  {
    var s' := AdvanceRestore(cfg, s, e);
    RenamedBackCase(cfg, s, s'.fs, k, occupied);
    if s'.task.restore.VerifyRestored? {
      RenameBackPlace(cfg, s.fs, s'.fs, k);
    }
  }

  lemma {:induction false} PlainRestoreStep(cfg: Config, s: State, e: Event, k: Case, occupied: bool)
    requires Local(cfg, s, k) && RestoreCase(cfg, s, k, occupied) && Works(e)
    requires s.task.RestoringAction? && (Decisive(s) ==> e.Proceed?)
    requires !s.task.restore.MakeParents? && !s.task.restore.RenameBack?
    ensures RestoreCase(cfg, AdvanceRestore(cfg, s, e), k, occupied)
  {
  }

  lemma {:induction false} RecoverRestoreStep(cfg: Config, s: State, e: Event, k: Case, occupied: bool)
    requires Local(cfg, s, k) && RestoreCase(cfg, s, k, occupied) && Works(e)
    requires s.task.Reconciling? && (Decisive(s) ==> e.Proceed?)
    ensures RestoreCase(cfg, AdvanceRecover(cfg, s, e), k, occupied)
  {
  }

  lemma {:induction false} RestoreCaseStep(cfg: Config, s: State, e: Event, k: Case, occupied: bool)
    requires Local(cfg, s, k) && RestoreCase(cfg, s, k, occupied) && Undisturbed(cfg, s, e, k.src)
    ensures RestoreCase(cfg, Advance(cfg, s, e), k, occupied)
  {
    if e.Outside? {
      OutsideKeepsPlace(cfg, s, e.fs, k);
    } else if Works(e) && s.task.RestoringAction? {
      match s.task.restore
      case MakeParents => MakeParentsStep(cfg, s, e, k, occupied);
      case RenameBack => RenameBackStep(cfg, s, e, k, occupied);
      case _ => PlainRestoreStep(cfg, s, e, k, occupied);
    } else if Works(e) && s.task.Reconciling? {
      RecoverRestoreStep(cfg, s, e, k, occupied);
    }
  }

  lemma {:induction false} RestoreCaseRun(cfg: Config, s: State, events: seq<Event>, k: Case, occupied: bool)
    requires Inv(cfg, s) && RestoreCase(cfg, s, k, occupied) && UndisturbedRun(cfg, s, events, k.src)
    ensures Inv(cfg, Run(cfg, s, events)) && RestoreCase(cfg, Run(cfg, s, events), k, occupied)
  {
    if events != [] {
      var before := events[..|events| - 1];
      RestoreCaseRun(cfg, s, before, k, occupied);
      RestoreCaseStep(cfg, Run(cfg, s, before), events[|events| - 1], k, occupied);
      StepCarries(cfg, Run(cfg, s, before), events[|events| - 1]);
    }
  }
}
