/** What every reachable state satisfies, whatever fails, dies or interferes. */
module Safety {
  import opened Base
  import opened FileSystem
  import opened Protocol

  // The quarantine directories are apart from each other

  lemma {:induction false} DirsApart(cfg: Config, i: nat, j: nat)
    requires i != j
    ensures !Overlap(ActionDir(cfg, i), ActionDir(cfg, j))
  {
    var a, b := ActionDir(cfg, i), ActionDir(cfg, j);
    if a == b {
      var n := |cfg.quarantineRoot|;
      assert a[n][|ACTION_PREFIX|..] == Decimal(i) && b[n][|ACTION_PREFIX|..] == Decimal(j);
      DecimalInjective(i, j);
    }
  }

  /** The quarantine directories of all actions but `id` hold the same in both file systems. */
  ghost predicate OthersKept(cfg: Config, fs: Fs, fs': Fs, id: nat) {
    forall j: nat | j != id :: SameBelow(fs, fs', ActionDir(cfg, j))
  }

  ghost predicate AllKept(cfg: Config, fs: Fs, fs': Fs) {
    forall j: nat :: SameBelow(fs, fs', ActionDir(cfg, j))
  }

  lemma {:induction false} KeptPayload(cfg: Config, fs: Fs, fs': Fs, j: nat)
    requires SameBelow(fs, fs', ActionDir(cfg, j))
    ensures ActionDir(cfg, j) in fs <==> ActionDir(cfg, j) in fs'
    ensures PayloadPath(cfg, j) in fs <==> PayloadPath(cfg, j) in fs'
    ensures ManifestPath(cfg, j) in fs <==> ManifestPath(cfg, j) in fs'
    ensures TreeAt(fs, PayloadPath(cfg, j)) == TreeAt(fs', PayloadPath(cfg, j))
  {
    assert ActionDir(cfg, j) <= ActionDir(cfg, j);
    assert ActionDir(cfg, j) <= PayloadPath(cfg, j) && ActionDir(cfg, j) <= ManifestPath(cfg, j);
    SameTree(fs, fs', PayloadPath(cfg, j));
  }

  // The invariant

  /** The payload of an action is in quarantine and is the one that was fingerprinted. */
  predicate Intact(cfg: Config, fs: Fs, id: nat, digest: Digest) {
    PayloadPath(cfg, id) in fs && cfg.fingerprint(TreeAt(fs, PayloadPath(cfg, id))) == digest
  }

  /** H2: the path is not at or below the quarantine root.  The commands do not check it. */
  predicate OutsideQuarantine(cfg: Config, p: Path) {
    !(cfg.quarantineRoot <= p)
  }

  /** Once a move may have begun, the row says where the payload goes. */
  predicate Placed(row: Row) {
    row.status == Moving || row.status == Quarantined || row.status == Restoring || row.status == Restored ==>
      row.quarantine.Some?
  }

  predicate RowOk(cfg: Config, fs: Fs, id: nat, row: Row) {
    && (row.quarantine.Some? ==> row.quarantine.value == PayloadPath(cfg, id))
    && Placed(row)
    && OutsideQuarantine(cfg, row.original)
    && (row.restoredAt.Some? <==> row.status == Restored)
    && (row.status == Quarantined && row.digest.Some? ==> Intact(cfg, fs, id, row.digest.value))
  }

  predicate BeforeInsert(step: CleanStep) {
    step.Preflight? || step.CheckFilesystem? || step.FingerprintSource? || step.VerifyAgain? || step.Insert?
  }

  predicate BeforeRename(step: CleanStep) {
    || step.SetIntent? || step.MakeActionDir? || step.WriteManifest? || step.SetMoving?
    || step.VerifySource? || step.RenameIn?
  }

  predicate CleaningOk(cfg: Config, s: State)
    requires s.task.Cleaning?
  {
    var Cleaning(c, digest, id, step) := s.task;
    && OutsideQuarantine(cfg, c.path)
    && (!BeforeInsert(step) ==>
      && id in s.rows
      && s.rows[id].original == c.path
      && s.rows[id].digest == Some(digest)
      && s.rows[id].version == Some(Sha256TreeV1)
      && (s.rows[id].status == Planned || s.rows[id].status == Moving)
      && (step.SetIntent? ==> s.rows[id].quarantine.None? && s.rows[id].status == Planned)
      && (step.MakeActionDir? || step.WriteManifest? || step.SetMoving? ==> s.rows[id].status == Planned)
      && (!step.SetIntent? ==> s.rows[id].quarantine == Some(PayloadPath(cfg, id))))
    && (BeforeRename(step) ==> PayloadPath(cfg, id) !in s.fs)
    && (step.SetQuarantined? ==> Intact(cfg, s.fs, id, digest))
  }

  predicate BeforeRestoring(step: RestoreStep) {
    step.CheckStatus? || step.CheckQuarantine? || step.CheckOriginal? || step.VerifyQuarantined? || step.SetRestoring?
  }

  predicate SameIdentity(a: Row, b: Row) {
    a.original == b.original && a.quarantine == b.quarantine && a.digest == b.digest && a.version == b.version
  }

  predicate RestoringOk(cfg: Config, s: State)
    requires s.task.RestoringAction?
  {
    var RestoringAction(id, row, step) := s.task;
    && id in s.rows
    && SameIdentity(s.rows[id], row)
    && (BeforeRestoring(step) ==>
      && s.rows[id] == row
      && (!step.CheckStatus? ==> row.status == Quarantined && row.quarantine.Some?)
      && (step.SetRestoring? ==> Verified(cfg, s.fs, row, PayloadPath(cfg, id))))
    && (!BeforeRestoring(step) ==>
      && s.rows[id].status == Restoring
      && row.quarantine.Some?
      && (step.MakeParents? || step.RenameBack? || step.RecordRestoreFailure? ==>
        Verified(cfg, s.fs, row, PayloadPath(cfg, id))))
  }

  predicate ReconcilingOk(cfg: Config, s: State)
    requires s.task.Reconciling?
  {
    var Reconciling(id, row, step) := s.task;
    && id in s.rows
    && s.rows[id] == row
    && (!step.Dispatch? ==> Interrupted(row.status))
    && (step.WriteVerdict? && !step.verdict.ToFailed? ==> row.quarantine.Some?)
    && (step.WriteVerdict? ==>
      match step.verdict
      case ToFailed(_) => true
      case ToQuarantined => row.status != Restoring && Verified(cfg, s.fs, row, PayloadPath(cfg, id))
      case BackToQuarantined => row.status == Restoring && Verified(cfg, s.fs, row, PayloadPath(cfg, id))
      case ToRestored => row.status == Restoring)
  }

  ghost predicate TaskOk(cfg: Config, s: State) {
    match s.task
    case Resting(_) => true
    case Cleaning(_, _, _, _) => CleaningOk(cfg, s)
    case RestoringAction(_, _, _) => RestoringOk(cfg, s)
    case Reconciling(_, _, _) => ReconcilingOk(cfg, s)
  }

  /** The part of the invariant that does not depend on the running task.  H1 is its second line: the
      payload path of an id this table has not given out yet does not exist. */
  ghost predicate StoreOk(cfg: Config, s: State) {
    && WellFormed(s.fs)
    && (forall j: nat | j >= s.nextId :: PayloadPath(cfg, j) !in s.fs)
    && (forall j | j in s.rows :: j < s.nextId)
    && (forall j | j in s.rows :: RowOk(cfg, s.fs, j, s.rows[j]))
  }

  ghost predicate Inv(cfg: Config, s: State) {
    StoreOk(cfg, s) && TaskOk(cfg, s)
  }

  /** Another program may change anything outside the quarantine root. */
  ghost predicate Admissible(cfg: Config, s: State, e: Event) {
    e.Outside? ==> WellFormed(e.fs) && SameBelow(s.fs, e.fs, cfg.quarantineRoot)
  }

  ghost predicate AdmissibleRun(cfg: Config, s: State, events: seq<Event>) {
    events == [] ||
    (AdmissibleRun(cfg, s, events[..|events| - 1]) &&
     Admissible(cfg, Run(cfg, s, events[..|events| - 1]), events[|events| - 1]))
  }

  // Every step keeps the invariant

  /** The store invariant carries over when only the quarantine directory of `id` changed. */
  lemma {:induction false} StoreCarries(cfg: Config, s: State, s': State, id: nat)
    requires StoreOk(cfg, s) && WellFormed(s'.fs) && OthersKept(cfg, s.fs, s'.fs, id)
    requires s'.nextId == s.nextId && id < s.nextId
    requires s'.rows.Keys == s.rows.Keys
    requires forall j | j in s.rows && j != id :: s'.rows[j] == s.rows[j]
    requires id in s.rows ==> RowOk(cfg, s'.fs, id, s'.rows[id])
    ensures StoreOk(cfg, s')
  {
    forall j: nat | j != id
      ensures ActionDir(cfg, j) in s.fs <==> ActionDir(cfg, j) in s'.fs
      ensures forall d :: Intact(cfg, s.fs, j, d) == Intact(cfg, s'.fs, j, d)
    {
      KeptPayload(cfg, s.fs, s'.fs, j);
    }
  }

  lemma {:induction false} OutsideCarries(cfg: Config, s: State, fs': Fs)
    requires Inv(cfg, s) && Admissible(cfg, s, Outside(fs'))
    ensures Inv(cfg, s.(fs := fs'))
  {
    forall j: nat ensures SameBelow(s.fs, fs', ActionDir(cfg, j)) {
      assert cfg.quarantineRoot <= ActionDir(cfg, j);
    }
    forall j: nat { KeptPayload(cfg, s.fs, fs', j); }
  }

  /** Making directories on the way to `target` changes no quarantine directory other than `target`. */
  lemma {:induction false} DirsKeepOthers(cfg: Config, fs: Fs, target: Path, ino: Inode, id: nat)
    requires WellFormed(fs) && MakeDirs(fs, target, ino).Made?
    requires target == ActionDir(cfg, id) || OutsideQuarantine(cfg, target)
    ensures WellFormed(MakeDirs(fs, target, ino).fs)
    ensures OthersKept(cfg, fs, MakeDirs(fs, target, ino).fs, id)
    ensures target != ActionDir(cfg, id) ==> AllKept(cfg, fs, MakeDirs(fs, target, ino).fs)
    ensures SameBelow(fs, MakeDirs(fs, target, ino).fs, PayloadPath(cfg, id))
    ensures SameBelow(fs, MakeDirs(fs, target, ino).fs, ManifestPath(cfg, id))
  {
    forall j: nat | j != id || target != ActionDir(cfg, id)
      ensures SameBelow(fs, MakeDirs(fs, target, ino).fs, ActionDir(cfg, j))
    {
      if j != id { DirsApart(cfg, id, j); }
      assert cfg.quarantineRoot <= ActionDir(cfg, j);
      MakeDirsOnlyAdds(fs, target, ino, ActionDir(cfg, j));
    }
    assert cfg.quarantineRoot <= PayloadPath(cfg, id) && cfg.quarantineRoot <= ManifestPath(cfg, id);
    MakeDirsOnlyAdds(fs, target, ino, PayloadPath(cfg, id));
    MakeDirsOnlyAdds(fs, target, ino, ManifestPath(cfg, id));
  }

  /** A path that is not in the quarantine and can be renamed with a payload is apart from every
      quarantine directory: an ancestor of the quarantine root overlaps the payload. */
  lemma {:induction false} ApartFromAll(cfg: Config, p: Path, id: nat, j: nat)
    requires OutsideQuarantine(cfg, p) && !Overlap(p, PayloadPath(cfg, id))
    ensures !Overlap(p, ActionDir(cfg, j))
  {
    var r := cfg.quarantineRoot;
    assert r <= ActionDir(cfg, j) && r <= PayloadPath(cfg, id);
    if p <= ActionDir(cfg, j) {
      PrefixesOverlap(p, r, ActionDir(cfg, j));
    }
  }

  /** Moving a payload into or out of quarantine keeps the other quarantine directories. */
  lemma {:induction false} MoveKeepsOthers(cfg: Config, fs: Fs, fs': Fs, src: Path, dst: Path, id: nat, p: Path)
    requires Moved(fs, fs', src, dst)
    requires {src, dst} == {p, PayloadPath(cfg, id)} && OutsideQuarantine(cfg, p) && !Overlap(src, dst)
    ensures OthersKept(cfg, fs, fs', id)
  {
    forall j: nat | j != id ensures SameBelow(fs, fs', ActionDir(cfg, j)) {
      ApartFromAll(cfg, p, id, j);
      DirsApart(cfg, id, j);
      var a, b := ActionDir(cfg, j), PayloadPath(cfg, id);
      assert ActionDir(cfg, id) <= b;
      if a <= b { PrefixesOverlap(a, ActionDir(cfg, id), b); }
      MovedElsewhere(fs, fs', src, dst, a);
    }
  }

  predicate Works(e: Event) {
    e.Proceed? || e.Fault? || e.Partial?
  }

  /** A step that touches neither files nor ids carries the store invariant if the row it writes is fine. */
  lemma {:induction false} RowCarries(cfg: Config, s: State, s': State, id: nat)
    requires StoreOk(cfg, s) && s'.fs == s.fs && s'.nextId == s.nextId
    requires id in s.rows && id in s'.rows && s'.rows == s.rows[id := s'.rows[id]]
    requires RowOk(cfg, s.fs, id, s'.rows[id])
    ensures StoreOk(cfg, s')
  {
  }

  lemma {:induction false} InsertCarries(cfg: Config, s: State, e: Event)
    requires Inv(cfg, s) && s.task.Cleaning? && s.task.clean.Insert? && Works(e)
    ensures Inv(cfg, AdvanceClean(cfg, s, e))
  {
  }

  lemma {:induction false} MakeActionDirCarries(cfg: Config, s: State, e: Event)
    requires Inv(cfg, s) && s.task.Cleaning? && s.task.clean.MakeActionDir? && Works(e)
    ensures Inv(cfg, AdvanceClean(cfg, s, e))
  {
    var s' := AdvanceClean(cfg, s, e);
    if s'.fs != s.fs {
      var id := s.task.id;
      DirsKeepOthers(cfg, s.fs, ActionDir(cfg, id), e.supply.ino, id);
      assert PayloadPath(cfg, id) <= PayloadPath(cfg, id) && ManifestPath(cfg, id) <= ManifestPath(cfg, id);
      StoreCarries(cfg, s, s', id);
    }
  }

  lemma {:induction false} ManifestKeepsOthers(cfg: Config, fs: Fs, id: nat, node: Node)
    requires WellFormed(fs) && IsDir(fs, ActionDir(cfg, id)) && !IsDir(fs, ManifestPath(cfg, id)) && !node.kind.Dir?
    ensures var fs' := Create(fs, ManifestPath(cfg, id), node);
            WellFormed(fs') && OthersKept(cfg, fs, fs', id)
  {
    var m := ManifestPath(cfg, id);
    assert Parent(m) == ActionDir(cfg, id);
    CreateKeeps(fs, m, node, m);
    forall j: nat | j != id ensures SameBelow(fs, Create(fs, m, node), ActionDir(cfg, j)) {
      DirsApart(cfg, id, j);
      if ActionDir(cfg, j) <= m { PrefixesOverlap(ActionDir(cfg, j), ActionDir(cfg, id), m); }
      CreateKeeps(fs, m, node, ActionDir(cfg, j));
    }
  }

  lemma {:induction false} WriteManifestCarries(cfg: Config, s: State, e: Event)
    requires Inv(cfg, s) && s.task.Cleaning? && s.task.clean.WriteManifest? && Works(e)
    ensures Inv(cfg, AdvanceClean(cfg, s, e))
  {
    var s' := AdvanceClean(cfg, s, e);
    if s'.fs != s.fs {
      var id := s.task.id;
      var m := ManifestPath(cfg, id);
      ManifestKeepsOthers(cfg, s.fs, id, WrittenNode(s.fs, m, e.supply));
      assert PayloadPath(cfg, id) != m by { assert PayloadPath(cfg, id)[|m| - 1] != m[|m| - 1]; }
      StoreCarries(cfg, s, s', id);
    }
  }

  /** What the rename does to the state. */
  lemma {:induction false} RenameInDoes(cfg: Config, s: State, e: Event)
    requires s.task.Cleaning? && s.task.clean.RenameIn? && Works(e)
    ensures var r := Rename(s.fs, s.task.candidate.path, PayloadPath(cfg, s.task.id));
            AdvanceClean(cfg, s, e) == if r.Some? && e.Proceed? then CleanTo(s.(fs := r.value), VerifyPayload)
                                       else CleanTo(s, RecordFailure(RenameFailed))
  {
  }

  lemma {:induction false} MovedInStore(cfg: Config, s: State, s': State, src: Path, id: nat)
    requires StoreOk(cfg, s) && OutsideQuarantine(cfg, src) && id in s.rows && s.rows[id].status != Quarantined
    requires Rename(s.fs, src, PayloadPath(cfg, id)) == Some(s'.fs) && s'.rows == s.rows && s'.nextId == s.nextId
    ensures StoreOk(cfg, s')
  {
    var dst := PayloadPath(cfg, id);
    MovedWellFormed(s.fs, s'.fs, src, dst);
    MoveKeepsOthers(cfg, s.fs, s'.fs, src, dst, id, src);
    StoreCarries(cfg, s, s', id);
  }

  lemma {:induction false} MovedInTask(cfg: Config, s: State, fs': Fs)
    requires TaskOk(cfg, s) && s.task.Cleaning? && s.task.clean.RenameIn?
    ensures TaskOk(cfg, CleanTo(s.(fs := fs'), VerifyPayload)) && TaskOk(cfg, CleanTo(s, RecordFailure(RenameFailed)))
  {
  }

  lemma {:induction false} RenameInCarries(cfg: Config, s: State, e: Event)
    requires Inv(cfg, s) && s.task.Cleaning? && s.task.clean.RenameIn? && Works(e)
    ensures Inv(cfg, AdvanceClean(cfg, s, e))
  {
    var src, id := s.task.candidate.path, s.task.id;
    var r := Rename(s.fs, src, PayloadPath(cfg, id));
    RenameInDoes(cfg, s, e);
    MovedInTask(cfg, s, if r.Some? then r.value else s.fs);
    assert RowOk(cfg, s.fs, id, s.rows[id]);
    if r.Some? && e.Proceed? {
      MovedInStore(cfg, s, CleanTo(s.(fs := r.value), VerifyPayload), src, id);
    } else {
      assert StoreOk(cfg, CleanTo(s, RecordFailure(RenameFailed)));
    }
  }

  /** The steps that only write the row. */
  lemma {:induction false} CleanRowCarries(cfg: Config, s: State, e: Event)
    requires Inv(cfg, s) && s.task.Cleaning? && Works(e)
    requires s.task.clean.SetIntent? || s.task.clean.SetMoving? || s.task.clean.SetQuarantined?
             || s.task.clean.RecordFailure?
    ensures Inv(cfg, AdvanceClean(cfg, s, e))
  {
    RowCarries(cfg, s, AdvanceClean(cfg, s, e), s.task.id);
  }

  /** The steps that only look. */
  lemma {:induction false} CleanCheckCarries(cfg: Config, s: State, e: Event)
    requires Inv(cfg, s) && s.task.Cleaning? && Works(e)
    requires
      || s.task.clean.Preflight? || s.task.clean.CheckFilesystem? || s.task.clean.FingerprintSource?
      || s.task.clean.VerifyAgain?
      || s.task.clean.VerifySource? || s.task.clean.VerifyPayload? || s.task.clean.FingerprintPayload?
    ensures Inv(cfg, AdvanceClean(cfg, s, e))
  {
    var s' := AdvanceClean(cfg, s, e);
    assert s' == s.(task := s'.task);
  }

  lemma {:induction false} CleanCarries(cfg: Config, s: State, e: Event)
    requires Inv(cfg, s) && s.task.Cleaning? && Works(e)
    ensures Inv(cfg, AdvanceClean(cfg, s, e))
  {
    var step := s.task.clean;
    if step.Insert? {
      InsertCarries(cfg, s, e);
    } else if step.MakeActionDir? {
      MakeActionDirCarries(cfg, s, e);
    } else if step.WriteManifest? {
      WriteManifestCarries(cfg, s, e);
    } else if step.RenameIn? {
      RenameInCarries(cfg, s, e);
    } else if step.SetIntent? || step.SetMoving? || step.SetQuarantined? || step.RecordFailure? {
      CleanRowCarries(cfg, s, e);
    } else {
      CleanCheckCarries(cfg, s, e);
    }
  }

  lemma {:induction false} MakeParentsDoes(cfg: Config, s: State, e: Event)
    requires s.task.RestoringAction? && s.task.restore.MakeParents? && s.task.row.quarantine.Some? && Works(e)
    ensures var o := s.task.row.original;
            && (o == [] ==> AdvanceRestore(cfg, s, e) == RestoreTo(s, RenameBack))
            && (o != [] ==>
                  var p := MakeDirs(s.fs, Parent(o), if e.Proceed? then e.supply.ino else Inode(0, 0));
                  AdvanceRestore(cfg, s, e) ==
                    if !e.Proceed? || p.Blocked? then RestoreTo(s, RecordRestoreFailure(PrepareFailed))
                    else if p.Ready? then RestoreTo(s, RenameBack)
                    else s.(fs := p.fs))
  {
  }

  lemma {:induction false} ParentsMadeStore(cfg: Config, s: State, s': State, target: Path, ino: Inode, id: nat)
    requires StoreOk(cfg, s) && OutsideQuarantine(cfg, target) && id in s.rows
    requires MakeDirs(s.fs, target, ino) == Made(s'.fs) && s'.rows == s.rows && s'.nextId == s.nextId
    ensures StoreOk(cfg, s') && (PayloadPath(cfg, id) in s.fs ==> PayloadPath(cfg, id) in s'.fs)
    ensures TreeAt(s'.fs, PayloadPath(cfg, id)) == TreeAt(s.fs, PayloadPath(cfg, id))
  {
    DirsKeepOthers(cfg, s.fs, target, ino, id);
    assert cfg.quarantineRoot <= ActionDir(cfg, id);
    KeptPayload(cfg, s.fs, s'.fs, id);
    StoreCarries(cfg, s, s', id);
  }

  lemma {:induction false} MakeParentsCarries(cfg: Config, s: State, e: Event)
    requires Inv(cfg, s) && s.task.RestoringAction? && s.task.restore.MakeParents? && Works(e)
    ensures Inv(cfg, AdvanceRestore(cfg, s, e))
  {
    var id, o := s.task.id, s.task.row.original;
    MakeParentsDoes(cfg, s, e);
    if o != [] && e.Proceed? {
      var p := MakeDirs(s.fs, Parent(o), e.supply.ino);
      if p.Made? {
        assert Parent(o) <= o && RowOk(cfg, s.fs, id, s.rows[id]);
        ParentsMadeStore(cfg, s, s.(fs := p.fs), Parent(o), e.supply.ino, id);
      }
    }
  }

  lemma {:induction false} RenameBackDoes(cfg: Config, s: State, e: Event)
    requires s.task.RestoringAction? && s.task.restore.RenameBack? && s.task.row.quarantine.Some? && Works(e)
    ensures var r := RenameNoReplace(s.fs, s.task.row.quarantine.value, s.task.row.original);
            AdvanceRestore(cfg, s, e) == if r.Some? && e.Proceed? then RestoreTo(s.(fs := r.value), VerifyRestored)
                                         else RestoreTo(s, RecordRestoreFailure(RenameFailed))
  {
  }

  lemma {:induction false} MovedBackStore(cfg: Config, s: State, s': State, dst: Path, id: nat)
    requires StoreOk(cfg, s) && OutsideQuarantine(cfg, dst) && id in s.rows && s.rows[id].status == Restoring
    requires RenameNoReplace(s.fs, PayloadPath(cfg, id), dst) == Some(s'.fs) && s'.rows == s.rows &&
             s'.nextId == s.nextId
    ensures StoreOk(cfg, s')
  {
    var src := PayloadPath(cfg, id);
    assert RowOk(cfg, s.fs, id, s.rows[id]);
    MovedWellFormed(s.fs, s'.fs, src, dst);
    MoveKeepsOthers(cfg, s.fs, s'.fs, src, dst, id, dst);
    StoreCarries(cfg, s, s', id);
  }

  lemma {:induction false} MovedBackTask(cfg: Config, s: State, fs': Fs)
    requires TaskOk(cfg, s) && s.task.RestoringAction? && s.task.restore.RenameBack?
    ensures TaskOk(cfg, RestoreTo(s.(fs := fs'), VerifyRestored)) &&
            TaskOk(cfg, RestoreTo(s, RecordRestoreFailure(RenameFailed)))
  {
  }

  lemma {:induction false} RenameBackCarries(cfg: Config, s: State, e: Event)
    requires Inv(cfg, s) && s.task.RestoringAction? && s.task.restore.RenameBack? && Works(e)
    ensures Inv(cfg, AdvanceRestore(cfg, s, e))
  {
    var id, dst := s.task.id, s.task.row.original;
    assert RowOk(cfg, s.fs, id, s.rows[id]);
    RenameBackDoes(cfg, s, e);
    var r := RenameNoReplace(s.fs, PayloadPath(cfg, id), dst);
    MovedBackTask(cfg, s, if r.Some? then r.value else s.fs);
    if r.Some? && e.Proceed? {
      MovedBackStore(cfg, s, RestoreTo(s.(fs := r.value), VerifyRestored), dst, id);
    } else {
      assert StoreOk(cfg, RestoreTo(s, RecordRestoreFailure(RenameFailed)));
    }
  }

  lemma {:induction false} RestoreRowCarries(cfg: Config, s: State, e: Event)
    requires Inv(cfg, s) && s.task.RestoringAction? && Works(e)
    requires s.task.restore.SetRestoring? || s.task.restore.SetRestored?
             || s.task.restore.RecordRestoreFailure? || s.task.restore.RecordTerminalFailure?
    ensures Inv(cfg, AdvanceRestore(cfg, s, e))
  {
    var s' := AdvanceRestore(cfg, s, e);
    assert RowOk(cfg, s.fs, s.task.id, s.rows[s.task.id]);
    RestoreRowDoes(cfg, s, e);
    RowCarries(cfg, s, s', s.task.id);
  }

  /** What the steps of a restore that write the row do to the row, and what they lead to. */
  lemma {:induction false} RestoreRowDoes(cfg: Config, s: State, e: Event)
    requires TaskOk(cfg, s) && s.task.RestoringAction? && Works(e)
    requires s.task.restore.SetRestoring? || s.task.restore.SetRestored?
             || s.task.restore.RecordRestoreFailure? || s.task.restore.RecordTerminalFailure?
    requires s.task.id in s.rows && RowOk(cfg, s.fs, s.task.id, s.rows[s.task.id])
    ensures var s', id := AdvanceRestore(cfg, s, e), s.task.id;
            && TaskOk(cfg, s') && s'.fs == s.fs && s'.nextId == s.nextId
            && id in s'.rows && s'.rows == s.rows[id := s'.rows[id]] && RowOk(cfg, s.fs, id, s'.rows[id])
  {
  }

  lemma {:induction false} RestoreCheckCarries(cfg: Config, s: State, e: Event)
    requires Inv(cfg, s) && s.task.RestoringAction? && Works(e)
    requires s.task.restore.CheckStatus? || s.task.restore.CheckQuarantine? || s.task.restore.CheckOriginal?
             || s.task.restore.VerifyQuarantined? || s.task.restore.VerifyRestored?
    ensures Inv(cfg, AdvanceRestore(cfg, s, e))
  {
    var s' := AdvanceRestore(cfg, s, e);
    assert RowOk(cfg, s.fs, s.task.id, s.rows[s.task.id]);
    assert s' == s.(task := s'.task);
  }

  lemma {:induction false} RestoreCarries(cfg: Config, s: State, e: Event)
    requires Inv(cfg, s) && s.task.RestoringAction? && Works(e)
    ensures Inv(cfg, AdvanceRestore(cfg, s, e))
  {
    var step := s.task.restore;
    if step.MakeParents? {
      MakeParentsCarries(cfg, s, e);
    } else if step.RenameBack? {
      RenameBackCarries(cfg, s, e);
    } else if step.SetRestoring? || step.SetRestored? || step.RecordRestoreFailure? || step.RecordTerminalFailure? {
      RestoreRowCarries(cfg, s, e);
    } else {
      RestoreCheckCarries(cfg, s, e);
    }
  }

  lemma {:induction false} RecoverCarries(cfg: Config, s: State, e: Event)
    requires Inv(cfg, s) && s.task.Reconciling? && Works(e)
    ensures Inv(cfg, AdvanceRecover(cfg, s, e))
  {
    var s' := AdvanceRecover(cfg, s, e);
    match s.task.recover
    case WriteVerdict(verdict) =>
      assert RowOk(cfg, s.fs, s.task.id, s.rows[s.task.id]);
      RowCarries(cfg, s, s', s.task.id);
    case _ => assert s' == s.(task := s'.task);
  }

  lemma {:induction false} StepCarries(cfg: Config, s: State, e: Event)
    requires Inv(cfg, s) && Admissible(cfg, s, e)
    ensures Inv(cfg, Advance(cfg, s, e))
  {
    if e.Outside? {
      OutsideCarries(cfg, s, e.fs);
    } else if Works(e) && s.task.Cleaning? {
      CleanCarries(cfg, s, e);
    } else if Works(e) && s.task.RestoringAction? {
      RestoreCarries(cfg, s, e);
    } else if Works(e) && s.task.Reconciling? {
      RecoverCarries(cfg, s, e);
    }
  }

  /** Safety under interference: every run keeps the invariant. */
  lemma {:induction false} RunCarries(cfg: Config, s: State, events: seq<Event>)
    requires Inv(cfg, s) && AdmissibleRun(cfg, s, events)
    ensures Inv(cfg, Run(cfg, s, events))
  {
    if events != [] {
      RunCarries(cfg, s, events[..|events| - 1]);
      StepCarries(cfg, Run(cfg, s, events[..|events| - 1]), events[|events| - 1]);
    }
  }

  /** A command may start between runs. */
  lemma {:induction false} StartCarries(cfg: Config, s: State, c: Candidate, id: nat)
    requires Inv(cfg, s) && s.task.Resting?
    ensures OutsideQuarantine(cfg, c.path) ==> Inv(cfg, StartClean(s, c))
    ensures Inv(cfg, StartRestore(s, id))
    ensures Inv(cfg, StartRecover(s, id))
  {
  }
}
