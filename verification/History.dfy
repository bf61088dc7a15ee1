/** What runs do to the table and to the objects of the file system. */
module History {
  import opened Base
  import opened FileSystem
  import opened Protocol
  import opened Safety

  // Statuses move only along these edges

  predicate Edge(before: Status, after: Status) {
    || before == after
    || (before == Planned && after in {Moving, Quarantined, Failed})
    || (before == Moving && after in {Quarantined, Failed})
    || (before == Quarantined && after == Restoring)
    || (before == Restoring && after in {Quarantined, Restored, Failed})
  }

  predicate Terminal(s: Status) {
    s == Restored || s == Failed
  }

  /** One row over one step: the payload's identity is never rewritten, a quarantine path is set once,
      statuses follow the edges, and a terminal row is never written again. */
  predicate RowStep(before: Row, after: Row) {
    && before.original == after.original
    && before.digest == after.digest
    && before.version == after.version
    && (before.quarantine.Some? ==> after.quarantine == before.quarantine)
    && Edge(before.status, after.status)
    && (Terminal(before.status) ==> after == before)
  }

  lemma {:induction false} StepFollowsEdges(cfg: Config, s: State, e: Event)
    requires Inv(cfg, s)
    ensures var s' := Advance(cfg, s, e);
            && s.rows.Keys <= s'.rows.Keys
            && (forall j | j in s.rows :: RowStep(s.rows[j], s'.rows[j]))
            && (forall j | j in s'.rows && j !in s.rows ::
                  j == s.nextId && s'.rows[j].status == Planned && s'.rows[j].digest.Some?)
  {
    if Works(e) && s.task.Cleaning? {
      CleanFollowsEdges(cfg, s, e);
    } else if Works(e) && s.task.RestoringAction? {
      RestoreFollowsEdges(cfg, s, e);
    } else if Works(e) && s.task.Reconciling? {
      RecoverFollowsEdges(cfg, s, e);
    }
  }

  /** A step writes at most the row of its own action. */
  predicate WritesOnly(before: Table, after: Table, id: nat) {
    id in before && id in after && after == before[id := after[id]] && RowStep(before[id], after[id])
  }

  predicate CleaningTask(cfg: Config, s: State) {
    s.task.Cleaning? && CleaningOk(cfg, s)
  }

  lemma {:induction false} CleanFollowsEdges(cfg: Config, s: State, e: Event)
    requires CleaningTask(cfg, s) && Works(e) &&
             (s.task.id in s.rows ==> RowOk(cfg, s.fs, s.task.id, s.rows[s.task.id]))
    requires s.nextId !in s.rows
    ensures var s' := AdvanceClean(cfg, s, e);
            if s.task.clean.Insert? then
              s'.rows == s.rows || s'.rows == s.rows[s.nextId := NewRow(s.task.candidate, s.task.digest)]
            else s'.rows == s.rows || WritesOnly(s.rows, s'.rows, s.task.id)
  {
  }

  lemma {:induction false} RestoreFollowsEdges(cfg: Config, s: State, e: Event)
    requires s.task.RestoringAction? && RestoringOk(cfg, s) && Works(e)
    ensures var s' := AdvanceRestore(cfg, s, e);
            s'.rows == s.rows || WritesOnly(s.rows, s'.rows, s.task.id)
  {
  }

  lemma {:induction false} RecoverFollowsEdges(cfg: Config, s: State, e: Event)
    requires s.task.Reconciling? && ReconcilingOk(cfg, s) && Works(e)
    ensures var s' := AdvanceRecover(cfg, s, e);
            s'.fs == s.fs && (s'.rows == s.rows || WritesOnly(s.rows, s'.rows, s.task.id))
  {
  }

  /** One row over any time: its identity stays, and so does everything once it is terminal. */
  predicate RowStays(before: Row, after: Row) {
    && before.original == after.original
    && before.digest == after.digest
    && before.version == after.version
    && (before.quarantine.Some? ==> after.quarantine == before.quarantine)
    && (Terminal(before.status) ==> after == before)
  }

  /** One table over any time: no row goes away, and every new one has a fingerprint. */
  ghost predicate TableStays(before: Table, after: Table) {
    && before.Keys <= after.Keys
    && (forall j | j in before :: RowStays(before[j], after[j]))
    && (forall j | j in after && j !in before :: after[j].digest.Some?)
  }

  lemma {:induction false} TableStaysTransitive(a: Table, b: Table, c: Table)
    requires TableStays(a, b) && TableStays(b, c)
    ensures TableStays(a, c)
  {
    assert forall j | j in a :: RowStays(a[j], b[j]) && RowStays(b[j], c[j]);
  }

  // No object is lost

  function Stay(fs: Fs): map<Path, Path> {
    map p | p in fs :: p
  }

  /** Everything stays in place, or one payload goes to a place that was free. */
  ghost predicate OneMove(fs: Fs, where: map<Path, Path>) {
    || where == Stay(fs)
    || (exists src, dst :: dst !in fs && where == MoveMap(fs, src, dst))
  }

  lemma {:induction false} StaysPut(fs: Fs, fs': Fs)
    requires forall p | p in fs :: p in fs' && fs'[p] == fs[p]
    ensures KeepsAll(fs, fs', Stay(fs)) && OneMove(fs, Stay(fs))
  {
  }

  /** What the write of a manifest leaves behind is what was there, if anything was. */
  predicate OverwritesNothing(cfg: Config, s: State, e: Event) {
    s.task.Cleaning? && s.task.clean.WriteManifest? && (e.Proceed? || e.Partial?) ==>
      var m := ManifestPath(cfg, s.task.id);
      m in s.fs && IsDir(s.fs, ActionDir(cfg, s.task.id)) && !IsDir(s.fs, m) ==>
        s.fs[m] == WrittenNode(s.fs, m, e.supply)
  }

  lemma {:induction false} RenameInKeepsObjects(cfg: Config, s: State, e: Event) returns (where: map<Path, Path>)
    requires WellFormed(s.fs) && CleaningTask(cfg, s) && s.task.clean.RenameIn? && Works(e)
    ensures KeepsAll(s.fs, AdvanceClean(cfg, s, e).fs, where) && OneMove(s.fs, where)
  {
    var src, dst := s.task.candidate.path, PayloadPath(cfg, s.task.id);
    var r := Rename(s.fs, src, dst);
    RenameInDoes(cfg, s, e);
    if r.Some? && e.Proceed? {
      MovedKeepsAll(s.fs, r.value, src, dst);
      where := MoveMap(s.fs, src, dst);
    } else {
      StaysPut(s.fs, s.fs);
      where := Stay(s.fs);
    }
  }

  lemma {:induction false} CleanKeepsObjects(cfg: Config, s: State, e: Event) returns (where: map<Path, Path>)
    requires WellFormed(s.fs) && CleaningTask(cfg, s) && Works(e) && OverwritesNothing(cfg, s, e)
    ensures KeepsAll(s.fs, AdvanceClean(cfg, s, e).fs, where) && OneMove(s.fs, where)
  {
    if s.task.clean.RenameIn? {
      where := RenameInKeepsObjects(cfg, s, e);
    } else {
      if s.task.clean.MakeActionDir? && e.Proceed? && MakeDirs(s.fs, ActionDir(cfg, s.task.id), e.supply.ino).Made? {
        MakeDirsOnlyAdds(s.fs, ActionDir(cfg, s.task.id), e.supply.ino, []);
      }
      StaysPut(s.fs, AdvanceClean(cfg, s, e).fs);
      where := Stay(s.fs);
    }
  }

  lemma {:induction false} RenameBackKeepsObjects(cfg: Config, s: State, e: Event) returns (where: map<Path, Path>)
    requires Inv(cfg, s) && s.task.RestoringAction? && s.task.restore.RenameBack? && Works(e)
    ensures KeepsAll(s.fs, AdvanceRestore(cfg, s, e).fs, where) && OneMove(s.fs, where)
  {
    var src, dst := s.task.row.quarantine.value, s.task.row.original;
    var r := RenameNoReplace(s.fs, src, dst);
    RenameBackDoes(cfg, s, e);
    if r.Some? && e.Proceed? {
      MovedKeepsAll(s.fs, r.value, src, dst);
      where := MoveMap(s.fs, src, dst);
    } else {
      StaysPut(s.fs, s.fs);
      where := Stay(s.fs);
    }
  }

  lemma {:induction false} MakeParentsKeepsObjects(cfg: Config, s: State, e: Event)
    requires Inv(cfg, s) && s.task.RestoringAction? && s.task.restore.MakeParents? && Works(e)
    ensures forall p | p in s.fs :: p in AdvanceRestore(cfg, s, e).fs && AdvanceRestore(cfg, s, e).fs[p] == s.fs[p]
  {
    var o := s.task.row.original;
    MakeParentsDoes(cfg, s, e);
    if o != [] && e.Proceed? && MakeDirs(s.fs, Parent(o), e.supply.ino).Made? {
      MakeDirsOnlyAdds(s.fs, Parent(o), e.supply.ino, []);
    }
  }

  lemma {:induction false} RestoreKeepsObjects(cfg: Config, s: State, e: Event) returns (where: map<Path, Path>)
    requires Inv(cfg, s) && s.task.RestoringAction? && Works(e)
    ensures KeepsAll(s.fs, AdvanceRestore(cfg, s, e).fs, where) && OneMove(s.fs, where)
  {
    if s.task.restore.RenameBack? {
      where := RenameBackKeepsObjects(cfg, s, e);
    } else {
      if s.task.restore.MakeParents? { MakeParentsKeepsObjects(cfg, s, e); }
      StaysPut(s.fs, AdvanceRestore(cfg, s, e).fs);
      where := Stay(s.fs);
    }
  }

  /** Conservation: no step of tidyfs, in any reachable state, removes or overwrites an object, unless a
      manifest is written over a different one. */
  lemma {:induction false} StepKeepsObjects(cfg: Config, s: State, e: Event) returns (where: map<Path, Path>)
    requires Inv(cfg, s) && !e.Outside? && OverwritesNothing(cfg, s, e)
    ensures KeepsAll(s.fs, Advance(cfg, s, e).fs, where) && OneMove(s.fs, where)
  {
    if Works(e) && s.task.Cleaning? {
      where := CleanKeepsObjects(cfg, s, e);
    } else if Works(e) && s.task.RestoringAction? {
      where := RestoreKeepsObjects(cfg, s, e);
    } else {
      StaysPut(s.fs, Advance(cfg, s, e).fs);
      where := Stay(s.fs);
    }
  }

  // No manifest of an earlier table

  /** No manifest waits at the place of an action still to come, or of one whose manifest is not written yet. */
  ghost predicate ManifestsFree(cfg: Config, s: State) {
    && (forall j: nat | j >= s.nextId :: ManifestPath(cfg, j) !in s.fs)
    && (s.task.Cleaning? && BeforeManifest(s.task.clean) ==> ManifestPath(cfg, s.task.id) !in s.fs)
  }

  predicate BeforeManifest(step: CleanStep) {
    step.SetIntent? || step.MakeActionDir? || step.WriteManifest?
  }

  lemma {:induction false} OthersKeepManifests(cfg: Config, fs: Fs, fs': Fs, id: nat, first: nat)
    requires OthersKept(cfg, fs, fs', id) && id < first && forall j: nat | j >= first :: ManifestPath(cfg, j) !in fs
    ensures forall j: nat | j >= first :: ManifestPath(cfg, j) !in fs'
  {
    forall j: nat | j >= first ensures ManifestPath(cfg, j) !in fs' {
      KeptPayload(cfg, fs, fs', j);
    }
  }

  lemma {:induction false} DirectoryKeepsManifests(cfg: Config, s: State, e: Event)
    requires Inv(cfg, s) && ManifestsFree(cfg, s) && s.task.Cleaning? && s.task.clean.MakeActionDir? && Works(e)
    ensures ManifestsFree(cfg, AdvanceClean(cfg, s, e))
  {
    var s', id := AdvanceClean(cfg, s, e), s.task.id;
    if s'.fs != s.fs {
      DirsKeepOthers(cfg, s.fs, ActionDir(cfg, id), e.supply.ino, id);
      OthersKeepManifests(cfg, s.fs, s'.fs, id, s.nextId);
      assert ManifestPath(cfg, id) <= ManifestPath(cfg, id);
    }
  }

  lemma {:induction false} WriteKeepsManifests(cfg: Config, s: State, e: Event)
    requires Inv(cfg, s) && ManifestsFree(cfg, s) && s.task.Cleaning? && s.task.clean.WriteManifest? && Works(e)
    ensures ManifestsFree(cfg, AdvanceClean(cfg, s, e))
  {
    var s', id := AdvanceClean(cfg, s, e), s.task.id;
    if s'.fs != s.fs {
      ManifestKeepsOthers(cfg, s.fs, id, WrittenNode(s.fs, ManifestPath(cfg, id), e.supply));
      OthersKeepManifests(cfg, s.fs, s'.fs, id, s.nextId);
    }
  }

  lemma {:induction false} RenameKeepsManifests(cfg: Config, s: State, e: Event)
    requires Inv(cfg, s) && ManifestsFree(cfg, s) && s.task.Cleaning? && s.task.clean.RenameIn? && Works(e)
    ensures ManifestsFree(cfg, AdvanceClean(cfg, s, e))
  {
    var s', id, src := AdvanceClean(cfg, s, e), s.task.id, s.task.candidate.path;
    RenameInDoes(cfg, s, e);
    if s'.fs != s.fs {
      MoveKeepsOthers(cfg, s.fs, s'.fs, src, PayloadPath(cfg, id), id, src);
      OthersKeepManifests(cfg, s.fs, s'.fs, id, s.nextId);
    }
  }

  lemma {:induction false} PlainStepKeepsManifests(cfg: Config, s: State, e: Event)
    requires ManifestsFree(cfg, s) && s.task.Cleaning? && Works(e)
    requires !s.task.clean.MakeActionDir? && !s.task.clean.WriteManifest? && !s.task.clean.RenameIn?
    ensures ManifestsFree(cfg, AdvanceClean(cfg, s, e))
  {
  }

  lemma {:induction false} CleanKeepsManifestsFree(cfg: Config, s: State, e: Event)
    requires Inv(cfg, s) && ManifestsFree(cfg, s) && s.task.Cleaning? && Works(e)
    ensures ManifestsFree(cfg, AdvanceClean(cfg, s, e))
  {
    match s.task.clean
    case MakeActionDir => DirectoryKeepsManifests(cfg, s, e);
    case WriteManifest => WriteKeepsManifests(cfg, s, e);
    case RenameIn => RenameKeepsManifests(cfg, s, e);
    case _ => PlainStepKeepsManifests(cfg, s, e);
  }

  lemma {:induction false} ParentsKeepManifests(cfg: Config, s: State, e: Event)
    requires Inv(cfg, s) && ManifestsFree(cfg, s) && s.task.RestoringAction? && s.task.restore.MakeParents? && Works(e)
    ensures ManifestsFree(cfg, AdvanceRestore(cfg, s, e))
  {
    var s', id, o := AdvanceRestore(cfg, s, e), s.task.id, s.task.row.original;
    MakeParentsDoes(cfg, s, e);
    if s'.fs != s.fs {
      assert RowOk(cfg, s.fs, id, s.rows[id]) && Parent(o) <= o;
      DirsKeepOthers(cfg, s.fs, Parent(o), e.supply.ino, id);
      OthersKeepManifests(cfg, s.fs, s'.fs, id, s.nextId);
    }
  }

  lemma {:induction false} RenameBackKeepsManifests(cfg: Config, s: State, e: Event)
    requires Inv(cfg, s) && ManifestsFree(cfg, s) && s.task.RestoringAction? && s.task.restore.RenameBack? && Works(e)
    ensures ManifestsFree(cfg, AdvanceRestore(cfg, s, e))
  {
    var s', id, o := AdvanceRestore(cfg, s, e), s.task.id, s.task.row.original;
    RenameBackDoes(cfg, s, e);
    if s'.fs != s.fs {
      assert RowOk(cfg, s.fs, id, s.rows[id]);
      MoveKeepsOthers(cfg, s.fs, s'.fs, PayloadPath(cfg, id), o, id, o);
      OthersKeepManifests(cfg, s.fs, s'.fs, id, s.nextId);
    }
  }

  lemma {:induction false} PlainRestoreKeepsManifests(cfg: Config, s: State, e: Event)
    requires ManifestsFree(cfg, s) && s.task.RestoringAction? && Works(e)
    requires !s.task.restore.MakeParents? && !s.task.restore.RenameBack?
    ensures ManifestsFree(cfg, AdvanceRestore(cfg, s, e))
  {
  }

  lemma {:induction false} RestoreKeepsManifestsFree(cfg: Config, s: State, e: Event)
    requires Inv(cfg, s) && ManifestsFree(cfg, s) && s.task.RestoringAction? && Works(e)
    ensures ManifestsFree(cfg, AdvanceRestore(cfg, s, e))
  {
    match s.task.restore
    case MakeParents => ParentsKeepManifests(cfg, s, e);
    case RenameBack => RenameBackKeepsManifests(cfg, s, e);
    case _ => PlainRestoreKeepsManifests(cfg, s, e);
  }

  lemma {:induction false} RecoverKeepsManifests(cfg: Config, s: State, e: Event)
    requires ManifestsFree(cfg, s) && s.task.Reconciling?
    ensures ManifestsFree(cfg, AdvanceRecover(cfg, s, e))
  {
  }

  lemma {:induction false} StepKeepsManifestsFree(cfg: Config, s: State, e: Event)
    requires Inv(cfg, s) && ManifestsFree(cfg, s) && !e.Outside?
    ensures ManifestsFree(cfg, Advance(cfg, s, e))
  {
    if Works(e) && s.task.Cleaning? {
      CleanKeepsManifestsFree(cfg, s, e);
    } else if Works(e) && s.task.RestoringAction? {
      RestoreKeepsManifestsFree(cfg, s, e);
    } else if Works(e) && s.task.Reconciling? {
      RecoverKeepsManifests(cfg, s, e);
    }
  }
}
