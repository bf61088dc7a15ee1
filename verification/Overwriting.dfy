/** H1, exactly: when the writes of a clean lose something that was there before.  One table over its own
    quarantine always finds the places of its next actions free; a second or reset table, which counts from
    the first id again over the same quarantine root, may not. */
module Overwriting {
  import opened Base
  import opened FileSystem
  import opened Protocol
  import opened Safety
  import opened Cleaning
  import H = History

  /** Every entry can be found again somewhere, with its node. */
  ghost predicate NothingLost(fs: Fs, fs': Fs) {
    exists where :: KeepsAll(fs, fs', where)
  }

  lemma {:induction false} InjectionBound(m: map<Path, Path>, target: set<Path>)
    requires forall p | p in m :: m[p] in target
    requires forall p, q | p in m && q in m && m[p] == m[q] :: p == q
    ensures |m.Keys| <= |target|
    decreases |m.Keys|
  {
    if m.Keys != {} {
      var p :| p in m.Keys;
      var rest := m - {p};
      assert rest.Keys == m.Keys - {p};
      InjectionBound(rest, target - {m[p]});
    }
  }

  function Holders(fs: Fs, n: Node): set<Path> {
    set p | p in fs && fs[p] == n
  }

  /** Every place that holds `n` afterwards comes from one of its own that held it before, and not from `x`. */
  ghost predicate ComesFromElsewhere(fs: Fs, fs': Fs, n: Node, x: Path, back: map<Path, Path>) {
    && (forall q | q in Holders(fs', n) :: q in back && back[q] in Holders(fs, n) && back[q] != x)
    && (forall p, q | p in Holders(fs', n) && q in Holders(fs', n) && back[p] == back[q] :: p == q)
  }

  lemma {:induction false} HoldersBound(fs: Fs, fs': Fs, n: Node, x: Path, back: map<Path, Path>)
    requires ComesFromElsewhere(fs, fs', n, x, back) && x in Holders(fs, n)
    ensures |Holders(fs', n)| < |Holders(fs, n)|
  {
    var restricted := map q | q in Holders(fs', n) && q in back :: back[q];
    InjectionBound(restricted, Holders(fs, n) - {x});
    assert restricted.Keys == Holders(fs', n);
  }

  lemma {:induction false} KeepingNeedsHolders(fs: Fs, fs': Fs, n: Node, where: map<Path, Path>)
    requires KeepsAll(fs, fs', where)
    ensures |Holders(fs, n)| <= |Holders(fs', n)|
  {
    var restricted := map p | p in Holders(fs, n) && p in where :: where[p];
    InjectionBound(restricted, Holders(fs', n));
    assert restricted.Keys == Holders(fs, n);
  }

  /** Then one copy of `fs[x]` is lost. */
  lemma {:induction false} LosesNode(fs: Fs, fs': Fs, x: Path, back: map<Path, Path>)
    requires x in fs && ComesFromElsewhere(fs, fs', fs[x], x, back)
    ensures !NothingLost(fs, fs')
  {
    HoldersBound(fs, fs', fs[x], x, back);
    if where :| KeepsAll(fs, fs', where) {
      KeepingNeedsHolders(fs, fs', fs[x], where);
    }
  }

  // One statement at a time

  lemma {:induction false} CreateKeepsObjectsIff(fs: Fs, p: Path, node: Node)
    ensures NothingLost(fs, Create(fs, p, node)) <==> p !in fs || fs[p] == node
  {
    if p !in fs || fs[p] == node {
      assert KeepsAll(fs, Create(fs, p, node), H.Stay(fs));
    } else {
      LosesNode(fs, Create(fs, p, node), p, map q | q in fs :: q);
    }
  }

  /** The write of the manifest keeps every object if and only if no different file was in its place. */
  lemma {:induction false} WriteManifestKeepsObjectsIff(cfg: Config, s: State, e: Event)
    requires s.task.Cleaning? && s.task.clean.WriteManifest? && (e.Proceed? || e.Partial?)
    requires IsDir(s.fs, ActionDir(cfg, s.task.id)) && !IsDir(s.fs, ManifestPath(cfg, s.task.id))
    ensures var m := ManifestPath(cfg, s.task.id);
            NothingLost(s.fs, AdvanceClean(cfg, s, e).fs) <==>
            (m in s.fs ==> s.fs[m] == WrittenNode(s.fs, m, e.supply))
  {
    var m := ManifestPath(cfg, s.task.id);
    WriteCreates(cfg, s, e);
    CreateKeepsObjectsIff(s.fs, m, WrittenNode(s.fs, m, e.supply));
  }

  lemma {:induction false} WriteCreates(cfg: Config, s: State, e: Event)
    requires s.task.Cleaning? && s.task.clean.WriteManifest? && (e.Proceed? || e.Partial?)
    requires IsDir(s.fs, ActionDir(cfg, s.task.id)) && !IsDir(s.fs, ManifestPath(cfg, s.task.id))
    ensures var m := ManifestPath(cfg, s.task.id);
            AdvanceClean(cfg, s, e).fs == Create(s.fs, m, WrittenNode(s.fs, m, e.supply))
  {
  }

  /** Where a move brought each entry from. */
  function BackMap(fs': Fs, src: Path, dst: Path): map<Path, Path> {
    map q | q in fs' :: Source(src, dst, q)
  }

  lemma {:induction false} BackIsInjective(fs: Fs, fs': Fs, src: Path, dst: Path)
    requires Moved(fs, fs', src, dst) && !Overlap(src, dst)
    ensures forall q | q in fs' :: Source(src, dst, q) in fs && !(dst <= Source(src, dst, q))
    ensures forall p, q | p in fs' && q in fs' && Source(src, dst, p) == Source(src, dst, q) :: p == q
  {
    forall q | q in fs' ensures !(dst <= Source(src, dst, q)) {
      if dst <= q {
        var o := Source(src, dst, q);
        assert src <= o;
        if dst <= o { PrefixesOverlap(src, dst, o); }
      }
    }
    forall p, q | p in fs' && q in fs' && Source(src, dst, p) == Source(src, dst, q) ensures p == q {
      var o := Source(src, dst, p);
      if dst <= p { SplitAt(dst, p); assert src <= o && o[|src|..] == p[|dst|..]; }
      if dst <= q { SplitAt(dst, q); assert src <= o && o[|src|..] == q[|dst|..]; }
    }
  }

  lemma {:induction false} MoveKeepsObjectsIff(fs: Fs, fs': Fs, src: Path, dst: Path)
    requires WellFormed(fs) && Moved(fs, fs', src, dst) && !Overlap(src, dst)
    ensures NothingLost(fs, fs') <==> dst !in fs
  {
    if dst !in fs {
      MovedKeepsAll(fs, fs', src, dst);
    } else {
      BackIsInjective(fs, fs', src, dst);
      assert dst <= dst;
      LosesNode(fs, fs', dst, BackMap(fs', src, dst));
    }
  }

  /** The quarantine rename keeps every object if and only if its payload path was free. */
  lemma {:induction false} RenameInKeepsObjectsIff(cfg: Config, s: State, e: Event)
    requires WellFormed(s.fs) && s.task.Cleaning? && s.task.clean.RenameIn? && e.Proceed?
    requires Rename(s.fs, s.task.candidate.path, PayloadPath(cfg, s.task.id)).Some?
    ensures NothingLost(s.fs, AdvanceClean(cfg, s, e).fs) <==> PayloadPath(cfg, s.task.id) !in s.fs
  {
    var src, dst := s.task.candidate.path, PayloadPath(cfg, s.task.id);
    var fs' := Rename(s.fs, src, dst).value;
    RenameInDoes(cfg, s, e);
    RenamedIsMoved(s.fs, fs', src, dst);
    MoveKeepsObjectsIff(s.fs, fs', src, dst);
  }

  lemma {:induction false} RenamedIsMoved(fs: Fs, fs': Fs, src: Path, dst: Path)
    requires Rename(fs, src, dst) == Some(fs')
    ensures Moved(fs, fs', src, dst) && !Overlap(src, dst)
  {
  }

  // A whole clean: what its files are, exactly

  /** What the statements are given: this manifest text, and inodes that are not in use. */
  ghost predicate Fresh(fs: Fs, data: Bytes, supply: Supply) {
    supply.data == data && forall p | p in fs :: fs[p].ino != supply.ino
  }

  ghost predicate AllFresh(fs: Fs, data: Bytes, events: seq<Event>) {
    forall i | 0 <= i < |events| :: events[i].Proceed? && Fresh(fs, data, events[i].supply)
  }

  /** The action's directory is there; nothing else has been made, nothing is gone. */
  ghost predicate WithDirectory(cfg: Config, before: Fs, fs: Fs, id: nat) {
    && (forall q | q in before :: q in fs && fs[q] == before[q])
    && (forall q | q in fs && q !in before :: q == ActionDir(cfg, id))
  }

  /** And so is the manifest. */
  ghost predicate WithManifest(cfg: Config, before: Fs, fs: Fs, id: nat, data: Bytes) {
    var m := ManifestPath(cfg, id);
    && WellFormed(fs)
    && (forall q | q in before && q != m :: q in fs && fs[q] == before[q])
    && (forall q | q in fs && q !in before :: q == m || q == ActionDir(cfg, id))
    && m in fs && fs[m].kind == File(data)
    && (if m in before then fs[m].ino == before[m].ino else forall p | p in before :: before[p].ino != fs[m].ino)
  }

  ghost predicate WithPayload(cfg: Config, before: Fs, fs: Fs, src: Path, id: nat, data: Bytes) {
    exists mid :: WithManifest(cfg, before, mid, id, data) && Moved(mid, fs, src, PayloadPath(cfg, id))
  }

  ghost predicate FilesAre(cfg: Config, before: Fs, c: Candidate, id: nat, data: Bytes, task: Task, fs: Fs) {
    match task
    case Cleaning(_, _, _, step) =>
      if BeforeInsert(step) || step.SetIntent? then fs == before
      else if step.MakeActionDir? || step.WriteManifest? then WithDirectory(cfg, before, fs, id)
      else if step.SetMoving? || step.VerifySource? || step.RenameIn? then WithManifest(cfg, before, fs, id, data)
      else WithPayload(cfg, before, fs, c.path, id, data)
    case _ => WithPayload(cfg, before, fs, c.path, id, data)
  }

  /** The run is on its way, and its files are known. */
  ghost predicate Known(cfg: Config, s: State, c: Candidate, data: Bytes, now: State) {
    Going(cfg, s, c, now) && FilesAre(cfg, s.fs, c, s.nextId, data, now.task, now.fs)
  }

  lemma {:induction false} AtDirectory(cfg: Config, s: State, c: Candidate, data: Bytes, now: State)
    requires Known(cfg, s, c, data, now) && now.task.clean.MakeActionDir?
    ensures now.task.id == s.nextId && WithDirectory(cfg, s.fs, now.fs, s.nextId)
    ensures WellFormed(s.fs) && IsDir(s.fs, cfg.quarantineRoot)
  {
  }

  lemma {:induction false} DirectoryFiles(cfg: Config, before: Fs, c: Candidate, id: nat, data: Bytes, task: Task,
                                               fs: Fs)
    requires task.Cleaning? && (task.clean.MakeActionDir? || task.clean.WriteManifest?)
    requires WithDirectory(cfg, before, fs, id)
    ensures FilesAre(cfg, before, c, id, data, task, fs)
  {
  }

  lemma {:induction false} DirectoryStep(cfg: Config, s: State, c: Candidate, data: Bytes, now: State, e: Event)
    requires Known(cfg, s, c, data, now) && now.task.clean.MakeActionDir? && e.Proceed?
    ensures var next := AdvanceClean(cfg, now, e); FilesAre(cfg, s.fs, c, s.nextId, data, next.task, next.fs)
  {
    AtDirectory(cfg, s, c, data, now);
    MakeStep(cfg, now, e);
    var next := AdvanceClean(cfg, now, e);
    if !IsDir(now.fs, ActionDir(cfg, s.nextId)) {
      NotMadeYet(cfg, s, c, now);
      FreshDirectory(cfg, s.fs, s.nextId, e.supply.ino);
    }
    DirectoryFiles(cfg, s.fs, c, s.nextId, data, next.task, next.fs);
  }

  lemma {:induction false} WrittenIsManifest(cfg: Config, before: Fs, fs: Fs, id: nat, data: Bytes, supply: Supply)
    requires WellFormed(before) && WithDirectory(cfg, before, fs, id) && Fresh(before, data, supply)
    requires WellFormed(fs) && IsDir(fs, ActionDir(cfg, id)) && !IsDir(fs, ManifestPath(cfg, id))
    ensures var m := ManifestPath(cfg, id);
            WithManifest(cfg, before, Create(fs, m, WrittenNode(fs, m, supply)), id, data)
  {
    var m := ManifestPath(cfg, id);
    assert Parent(m) == ActionDir(cfg, id) && m != ActionDir(cfg, id);
    CreateKeeps(fs, m, WrittenNode(fs, m, supply), m);
  }

  lemma {:induction false} ManifestFilesStep(cfg: Config, s: State, c: Candidate, data: Bytes, now: State, e: Event)
    requires Known(cfg, s, c, data, now) && now.task.clean.WriteManifest? && e.Proceed? && Fresh(s.fs, data, e.supply)
    ensures var next := AdvanceClean(cfg, now, e); FilesAre(cfg, s.fs, c, s.nextId, data, next.task, next.fs)
  {
    ManifestStep(cfg, now, e);
    WrittenIsManifest(cfg, s.fs, now.fs, s.nextId, data, e.supply);
  }

  lemma {:induction false} AtRename(cfg: Config, s: State, c: Candidate, data: Bytes, now: State)
    requires Known(cfg, s, c, data, now) && now.task.clean.RenameIn?
    ensures now.task.candidate == c && now.task.id == s.nextId
    ensures Readied(cfg, s.fs, now.fs, s.nextId) && WithManifest(cfg, s.fs, now.fs, s.nextId, data)
    ensures Clear(cfg, c, s.nextId) && HoldsScanned(s.fs, c, c.path)
    ensures Replaceable(s.fs, c.path, PayloadPath(cfg, s.nextId))
  {
  }

  lemma {:induction false} RenamedFiles(cfg: Config, before: Fs, c: Candidate, id: nat, data: Bytes, now: State,
                                             fs': Fs)
    requires WithManifest(cfg, before, now.fs, id, data) && Moved(now.fs, fs', c.path, PayloadPath(cfg, id))
    requires now.task.Cleaning?
    ensures FilesAre(cfg, before, c, id, data, now.task.(clean := VerifyPayload), fs')
  {
  }

  lemma {:induction false} RenameFilesStep(cfg: Config, s: State, c: Candidate, data: Bytes, now: State, e: Event)
    requires Known(cfg, s, c, data, now) && now.task.clean.RenameIn? && e.Proceed?
    ensures var next := AdvanceClean(cfg, now, e); FilesAre(cfg, s.fs, c, s.nextId, data, next.task, next.fs)
  {
    AtRename(cfg, s, c, data, now);
    var fs' := RenameTakesOut(cfg, s.fs, now.fs, c, s.nextId);
    RenameStep(cfg, now, e, fs');
    RenamedIsMoved(now.fs, fs', c.path, PayloadPath(cfg, s.nextId));
    RenamedFiles(cfg, s.fs, c, s.nextId, data, now, fs');
  }

  lemma {:induction false} PlainFilesStep(cfg: Config, s: State, c: Candidate, data: Bytes, now: State, e: Event)
    requires Known(cfg, s, c, data, now) && e.Proceed?
    requires !now.task.clean.MakeActionDir? && !now.task.clean.WriteManifest? && !now.task.clean.RenameIn?
    ensures var next := AdvanceClean(cfg, now, e); FilesAre(cfg, s.fs, c, s.nextId, data, next.task, next.fs)
  {
    var next := AdvanceClean(cfg, now, e);
    StepStaysOnTrack(cfg, s, c, now, e);
    assert Advance(cfg, now, e) == next;
    StepLeadsOn(cfg, now, e);
    OnTrackGoesWell(cfg, s, c, next);
    FilesStay(cfg, now, e);
    FilesMeanTheSame(cfg, s.fs, c, s.nextId, data, now.task, next.task, now.fs);
  }

  lemma {:induction false} FilesStay(cfg: Config, now: State, e: Event)
    requires now.task.Cleaning?
    requires !now.task.clean.MakeActionDir? && !now.task.clean.WriteManifest? && !now.task.clean.RenameIn?
    ensures AdvanceClean(cfg, now, e).fs == now.fs
  {
  }

  lemma {:induction false} FilesMeanTheSame(cfg: Config, before: Fs, c: Candidate, id: nat, data: Bytes, task: Task,
                                            task': Task, fs: Fs)
    requires FilesAre(cfg, before, c, id, data, task, fs) && task.Cleaning?
    requires !task.clean.MakeActionDir? && !task.clean.WriteManifest? && !task.clean.RenameIn?
    requires (task'.Resting? && task.clean.SetQuarantined?) ||
             (task'.Cleaning? && Next(task.clean) == Some(task'.clean))
    ensures FilesAre(cfg, before, c, id, data, task', fs)
  {
  }

  lemma {:induction false} FilesStep(cfg: Config, s: State, c: Candidate, data: Bytes, now: State, e: Event)
    requires Known(cfg, s, c, data, now) && e.Proceed? && Fresh(s.fs, data, e.supply)
    ensures var next := Advance(cfg, now, e); FilesAre(cfg, s.fs, c, s.nextId, data, next.task, next.fs)
  {
    assert Advance(cfg, now, e) == AdvanceClean(cfg, now, e);
    if now.task.clean.MakeActionDir? {
      DirectoryStep(cfg, s, c, data, now, e);
    } else if now.task.clean.WriteManifest? {
      ManifestFilesStep(cfg, s, c, data, now, e);
    } else if now.task.clean.RenameIn? {
      RenameFilesStep(cfg, s, c, data, now, e);
    } else {
      PlainFilesStep(cfg, s, c, data, now, e);
    }
  }

  lemma {:induction false} RunFilesAre(cfg: Config, s: State, c: Candidate, data: Bytes, events: seq<Event>)
    requires Fit(cfg, s, c) && AllFresh(s.fs, data, events)
    ensures var now := Run(cfg, StartClean(s, c), events);
            FilesAre(cfg, s.fs, c, s.nextId, data, now.task, now.fs)
  {
    if events != [] {
      var n := |events| - 1;
      RunFilesAre(cfg, s, c, data, events[..n]);
      RunStaysOnTrack(cfg, s, c, events[..n]);
      var now := Run(cfg, StartClean(s, c), events[..n]);
      OnTrackGoesWell(cfg, s, c, now);
      if now.task.Cleaning? { FilesStep(cfg, s, c, data, now, events[n]); }
    }
  }

  // A whole clean: what it loses

  /** The guard a caller could check before a clean: nothing is at its payload path, and nothing but this very
      text at its manifest path. */
  predicate PlacesFree(cfg: Config, fs: Fs, id: nat, data: Bytes) {
    && PayloadPath(cfg, id) !in fs
    && (ManifestPath(cfg, id) in fs ==> fs[ManifestPath(cfg, id)].kind == File(data))
  }

  lemma {:induction false} OtherNames(cfg: Config, id: nat)
    ensures var d, m, p := ActionDir(cfg, id), ManifestPath(cfg, id), PayloadPath(cfg, id);
            m != d && m != p && p != d && Parent(m) == d && Parent(p) == d && m != [] && p != []
  {
    var d, m, p := ActionDir(cfg, id), ManifestPath(cfg, id), PayloadPath(cfg, id);
    assert m[|d|] != p[|d|];
  }

  lemma {:induction false} FreePlacesLoseNothing(cfg: Config, before: Fs, mid: Fs, after: Fs, src: Path, id: nat,
                                                 data: Bytes)
    requires WithManifest(cfg, before, mid, id, data) && Moved(mid, after, src, PayloadPath(cfg, id))
    requires !Overlap(src, PayloadPath(cfg, id)) && PlacesFree(cfg, before, id, data)
    ensures NothingLost(before, after)
  {
    OtherNames(cfg, id);
    var m, dst := ManifestPath(cfg, id), PayloadPath(cfg, id);
    assert m in before ==> mid[m] == before[m];
    assert KeepsAll(before, mid, H.Stay(before));
    MovedKeepsAll(mid, after, src, dst);
    KeepsAllTransitive(before, mid, after, H.Stay(before), MoveMap(mid, src, dst));
  }

  /** The copy of `x` is lost at the latest by the move: the manifest has taken its place, or the payload. */
  lemma {:induction false} TakenPlaceIsLost(cfg: Config, before: Fs, mid: Fs, after: Fs, src: Path, id: nat,
                                            data: Bytes, x: Path)
    requires WellFormed(before) && WithManifest(cfg, before, mid, id, data)
    requires Moved(mid, after, src, PayloadPath(cfg, id)) && !Overlap(src, PayloadPath(cfg, id))
    requires x in before && (x == ManifestPath(cfg, id) || x == PayloadPath(cfg, id))
    requires if x == ManifestPath(cfg, id) then before[x].kind != File(data)
             else ManifestPath(cfg, id) in before ==> before[ManifestPath(cfg, id)].kind == File(data)
    ensures !NothingLost(before, after)
  {
    OtherNames(cfg, id);
    var m, dst, n := ManifestPath(cfg, id), PayloadPath(cfg, id), before[x];
    assert IsDir(before, ActionDir(cfg, id));
    BackIsInjective(mid, after, src, dst);
    var back := BackMap(after, src, dst);
    forall q | q in Holders(after, n) ensures back[q] in Holders(before, n) && back[q] != x {
      var p := back[q];
      assert mid[p] == n && dst <= dst;
    }
    LosesNode(before, after, x, back);
  }

  /** H1 exactly, from the start of a clean to its end: a candidate that nothing else keeps from being
      quarantined is quarantined, and everything that was there before can be found again if and only if the
      places of the action were free.  No check of clean looks at them. */
  lemma {:induction false} CleanKeepsObjectsIff(cfg: Config, s: State, c: Candidate, data: Bytes, events: seq<Event>)
    requires Fit(cfg, s, c) && AllFresh(s.fs, data, events) && |events| >= CleanSteps(cfg, s)
    ensures var s' := Run(cfg, StartClean(s, c), events);
            && s'.task == Resting(Succeeded)
            && (NothingLost(s.fs, s'.fs) <==> PlacesFree(cfg, s.fs, s.nextId, data))
  {
    var s' := Run(cfg, StartClean(s, c), events);
    var m, dst := ManifestPath(cfg, s.nextId), PayloadPath(cfg, s.nextId);
    CleanSucceeds(cfg, s, c, events);
    RunFilesAre(cfg, s, c, data, events);
    SourceIsApart(cfg, c, s.nextId, c.path);
    var mid :| WithManifest(cfg, s.fs, mid, s.nextId, data) && Moved(mid, s'.fs, c.path, dst);
    if PlacesFree(cfg, s.fs, s.nextId, data) {
      FreePlacesLoseNothing(cfg, s.fs, mid, s'.fs, c.path, s.nextId, data);
    } else if m in s.fs && s.fs[m].kind != File(data) {
      TakenPlaceIsLost(cfg, s.fs, mid, s'.fs, c.path, s.nextId, data, m);
    } else {
      TakenPlaceIsLost(cfg, s.fs, mid, s'.fs, c.path, s.nextId, data, dst);
    }
  }
}
