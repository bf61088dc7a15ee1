/** One undisturbed clean: what every statement finds and does, that it ends after a fixed number of
    statements, and what it leaves. */
module Cleaning {
  import opened Base
  import opened FileSystem
  import opened Protocol
  import opened Safety

  /** The store before an action: the quarantine root is there, and the directory of every action still to
      come is not (H1 for the actions of this batch). */
  ghost predicate Prepared(cfg: Config, s: State) {
    && WellFormed(s.fs) && IsDir(s.fs, cfg.quarantineRoot)
    && forall j: nat | j >= s.nextId :: ActionDir(cfg, j) !in s.fs
  }

  /** A candidate that passes every check: executable, still the scanned object, on the file system of the
      quarantine. */
  predicate Passing(cfg: Config, fs: Fs, c: Candidate) {
    && Executable(cfg, c) && HoldsScanned(fs, c, c.path)
    && cfg.quarantineRoot in fs && fs[c.path].ino.dev == fs[cfg.quarantineRoot].ino.dev
  }

  /** It is apart from the directory of the action to come. */
  predicate Clear(cfg: Config, c: Candidate, id: nat) {
    !Overlap(c.path, ActionDir(cfg, id))
  }

  /** The place of the action to come can be used: its directory is there or can be made, its manifest can be
      written, and nothing at its payload path keeps the rename from succeeding. */
  ghost predicate Usable(cfg: Config, s: State, c: Candidate) {
    && WellFormed(s.fs) && IsDir(s.fs, cfg.quarantineRoot)
    && (ActionDir(cfg, s.nextId) in s.fs ==> IsDir(s.fs, ActionDir(cfg, s.nextId)))
    && !IsDir(s.fs, ManifestPath(cfg, s.nextId))
    && Replaceable(s.fs, c.path, PayloadPath(cfg, s.nextId))
  }

  /** A rename onto `dst` would go through. */
  ghost predicate Replaceable(fs: Fs, src: Path, dst: Path) {
    dst in fs ==> IsDir(fs, src) == IsDir(fs, dst) && forall q | q in fs && dst <= q :: q == dst
  }

  /** Nothing keeps the clean of `c` from succeeding. */
  ghost predicate Fit(cfg: Config, s: State, c: Candidate) {
    Usable(cfg, s, c) && Passing(cfg, s.fs, c) && Clear(cfg, c, s.nextId)
  }

  lemma {:induction false} PreparedIsFit(cfg: Config, s: State, c: Candidate)
    requires Prepared(cfg, s) && Passing(cfg, s.fs, c) && Clear(cfg, c, s.nextId)
    ensures Fit(cfg, s, c) && CleanSteps(cfg, s) == CLEAN_STEPS
  {
    AbsentBelowAbsent(s.fs, ActionDir(cfg, s.nextId), PayloadPath(cfg, s.nextId));
    AbsentBelowAbsent(s.fs, ActionDir(cfg, s.nextId), ManifestPath(cfg, s.nextId));
  }

  predicate AllProceed(events: seq<Event>) {
    forall i | 0 <= i < |events| :: events[i].Proceed?
  }

  // What cleaning one candidate does

  /** The same everywhere but at or below `p`. */
  ghost predicate SameExcept(fs: Fs, fs': Fs, p: Path) {
    forall q | !(p <= q) :: (q in fs <==> q in fs') && (q in fs ==> fs'[q] == fs[q])
  }

  /** Everywhere but in the action's own directory, the file system is as before without the source; the
      payload is in quarantine. */
  ghost predicate TakenOut(cfg: Config, fs: Fs, fs': Fs, src: Path, id: nat) {
    && (forall q | !(ActionDir(cfg, id) <= q) ::
          (q in fs' <==> q in fs && !(src <= q)) && (q in fs' ==> fs'[q] == fs[q]))
    && PayloadPath(cfg, id) in fs' && TreeAt(fs', PayloadPath(cfg, id)) == TreeAt(fs, src)
  }

  function CleanedRow(cfg: Config, fs: Fs, c: Candidate, id: nat, status: Status): Row {
    NewRow(c, cfg.fingerprint(TreeAt(fs, c.path))).(quarantine := Some(PayloadPath(cfg, id)), status := status)
  }

  /** The state after `c` has been quarantined from `s`. */
  ghost predicate Cleaned(cfg: Config, s: State, c: Candidate, s': State) {
    && WellFormed(s'.fs) && TakenOut(cfg, s.fs, s'.fs, c.path, s.nextId)
    && s'.rows == s.rows[s.nextId := CleanedRow(cfg, s.fs, c, s.nextId, Quarantined)]
    && s'.nextId == s.nextId + 1
  }

  /** The run is on its way: what each step finds. */
  ghost predicate OnTrack(cfg: Config, s: State, c: Candidate, now: State) {
    match now.task
    case Resting(o) => o == Succeeded && Cleaned(cfg, s, c, now)
    case Cleaning(d, digest, id, step) =>
      && d == c
      && if BeforeInsert(step) then
           && now.fs == s.fs && now.rows == s.rows && now.nextId == s.nextId
           && (step.VerifyAgain? || step.Insert? ==> digest == cfg.fingerprint(TreeAt(s.fs, c.path)))
         else
           && id == s.nextId && now.nextId == id + 1 && digest == cfg.fingerprint(TreeAt(s.fs, c.path))
           && RowSoFar(cfg, s, c, step, now.rows)
           && FilesSoFar(cfg, s.fs, c, id, step, now.fs)
    case _ => false
  }

  ghost predicate RowSoFar(cfg: Config, s: State, c: Candidate, step: CleanStep, rows: Table) {
    var digest := cfg.fingerprint(TreeAt(s.fs, c.path));
    rows == s.rows[s.nextId :=
      if step.SetIntent? then NewRow(c, digest)
      else CleanedRow(cfg, s.fs, c, s.nextId,
                      if step.MakeActionDir? || step.WriteManifest? || step.SetMoving? then Planned else Moving)]
  }

  /** The action's directory is there, with what it had at the payload path; nothing else has changed. */
  ghost predicate Readied(cfg: Config, before: Fs, fs: Fs, id: nat) {
    && WellFormed(fs) && SameExcept(before, fs, ActionDir(cfg, id))
    && IsDir(fs, ActionDir(cfg, id)) && SameBelow(before, fs, PayloadPath(cfg, id))
  }

  ghost predicate FilesSoFar(cfg: Config, before: Fs, c: Candidate, id: nat, step: CleanStep, fs: Fs) {
    match step
    case SetIntent => fs == before
    case MakeActionDir => fs == before || (Readied(cfg, before, fs, id) && !IsDir(fs, ManifestPath(cfg, id)))
    case WriteManifest => Readied(cfg, before, fs, id) && !IsDir(fs, ManifestPath(cfg, id))
    case SetMoving | VerifySource | RenameIn => Readied(cfg, before, fs, id)
    case VerifyPayload | FingerprintPayload | SetQuarantined => WellFormed(fs) && TakenOut(cfg, before, fs, c.path, id)
    case _ => false
  }

  lemma {:induction false} SourceIsApart(cfg: Config, c: Candidate, id: nat, q: Path)
    requires Clear(cfg, c, id)
    ensures ActionDir(cfg, id) <= q ==> !(c.path <= q) && !(q <= c.path)
    ensures !Overlap(c.path, PayloadPath(cfg, id))
  {
    assert ActionDir(cfg, id) <= PayloadPath(cfg, id);
    if c.path <= PayloadPath(cfg, id) { PrefixesOverlap(c.path, ActionDir(cfg, id), PayloadPath(cfg, id)); }
    if ActionDir(cfg, id) <= q {
      if c.path <= q { PrefixesOverlap(c.path, ActionDir(cfg, id), q); }
    }
  }

  /** What the source holds does not change while only the action's directory does. */
  lemma {:induction false} SourceStays(cfg: Config, fs: Fs, fs': Fs, c: Candidate, id: nat)
    requires Clear(cfg, c, id) && SameExcept(fs, fs', ActionDir(cfg, id)) &&
             HoldsScanned(fs, c, c.path)
    ensures HoldsScanned(fs', c, c.path) && TreeAt(fs', c.path) == TreeAt(fs, c.path)
  {
    SourceIsApart(cfg, c, id, c.path);
    forall q | c.path <= q ensures (q in fs <==> q in fs') && (q in fs ==> fs[q] == fs'[q]) {
      SourceIsApart(cfg, c, id, q);
    }
    SameTree(fs, fs', c.path);
  }

  // Step by step

  ghost predicate Going(cfg: Config, s: State, c: Candidate, now: State) {
    Fit(cfg, s, c) && OnTrack(cfg, s, c, now) && now.task.Cleaning?
  }

  lemma {:induction false} ChecksPass(cfg: Config, s: State, c: Candidate, now: State, e: Event)
    requires Going(cfg, s, c, now) && BeforeInsert(now.task.clean) && e.Proceed?
    ensures OnTrack(cfg, s, c, AdvanceClean(cfg, now, e))
  {
    assert NearestExisting(s.fs, cfg.quarantineRoot) == cfg.quarantineRoot;
  }

  lemma {:induction false} IntentStep(cfg: Config, now: State, e: Event)
    requires now.task.Cleaning? && now.task.clean.SetIntent? && e.Proceed?
    ensures AdvanceClean(cfg, now, e) ==
              CleanTo(now.(rows := SetIntentPath(now.rows, now.task.id, PayloadPath(cfg, now.task.id))), MakeActionDir)
  {
  }

  lemma {:induction false} IntentBecomes(cfg: Config, s: State, c: Candidate)
    ensures var id := s.nextId;
            SetIntentPath(s.rows[id := NewRow(c, cfg.fingerprint(TreeAt(s.fs, c.path)))], id, PayloadPath(cfg, id))
              == s.rows[id := CleanedRow(cfg, s.fs, c, id, Planned)]
  {
  }

  lemma {:induction false} RowsGetIntent(cfg: Config, s: State, c: Candidate, now: State, e: Event)
    requires Going(cfg, s, c, now) && now.task.clean.SetIntent? && e.Proceed?
    ensures OnTrack(cfg, s, c, AdvanceClean(cfg, now, e))
  {
    IntentStep(cfg, now, e);
    IntentBecomes(cfg, s, c);
  }

  lemma {:induction false} FreshDirectory(cfg: Config, fs: Fs, id: nat, ino: Inode)
    requires WellFormed(fs) && IsDir(fs, cfg.quarantineRoot) && ActionDir(cfg, id) !in fs
    ensures MakeDirs(fs, ActionDir(cfg, id), ino).Made?
    ensures var fs' := MakeDirs(fs, ActionDir(cfg, id), ino).fs;
            Readied(cfg, fs, fs', id) && ManifestPath(cfg, id) !in fs'
    ensures MakeDirs(fs, ActionDir(cfg, id), ino).fs == fs[ActionDir(cfg, id) := Node(ino, Dir)]
  {
    var d := ActionDir(cfg, id);
    assert Parent(d) == cfg.quarantineRoot;
    assert FirstMissing(fs, d) == d && NearestExisting(fs, d) == cfg.quarantineRoot;
    AbsentBelowAbsent(fs, d, PayloadPath(cfg, id));
    AbsentBelowAbsent(fs, d, ManifestPath(cfg, id));
    MakeDirsOnlyAdds(fs, d, ino, PayloadPath(cfg, id));
  }

  /** What the step does, given what the file system answers. */
  lemma {:induction false} MakeStep(cfg: Config, now: State, e: Event)
    requires now.task.Cleaning? && now.task.clean.MakeActionDir? && e.Proceed?
    ensures var p := MakeDirs(now.fs, ActionDir(cfg, now.task.id), e.supply.ino);
            && (p.Ready? ==> AdvanceClean(cfg, now, e) == CleanTo(now, WriteManifest))
            && (p.Made? ==> AdvanceClean(cfg, now, e) == now.(fs := p.fs))
  {
  }

  lemma {:induction false} FoundIsOnTrack(cfg: Config, s: State, c: Candidate, now: State)
    requires Going(cfg, s, c, now) && now.task.clean.MakeActionDir? && IsDir(now.fs, ActionDir(cfg, s.nextId))
    ensures OnTrack(cfg, s, c, CleanTo(now, WriteManifest))
  {
  }

  lemma {:induction false} MadeIsOnTrack(cfg: Config, s: State, c: Candidate, now: State, fs': Fs)
    requires OnTrack(cfg, s, c, now) && now.task.Cleaning? && now.task.clean.MakeActionDir?
    requires Readied(cfg, s.fs, fs', s.nextId) && !IsDir(fs', ManifestPath(cfg, s.nextId))
    ensures OnTrack(cfg, s, c, now.(fs := fs'))
  {
  }

  lemma {:induction false} NotMadeYet(cfg: Config, s: State, c: Candidate, now: State)
    requires Going(cfg, s, c, now) && now.task.clean.MakeActionDir? && !IsDir(now.fs, ActionDir(cfg, s.nextId))
    ensures now.fs == s.fs && ActionDir(cfg, s.nextId) !in s.fs && now.task.id == s.nextId
  {
  }

  lemma {:induction false} DirectoryIsMade(cfg: Config, s: State, c: Candidate, now: State, e: Event)
    requires Going(cfg, s, c, now) && now.task.clean.MakeActionDir? && e.Proceed?
    ensures OnTrack(cfg, s, c, AdvanceClean(cfg, now, e))
  {
    MakeStep(cfg, now, e);
    if IsDir(now.fs, ActionDir(cfg, s.nextId)) {
      FoundIsOnTrack(cfg, s, c, now);
    } else {
      NotMadeYet(cfg, s, c, now);
      FreshDirectory(cfg, s.fs, s.nextId, e.supply.ino);
      MadeIsOnTrack(cfg, s, c, now, MakeDirs(s.fs, ActionDir(cfg, s.nextId), e.supply.ino).fs);
    }
  }

  lemma {:induction false} ManifestFits(cfg: Config, before: Fs, fs: Fs, id: nat, node: Node)
    requires Readied(cfg, before, fs, id) && !IsDir(fs, ManifestPath(cfg, id)) && !node.kind.Dir?
    ensures Readied(cfg, before, Create(fs, ManifestPath(cfg, id), node), id)
  {
    var d, m, payload := ActionDir(cfg, id), ManifestPath(cfg, id), PayloadPath(cfg, id);
    assert Parent(m) == d && d <= m && m != [];
    assert m[|d|] != payload[|d|] && !(payload <= m);
    CreateKeeps(fs, m, node, payload);
    SameBelowTransitive(before, fs, Create(fs, m, node), payload);
  }

  lemma {:induction false} SameBelowTransitive(a: Fs, b: Fs, c: Fs, p: Path)
    requires SameBelow(a, b, p) && SameBelow(b, c, p)
    ensures SameBelow(a, c, p)
  {
  }

  lemma {:induction false} ManifestIsWritten(cfg: Config, s: State, c: Candidate, now: State, e: Event)
    requires Going(cfg, s, c, now) && now.task.clean.WriteManifest? && e.Proceed?
    ensures OnTrack(cfg, s, c, AdvanceClean(cfg, now, e))
  {
    var node := WrittenNode(now.fs, ManifestPath(cfg, s.nextId), e.supply);
    ManifestFits(cfg, s.fs, now.fs, s.nextId, node);
    ManifestStep(cfg, now, e);
    WrittenIsOnTrack(cfg, s, c, now, Create(now.fs, ManifestPath(cfg, s.nextId), node));
  }

  lemma {:induction false} ManifestStep(cfg: Config, now: State, e: Event)
    requires now.task.Cleaning? && now.task.clean.WriteManifest? && e.Proceed?
    requires IsDir(now.fs, ActionDir(cfg, now.task.id)) && !IsDir(now.fs, ManifestPath(cfg, now.task.id))
    ensures var m := ManifestPath(cfg, now.task.id);
            AdvanceClean(cfg, now, e) ==
              CleanTo(now.(fs := Create(now.fs, m, WrittenNode(now.fs, m, e.supply))), SetMoving)
  {
  }

  lemma {:induction false} WrittenIsOnTrack(cfg: Config, s: State, c: Candidate, now: State, fs': Fs)
    requires OnTrack(cfg, s, c, now) && now.task.Cleaning? && now.task.clean.WriteManifest?
    requires Readied(cfg, s.fs, fs', s.nextId)
    ensures OnTrack(cfg, s, c, CleanTo(now.(fs := fs'), SetMoving))
  {
  }

  lemma {:induction false} StatusStep(cfg: Config, now: State, e: Event)
    requires now.task.Cleaning? && e.Proceed?
    ensures now.task.clean.SetMoving? ==>
              AdvanceClean(cfg, now, e) ==
                CleanTo(now.(rows := SetStatus(now.rows, now.task.id, Moving, None)), VerifySource)
    ensures now.task.clean.SetQuarantined? ==>
              AdvanceClean(cfg, now, e) ==
                Finish(now.(rows := SetStatus(now.rows, now.task.id, Quarantined, None)), Succeeded)
  {
  }

  lemma {:induction false} StatusBecomes(cfg: Config, s: State, c: Candidate, status: Status, next: Status)
    ensures var row := CleanedRow(cfg, s.fs, c, s.nextId, status);
            SetStatus(s.rows[s.nextId := row], s.nextId, next, None) ==
              s.rows[s.nextId := CleanedRow(cfg, s.fs, c, s.nextId, next)]
  {
  }

  lemma {:induction false} StatusIsMoving(cfg: Config, s: State, c: Candidate, now: State, e: Event)
    requires Going(cfg, s, c, now) && now.task.clean.SetMoving? && e.Proceed?
    ensures OnTrack(cfg, s, c, AdvanceClean(cfg, now, e))
  {
    StatusStep(cfg, now, e);
    StatusBecomes(cfg, s, c, Planned, Moving);
  }

  lemma {:induction false} SourceIsVerified(cfg: Config, s: State, c: Candidate, now: State, e: Event)
    requires Going(cfg, s, c, now) && now.task.clean.VerifySource? && e.Proceed?
    ensures OnTrack(cfg, s, c, AdvanceClean(cfg, now, e))
  {
    SourceStays(cfg, s.fs, now.fs, c, s.nextId);
    VerifyStep(cfg, now, e);
    VerifiedIsOnTrack(cfg, s, c, now);
  }

  lemma {:induction false} VerifyStep(cfg: Config, now: State, e: Event)
    requires now.task.Cleaning? && now.task.clean.VerifySource? && e.Proceed?
    requires HoldsScanned(now.fs, now.task.candidate, now.task.candidate.path)
    ensures AdvanceClean(cfg, now, e) == CleanTo(now, RenameIn)
  {
  }

  lemma {:induction false} VerifiedIsOnTrack(cfg: Config, s: State, c: Candidate, now: State)
    requires OnTrack(cfg, s, c, now) && now.task.Cleaning? && now.task.clean.VerifySource?
    ensures OnTrack(cfg, s, c, CleanTo(now, RenameIn))
  {
  }

  lemma {:induction false} RenameStep(cfg: Config, now: State, e: Event, fs': Fs)
    requires now.task.Cleaning? && now.task.clean.RenameIn? && e.Proceed?
    requires Rename(now.fs, now.task.candidate.path, PayloadPath(cfg, now.task.id)) == Some(fs')
    ensures AdvanceClean(cfg, now, e) == CleanTo(now.(fs := fs'), VerifyPayload)
  {
  }

  lemma {:induction false} RenameTakesOut(cfg: Config, before: Fs, fs: Fs, c: Candidate, id: nat) returns (fs': Fs)
    requires Clear(cfg, c, id) && HoldsScanned(before, c, c.path) && Readied(cfg, before, fs, id)
    requires Replaceable(before, c.path, PayloadPath(cfg, id))
    ensures Rename(fs, c.path, PayloadPath(cfg, id)) == Some(fs')
    ensures WellFormed(fs') && TakenOut(cfg, before, fs', c.path, id)
  {
    var payload := PayloadPath(cfg, id);
    SourceStays(cfg, before, fs, c, id);
    SourceIsApart(cfg, c, id, payload);
    assert Parent(payload) == ActionDir(cfg, id) && payload != [] && payload <= payload;
    fs' := Move(fs, c.path, payload);
    MoveTakesOut(cfg, before, fs, fs', c, id);
  }

  lemma {:induction false} PayloadIsMoved(cfg: Config, s: State, c: Candidate, now: State, e: Event)
    requires Going(cfg, s, c, now) && now.task.clean.RenameIn? && e.Proceed?
    ensures OnTrack(cfg, s, c, AdvanceClean(cfg, now, e))
  {
    var fs' := RenameTakesOut(cfg, s.fs, now.fs, c, s.nextId);
    RenameStep(cfg, now, e, fs');
    RenamedIsOnTrack(cfg, s, c, now, fs');
  }

  lemma {:induction false} RenamedIsOnTrack(cfg: Config, s: State, c: Candidate, now: State, fs': Fs)
    requires OnTrack(cfg, s, c, now) && now.task.Cleaning? && now.task.clean.RenameIn?
    requires WellFormed(fs') && TakenOut(cfg, s.fs, fs', c.path, s.nextId)
    ensures OnTrack(cfg, s, c, CleanTo(now.(fs := fs'), VerifyPayload))
  {
  }

  lemma {:induction false} MoveTakesOut(cfg: Config, before: Fs, fs: Fs, fs': Fs, c: Candidate, id: nat)
    requires Readied(cfg, before, fs, id) && Moved(fs, fs', c.path, PayloadPath(cfg, id)) &&
             Clear(cfg, c, id)
    requires HoldsScanned(before, c, c.path)
    ensures WellFormed(fs') && TakenOut(cfg, before, fs', c.path, id)
  {
    var payload := PayloadPath(cfg, id);
    SourceStays(cfg, before, fs, c, id);
    SourceIsApart(cfg, c, id, payload);
    assert Parent(payload) == ActionDir(cfg, id);
    MovedWellFormed(fs, fs', c.path, payload);
    MovedTree(fs, fs', c.path, payload);
    forall q | !(ActionDir(cfg, id) <= q)
      ensures (q in fs' <==> q in before && !(c.path <= q)) && (q in fs' ==> fs'[q] == before[q])
    {
      MovedOutside(cfg, before, fs, fs', c.path, id, q);
    }
  }

  lemma {:induction false} MovedOutside(cfg: Config, before: Fs, fs: Fs, fs': Fs, src: Path, id: nat, q: Path)
    requires SameExcept(before, fs, ActionDir(cfg, id)) && Moved(fs, fs', src, PayloadPath(cfg, id)) &&
             !(ActionDir(cfg, id) <= q)
    ensures (q in fs' <==> q in before && !(src <= q)) && (q in fs' ==> fs'[q] == before[q])
  {
    assert !(PayloadPath(cfg, id) <= q);
    assert Source(src, PayloadPath(cfg, id), q) == q;
  }

  lemma {:induction false} PayloadHoldsScanned(cfg: Config, before: Fs, fs: Fs, c: Candidate, id: nat)
    requires TakenOut(cfg, before, fs, c.path, id) && HoldsScanned(before, c, c.path)
    ensures HoldsScanned(fs, c, PayloadPath(cfg, id))
  {
    var payload := PayloadPath(cfg, id);
    TreeAtContents(fs, payload);
    TreeAtContents(before, c.path);
    assert payload + [] == payload && c.path + [] == c.path;
    assert [] in TreeAt(fs, payload) && TreeAt(fs, payload)[[]] == fs[payload];
    assert TreeAt(before, c.path)[[]] == before[c.path];
  }

  lemma {:induction false} CheckStep(cfg: Config, now: State, e: Event)
    requires now.task.Cleaning? && e.Proceed?
    requires var payload := PayloadPath(cfg, now.task.id);
             && HoldsScanned(now.fs, now.task.candidate, payload)
             && cfg.fingerprint(TreeAt(now.fs, payload)) == now.task.digest
    ensures now.task.clean.VerifyPayload? ==> AdvanceClean(cfg, now, e) == CleanTo(now, FingerprintPayload)
    ensures now.task.clean.FingerprintPayload? ==> AdvanceClean(cfg, now, e) == CleanTo(now, SetQuarantined)
  {
  }

  lemma {:induction false} PayloadIsVerified(cfg: Config, s: State, c: Candidate, now: State, e: Event)
    requires Going(cfg, s, c, now) && e.Proceed? && now.task.clean.VerifyPayload?
    ensures OnTrack(cfg, s, c, AdvanceClean(cfg, now, e))
  {
    PayloadHoldsScanned(cfg, s.fs, now.fs, c, s.nextId);
    CheckStep(cfg, now, e);
    CheckedIsOnTrack(cfg, s, c, now, FingerprintPayload);
  }

  lemma {:induction false} PayloadIsFingerprinted(cfg: Config, s: State, c: Candidate, now: State, e: Event)
    requires Going(cfg, s, c, now) && e.Proceed? && now.task.clean.FingerprintPayload?
    ensures OnTrack(cfg, s, c, AdvanceClean(cfg, now, e))
  {
    PayloadHoldsScanned(cfg, s.fs, now.fs, c, s.nextId);
    CheckStep(cfg, now, e);
    CheckedIsOnTrack(cfg, s, c, now, SetQuarantined);
  }

  lemma {:induction false} CheckedIsOnTrack(cfg: Config, s: State, c: Candidate, now: State, next: CleanStep)
    requires OnTrack(cfg, s, c, now) && now.task.Cleaning? &&
             (now.task.clean.VerifyPayload? || now.task.clean.FingerprintPayload?)
    requires next.FingerprintPayload? || next.SetQuarantined?
    ensures OnTrack(cfg, s, c, CleanTo(now, next))
  {
  }

  lemma {:induction false} StatusIsQuarantined(cfg: Config, s: State, c: Candidate, now: State, e: Event)
    requires Going(cfg, s, c, now) && e.Proceed? && now.task.clean.SetQuarantined?
    ensures OnTrack(cfg, s, c, AdvanceClean(cfg, now, e))
  {
    StatusStep(cfg, now, e);
    StatusBecomes(cfg, s, c, Moving, Quarantined);
  }

  lemma {:induction false} StepStaysOnTrack(cfg: Config, s: State, c: Candidate, now: State, e: Event)
    requires Going(cfg, s, c, now) && e.Proceed?
    ensures OnTrack(cfg, s, c, Advance(cfg, now, e))
  {
    assert Advance(cfg, now, e) == AdvanceClean(cfg, now, e);
    var step := now.task.clean;
    if BeforeInsert(step) {
      ChecksPass(cfg, s, c, now, e);
    } else if step.SetIntent? {
      RowsGetIntent(cfg, s, c, now, e);
    } else if step.MakeActionDir? {
      DirectoryIsMade(cfg, s, c, now, e);
    } else if step.WriteManifest? {
      ManifestIsWritten(cfg, s, c, now, e);
    } else if step.SetMoving? {
      StatusIsMoving(cfg, s, c, now, e);
    } else if step.VerifySource? {
      SourceIsVerified(cfg, s, c, now, e);
    } else if step.RenameIn? {
      PayloadIsMoved(cfg, s, c, now, e);
    } else if step.SetQuarantined? {
      StatusIsQuarantined(cfg, s, c, now, e);
    } else if step.VerifyPayload? {
      PayloadIsVerified(cfg, s, c, now, e);
    } else {
      PayloadIsFingerprinted(cfg, s, c, now, e);
    }
  }

  lemma {:induction false} RunStaysOnTrack(cfg: Config, s: State, c: Candidate, events: seq<Event>)
    requires Fit(cfg, s, c) && AllProceed(events)
    ensures OnTrack(cfg, s, c, Run(cfg, StartClean(s, c), events))
  {
    if events != [] {
      var n := |events| - 1;
      RunStaysOnTrack(cfg, s, c, events[..n]);
      var now := Run(cfg, StartClean(s, c), events[..n]);
      if now.task.Cleaning? { StepStaysOnTrack(cfg, s, c, now, events[n]); }
    }
  }

  // How long it takes

  /** The statements of a clean whose quarantine root exists: fourteen steps, of which the one that makes the
      action's directory is repeated when it is not there yet. */
  const CLEAN_STEPS := 15

  predicate DirIsThere(cfg: Config, s: State) {
    IsDir(s.fs, ActionDir(cfg, s.nextId))
  }

  function CleanSteps(cfg: Config, s: State): nat {
    if DirIsThere(cfg, s) then CLEAN_STEPS - 1 else CLEAN_STEPS
  }

  /** How many statements of a clean that began in `s` are left. */
  function StepsLeft(cfg: Config, s: State, fs: Fs, task: Task): nat {
    if !task.Cleaning? then 0
    else
      match task.clean
      case Preflight => CleanSteps(cfg, s)
      case CheckFilesystem => CleanSteps(cfg, s) - 1
      case FingerprintSource => CleanSteps(cfg, s) - 2
      case VerifyAgain => CleanSteps(cfg, s) - 3
      case Insert => CleanSteps(cfg, s) - 4
      case SetIntent => CleanSteps(cfg, s) - 5
      case MakeActionDir => if IsDir(fs, ActionDir(cfg, task.id)) then 8 else 9
      case WriteManifest => 7
      case SetMoving => 6
      case VerifySource => 5
      case RenameIn => 4
      case VerifyPayload => 3
      case FingerprintPayload => 2
      case SetQuarantined => 1
      case RecordFailure(_) => 0
  }

  /** The step that follows when nothing is wrong. */
  function Next(step: CleanStep): Option<CleanStep> {
    match step
    case Preflight => Some(CheckFilesystem)
    case CheckFilesystem => Some(FingerprintSource)
    case FingerprintSource => Some(VerifyAgain)
    case VerifyAgain => Some(Insert)
    case Insert => Some(SetIntent)
    case SetIntent => Some(MakeActionDir)
    case MakeActionDir => Some(WriteManifest)
    case WriteManifest => Some(SetMoving)
    case SetMoving => Some(VerifySource)
    case VerifySource => Some(RenameIn)
    case RenameIn => Some(VerifyPayload)
    case VerifyPayload => Some(FingerprintPayload)
    case FingerprintPayload => Some(SetQuarantined)
    case _ => None
  }

  /** A statement leads to the next one, to a failure, or, while a directory is missing, to itself. */
  lemma {:induction false} StepLeadsOn(cfg: Config, now: State, e: Event)
    requires now.task.Cleaning? && e.Proceed? && !now.task.clean.MakeActionDir?
    ensures var t := AdvanceClean(cfg, now, e).task;
            || (t.Resting? && (t.outcome == Succeeded ==> now.task.clean.SetQuarantined?))
            || (t.Cleaning? && (t.clean.RecordFailure? || Next(now.task.clean) == Some(t.clean)))
  {
  }

  lemma {:induction false} DirectoryLeadsOn(cfg: Config, s: State, c: Candidate, now: State, e: Event)
    requires Going(cfg, s, c, now) && now.task.clean.MakeActionDir? && e.Proceed?
    ensures var next := AdvanceClean(cfg, now, e);
            && next.task.Cleaning? && next.task.id == now.task.id
            && (if IsDir(now.fs, ActionDir(cfg, now.task.id)) then next.task.clean.WriteManifest?
                else next.task.clean.MakeActionDir? && IsDir(next.fs, ActionDir(cfg, now.task.id)))
  {
    MakeStep(cfg, now, e);
    DirectoryIsThereOrFree(cfg, s, c, now);
    if ActionDir(cfg, s.nextId) !in now.fs {
      FreshDirectory(cfg, s.fs, s.nextId, e.supply.ino);
    }
  }

  lemma {:induction false} DirectoryIsThereOrFree(cfg: Config, s: State, c: Candidate, now: State)
    requires Going(cfg, s, c, now) && now.task.clean.MakeActionDir?
    ensures now.task.id == s.nextId && WellFormed(s.fs) && IsDir(s.fs, cfg.quarantineRoot)
    ensures IsDir(now.fs, ActionDir(cfg, s.nextId)) || (now.fs == s.fs && ActionDir(cfg, s.nextId) !in s.fs)
  {
  }

  lemma {:induction false} IntentLeadsOn(cfg: Config, s: State, c: Candidate, now: State, e: Event)
    requires Going(cfg, s, c, now) && now.task.clean.SetIntent? && e.Proceed?
    ensures var next := AdvanceClean(cfg, now, e);
            next.task == now.task.(clean := MakeActionDir) && next.fs == s.fs && now.task.id == s.nextId
  {
    IntentStep(cfg, now, e);
  }

  lemma {:induction false} NextIsOneLess(cfg: Config, s: State, fs: Fs, task: Task, fs': Fs, task': Task)
    requires task.Cleaning? && !task.clean.SetIntent? && !task.clean.MakeActionDir?
    requires (task'.Resting? && task.clean.SetQuarantined?) ||
             (task'.Cleaning? && Next(task.clean) == Some(task'.clean))
    ensures StepsLeft(cfg, s, fs, task) == StepsLeft(cfg, s, fs', task') + 1
  {
  }

  lemma {:induction false} StepCountsDown(cfg: Config, s: State, c: Candidate, now: State, e: Event)
    requires Going(cfg, s, c, now) && e.Proceed?
    ensures var next := AdvanceClean(cfg, now, e);
            StepsLeft(cfg, s, now.fs, now.task) == StepsLeft(cfg, s, next.fs, next.task) + 1
  {
    StepStaysOnTrack(cfg, s, c, now, e);
    assert Advance(cfg, now, e) == AdvanceClean(cfg, now, e);
    if now.task.clean.MakeActionDir? {
      DirectoryLeadsOn(cfg, s, c, now, e);
    } else if now.task.clean.SetIntent? {
      IntentLeadsOn(cfg, s, c, now, e);
    } else {
      var next := AdvanceClean(cfg, now, e);
      StepLeadsOn(cfg, now, e);
      OnTrackGoesWell(cfg, s, c, next);
      NextIsOneLess(cfg, s, now.fs, now.task, next.fs, next.task);
    }
  }

  lemma {:induction false} OnTrackGoesWell(cfg: Config, s: State, c: Candidate, now: State)
    requires OnTrack(cfg, s, c, now)
    ensures now.task == Resting(Succeeded) || (now.task.Cleaning? && !now.task.clean.RecordFailure?)
  {
  }

  function Less(n: nat): nat {
    if n == 0 then 0 else n - 1
  }

  lemma {:induction false} OneStepLess(cfg: Config, s: State, c: Candidate, now: State, e: Event)
    requires Fit(cfg, s, c) && OnTrack(cfg, s, c, now) && e.Proceed?
    ensures var next := Advance(cfg, now, e);
            StepsLeft(cfg, s, next.fs, next.task) == Less(StepsLeft(cfg, s, now.fs, now.task))
  {
    OnTrackGoesWell(cfg, s, c, now);
    if now.task.Cleaning? {
      StepCountsDown(cfg, s, c, now, e);
      assert Advance(cfg, now, e) == AdvanceClean(cfg, now, e);
    }
  }

  function LeftAfter(cfg: Config, s: State, c: Candidate, events: seq<Event>): nat {
    var now := Run(cfg, StartClean(s, c), events);
    StepsLeft(cfg, s, now.fs, now.task)
  }

  lemma {:induction false} CountsOneMore(cfg: Config, s: State, c: Candidate, front: seq<Event>, e: Event)
    requires Fit(cfg, s, c) && AllProceed(front) && e.Proceed?
    ensures LeftAfter(cfg, s, c, front + [e]) == Less(LeftAfter(cfg, s, c, front))
  {
    RunStaysOnTrack(cfg, s, c, front);
    assert (front + [e])[..|front + [e]| - 1] == front;
    OneStepLess(cfg, s, c, Run(cfg, StartClean(s, c), front), e);
  }

  /** What goes down by one with each statement that proceeds. */
  ghost predicate CountsDown(left: seq<Event> -> nat) {
    forall front: seq<Event>, e: Event | AllProceed(front) && e.Proceed? :: left(front + [e]) == Less(left(front))
  }

  lemma {:induction false} CountedDown(left: seq<Event> -> nat, events: seq<Event>)
    requires CountsDown(left) && AllProceed(events)
    ensures left(events) == if |events| < left([]) then left([]) - |events| else 0
  {
    if events != [] {
      var front, e := events[..|events| - 1], events[|events| - 1];
      CountedDown(left, front);
      assert events == front + [e] && AllProceed(front);
    }
  }

  lemma {:induction false} RunCountsDown(cfg: Config, s: State, c: Candidate, events: seq<Event>)
    requires Fit(cfg, s, c) && AllProceed(events)
    ensures LeftAfter(cfg, s, c, events) ==
            if |events| < CleanSteps(cfg, s) then CleanSteps(cfg, s) - |events| else 0
  {
    var left := (es: seq<Event>) => LeftAfter(cfg, s, c, es);
    forall front: seq<Event>, e: Event | AllProceed(front) && e.Proceed?
      ensures left(front + [e]) == Less(left(front))
    {
      CountsOneMore(cfg, s, c, front, e);
    }
    CountedDown(left, events);
  }

  /** Without failures, a candidate that passes its checks is quarantined, after a fixed number of statements. */
  lemma {:induction false} CleanSucceeds(cfg: Config, s: State, c: Candidate, events: seq<Event>)
    requires Fit(cfg, s, c) && AllProceed(events)
    ensures var s' := Run(cfg, StartClean(s, c), events);
            if |events| < CleanSteps(cfg, s) then s'.task.Cleaning?
            else s'.task == Resting(Succeeded) && Cleaned(cfg, s, c, s')
  {
    RunStaysOnTrack(cfg, s, c, events);
    RunCountsDown(cfg, s, c, events);
    OnTrackGoesWell(cfg, s, c, Run(cfg, StartClean(s, c), events));
  }
}
