/** The quarantine, restore and recover commands as one transition system.

    Every statement of the three commands that touches the file system or the `actions` table is one
    step.  What the surroundings do to a step is an event: it proceeds, its input/output fails, the
    process dies, or some other program changes the file system in between. */
module Protocol {
  import opened Base
  import opened Policy
  import opened FileSystem

  type Digest = Bytes

  datatype Status = Planned | Moving | Quarantined | Restoring | Restored | Failed

  predicate Interrupted(s: Status) {
    s == Planned || s == Moving || s == Restoring
  }

  datatype Version = Sha256TreeV1 | UnknownVersion(text: Bytes)

  /** Why a row carries an error; the message text is not modelled. */
  datatype Cause =
    | PrepareFailed | SourceChanged | RenameFailed | PayloadNotScanned | PayloadChanged
    | NoQuarantinePath | IdentityMismatch | NotMoved | BothExist | NeitherExists | RestoreDidNotMove

  datatype Row = Row(
    original: Path,
    quarantine: Option<Path>,
    status: Status,
    error: Option<Cause>,
    restoredAt: Option<int>,
    restoreError: Option<Cause>,
    digest: Option<Digest>,
    version: Option<Version>)

  type Table = map<nat, Row>

  datatype Candidate = Candidate(
    path: Path,
    risk: Risk,
    reversible: bool,
    action: ActionType,
    scannedDev: Option<nat>,
    scannedInode: Option<nat>)

  /** The payload fingerprint is a parameter: every result holds for every function. */
  datatype Config = Config(quarantineRoot: Path, scanRoot: Path, fingerprint: Tree -> Digest)

  // Places in the quarantine

  const ACTION_PREFIX: Bytes := [97, 99, 116, 105, 111, 110, 45]
  const PAYLOAD: Bytes := [112, 97, 121, 108, 111, 97, 100]
  const MANIFEST: Bytes := [109, 97, 110, 105, 102, 101, 115, 116, 46, 116, 120, 116]

  function ActionDir(cfg: Config, id: nat): Path {
    cfg.quarantineRoot + [ACTION_PREFIX + Decimal(id)]
  }

  function PayloadPath(cfg: Config, id: nat): Path {
    ActionDir(cfg, id) + [PAYLOAD]
  }

  function ManifestPath(cfg: Config, id: nat): Path {
    ActionDir(cfg, id) + [MANIFEST]
  }

  /** The names in the quarantine. */
  lemma {:induction false} PlacesAreNamed(cfg: Config, id: nat)
    ensures ActionDir(cfg, id) == cfg.quarantineRoot + [Text("action-") + Decimal(id)]
    ensures PayloadPath(cfg, id) == ActionDir(cfg, id) + [Text("payload")]
    ensures ManifestPath(cfg, id) == ActionDir(cfg, id) + [Text("manifest.txt")]
  {
    assert Text("action-") == ACTION_PREFIX && Text("payload") == PAYLOAD && Text("manifest.txt") == MANIFEST;
  }

  // Tasks and events

  datatype Outcome = Idle | Succeeded | Refused | Died

  datatype CleanStep =
    | Preflight | CheckFilesystem | FingerprintSource | VerifyAgain | Insert | SetIntent
    | MakeActionDir | WriteManifest | SetMoving | VerifySource | RenameIn
    | VerifyPayload | FingerprintPayload | SetQuarantined | RecordFailure(cause: Cause)

  datatype RestoreStep =
    | CheckStatus | CheckQuarantine | CheckOriginal | VerifyQuarantined | SetRestoring
    | MakeParents | RenameBack | VerifyRestored | SetRestored
    | RecordRestoreFailure(cause: Cause) | RecordTerminalFailure(cause: Cause)

  datatype Verdict = ToFailed(cause: Cause) | ToQuarantined | BackToQuarantined | ToRestored

  datatype RecoverStep =
    | Dispatch | InspectOriginal | InspectQuarantine(original: bool)
    | Decide(original: bool, quarantine: bool) | WriteVerdict(verdict: Verdict)

  datatype Task =
    | Resting(outcome: Outcome)
    | Cleaning(candidate: Candidate, digest: Digest, id: nat, clean: CleanStep)
    | RestoringAction(id: nat, row: Row, restore: RestoreStep)
    | Reconciling(id: nat, row: Row, recover: RecoverStep)

  datatype State = State(fs: Fs, rows: Table, nextId: nat, task: Task)

  /** What a step that proceeds is given from outside: a fresh inode, the manifest text, the time. */
  datatype Supply = Supply(ino: Inode, data: Bytes, now: int)

  datatype Event =
    | Proceed(supply: Supply)
    | Fault                      // the step's input/output fails and has no effect
    | Partial(supply: Supply)    // it fails after having had its effect; only a file write can
    | Crash
    | Outside(fs: Fs)

  function Finish(s: State, o: Outcome): State {
    s.(task := Resting(o))
  }

  // clean.rs

  predicate Executable(cfg: Config, c: Candidate) {
    c.risk == Low && c.reversible && RawFilesystemAction(c.action) && cfg.scanRoot <= c.path
  }

  /** `verify_candidate_at_path`: the path holds the very object the scan saw, and no symlink. */
  predicate HoldsScanned(fs: Fs, c: Candidate, p: Path) {
    && p in fs
    && !fs[p].kind.Symlink?
    && c.scannedDev == Some(fs[p].ino.dev)
    && c.scannedInode == Some(fs[p].ino.number)
  }

  predicate SameFilesystem(fs: Fs, source: Path, destination: Path) {
    && source in fs
    && [] in fs
    && fs[source].ino.dev == fs[NearestExisting(fs, destination)].ino.dev
  }

  function NewRow(c: Candidate, digest: Digest): Row {
    Row(c.path, None, Planned, None, None, None, Some(digest), Some(Sha256TreeV1))
  }

  function SetStatus(rows: Table, id: nat, status: Status, error: Option<Cause>): Table {
    if id in rows then rows[id := rows[id].(status := status, error := error)] else rows
  }

  function SetIntentPath(rows: Table, id: nat, payload: Path): Table {
    if id in rows && rows[id].status == Planned then rows[id := rows[id].(quarantine := Some(payload))] else rows
  }

  /** The file a write leaves: a file that was there keeps its inode. */
  function WrittenNode(fs: Fs, p: Path, supply: Supply): Node {
    Node(if p in fs then fs[p].ino else supply.ino, File(supply.data))
  }

  function CleanTo(s: State, step: CleanStep): State
    requires s.task.Cleaning?
  {
    s.(task := s.task.(clean := step))
  }

  function AdvanceClean(cfg: Config, s: State, e: Event): State
    requires s.task.Cleaning?
  {
    var ok := e.Proceed?;
    var c, id := s.task.candidate, s.task.id;
    match s.task.clean
    case Preflight =>
      if ok && Executable(cfg, c) && HoldsScanned(s.fs, c, c.path) then CleanTo(s, CheckFilesystem)
      else Finish(s, Refused)
    case CheckFilesystem =>
      if ok && SameFilesystem(s.fs, c.path, cfg.quarantineRoot) then CleanTo(s, FingerprintSource)
      else Finish(s, Refused)
    case FingerprintSource =>
      if ok && c.path in s.fs then
        s.(task := s.task.(digest := cfg.fingerprint(TreeAt(s.fs, c.path)), clean := VerifyAgain))
      else Finish(s, Refused)
    case VerifyAgain =>
      if ok && HoldsScanned(s.fs, c, c.path) then CleanTo(s, Insert) else Finish(s, Refused)
    case Insert =>
      if ok then
        s.(rows := s.rows[s.nextId := NewRow(c, s.task.digest)], nextId := s.nextId + 1,
           task := s.task.(id := s.nextId, clean := SetIntent))
      else Finish(s, Refused)
    case SetIntent =>
      if ok then CleanTo(s.(rows := SetIntentPath(s.rows, id, PayloadPath(cfg, id))), MakeActionDir)
      else Finish(s, Refused)
    case MakeActionDir =>
      if !ok then CleanTo(s, RecordFailure(PrepareFailed))
      else (
        match MakeDirs(s.fs, ActionDir(cfg, id), e.supply.ino)
        case Ready => CleanTo(s, WriteManifest)
        case Blocked => CleanTo(s, RecordFailure(PrepareFailed))
        case Made(fs') => s.(fs := fs'))
    case WriteManifest =>
      var manifest := ManifestPath(cfg, id);
      if e.Fault? || e.Crash? || e.Outside? || !IsDir(s.fs, ActionDir(cfg, id)) || IsDir(s.fs, manifest) then
        CleanTo(s, RecordFailure(PrepareFailed))
      else
        var s' := s.(fs := Create(s.fs, manifest, WrittenNode(s.fs, manifest, e.supply)));
        CleanTo(s', if ok then SetMoving else RecordFailure(PrepareFailed))
    case SetMoving =>
      if ok then CleanTo(s.(rows := SetStatus(s.rows, id, Moving, None)), VerifySource) else Finish(s, Refused)
    case VerifySource =>
      CleanTo(s, if ok && HoldsScanned(s.fs, c, c.path) then RenameIn else RecordFailure(SourceChanged))
    case RenameIn => (
      match Rename(s.fs, c.path, PayloadPath(cfg, id))
      case Some(fs') => if ok then CleanTo(s.(fs := fs'), VerifyPayload) else CleanTo(s, RecordFailure(RenameFailed))
      case None => CleanTo(s, RecordFailure(RenameFailed)))
    case VerifyPayload =>
      CleanTo(s, if ok && HoldsScanned(s.fs, c, PayloadPath(cfg, id)) then FingerprintPayload
                 else RecordFailure(PayloadNotScanned))
    case FingerprintPayload =>
      if !ok || PayloadPath(cfg, id) !in s.fs then Finish(s, Refused)
      else CleanTo(s, if cfg.fingerprint(TreeAt(s.fs, PayloadPath(cfg, id))) == s.task.digest then SetQuarantined
                      else RecordFailure(PayloadChanged))
    case SetQuarantined =>
      if ok then Finish(s.(rows := SetStatus(s.rows, id, Quarantined, None)), Succeeded) else Finish(s, Refused)
    case RecordFailure(cause) =>
      Finish(if ok then s.(rows := SetStatus(s.rows, id, Failed, Some(cause))) else s, Refused)
  }

  // restore.rs

  /** `verify_identity`: the row has a supported fingerprint and the payload at `p` matches it. */
  predicate Verified(cfg: Config, fs: Fs, row: Row, p: Path) {
    && row.version == Some(Sha256TreeV1)
    && row.digest.Some?
    && p in fs
    && cfg.fingerprint(TreeAt(fs, p)) == row.digest.value
  }

  function SetRestoreStatus(rows: Table, id: nat, status: Status, error: Option<Cause>): Table {
    if id in rows then rows[id := rows[id].(status := status, restoreError := error)] else rows
  }

  function SetRestoredRow(rows: Table, id: nat, now: int): Table {
    if id in rows
    then rows[id := rows[id].(status := Restored, restoredAt := Some(now), error := None, restoreError := None)]
    else rows
  }

  function RestoreTo(s: State, step: RestoreStep): State
    requires s.task.RestoringAction?
  {
    s.(task := s.task.(restore := step))
  }

  function AdvanceRestore(cfg: Config, s: State, e: Event): State
    requires s.task.RestoringAction?
  {
    var ok := e.Proceed?;
    var id, row := s.task.id, s.task.row;
    if row.quarantine.None? then Finish(s, Refused)
    else
      var q, o := row.quarantine.value, row.original;
      match s.task.restore
      case CheckStatus =>
        if row.status == Quarantined && row.restoredAt.None? then RestoreTo(s, CheckQuarantine) else Finish(s, Refused)
      case CheckQuarantine =>
        // `exists` is false when the path cannot be read
        if ok && q in s.fs then RestoreTo(s, CheckOriginal) else Finish(s, Refused)
      case CheckOriginal =>
        if ok && o in s.fs then Finish(s, Refused) else RestoreTo(s, VerifyQuarantined)
      case VerifyQuarantined =>
        if ok && Verified(cfg, s.fs, row, q) then RestoreTo(s, SetRestoring) else Finish(s, Refused)
      case SetRestoring =>
        if ok then RestoreTo(s.(rows := SetRestoreStatus(s.rows, id, Restoring, None)), MakeParents)
        else Finish(s, Refused)
      case MakeParents =>
        if o == [] then RestoreTo(s, RenameBack)
        else if !ok then RestoreTo(s, RecordRestoreFailure(PrepareFailed))
        else (
          match MakeDirs(s.fs, Parent(o), e.supply.ino)
          case Ready => RestoreTo(s, RenameBack)
          case Blocked => RestoreTo(s, RecordRestoreFailure(PrepareFailed))
          case Made(fs') => s.(fs := fs'))
      case RenameBack => (
        match RenameNoReplace(s.fs, q, o)
        case Some(fs') => if ok then RestoreTo(s.(fs := fs'), VerifyRestored)
                          else RestoreTo(s, RecordRestoreFailure(RenameFailed))
        case None => RestoreTo(s, RecordRestoreFailure(RenameFailed)))
      case VerifyRestored =>
        RestoreTo(s, if ok && Verified(cfg, s.fs, row, o) then SetRestored else RecordTerminalFailure(IdentityMismatch))
      case SetRestored =>
        if ok then Finish(s.(rows := SetRestoredRow(s.rows, id, e.supply.now)), Succeeded) else Finish(s, Refused)
      case RecordRestoreFailure(cause) =>
        Finish(if ok then s.(rows := SetRestoreStatus(s.rows, id, Quarantined, Some(cause))) else s, Refused)
      case RecordTerminalFailure(cause) =>
        Finish(if ok then s.(rows := SetRestoreStatus(s.rows, id, Failed, Some(cause))) else s, Refused)
  }

  // recover.rs

  function RecoverTo(s: State, step: RecoverStep): State
    requires s.task.Reconciling?
  {
    s.(task := s.task.(recover := step))
  }

  /** What the reconcile functions do with the two existence flags; `readable` is whether the payload
      that has to be verified can be read. */
  function Judge(cfg: Config, fs: Fs, row: Row, original: bool, quarantine: bool, readable: bool): Verdict
    requires row.quarantine.Some?
  {
    if row.status == Restoring then
      if original && !quarantine then
        if readable && Verified(cfg, fs, row, row.original) then ToRestored else ToFailed(IdentityMismatch)
      else if !original && quarantine then
        if readable && Verified(cfg, fs, row, row.quarantine.value) then BackToQuarantined
        else ToFailed(IdentityMismatch)
      else ToFailed(if original then BothExist else NeitherExists)
    else
      if !original && quarantine then
        if readable && Verified(cfg, fs, row, row.quarantine.value) then ToQuarantined else ToFailed(IdentityMismatch)
      else ToFailed(if !original then NeitherExists else if quarantine then BothExist else NotMoved)
  }

  function Settle(row: Row, verdict: Verdict, now: int): Row {
    match verdict
    case ToFailed(cause) => row.(status := Failed, error := Some(cause))
    case ToQuarantined => row.(status := Quarantined, error := None)
    case BackToQuarantined => row.(status := Quarantined, restoreError := Some(RestoreDidNotMove))
    case ToRestored =>
      row.(status := Restored, restoredAt := if row.restoredAt.Some? then row.restoredAt else Some(now),
           error := None, restoreError := None)
  }

  function AdvanceRecover(cfg: Config, s: State, e: Event): State
    requires s.task.Reconciling?
  {
    var ok := e.Proceed?;
    var id, row := s.task.id, s.task.row;
    match s.task.recover
    case Dispatch =>
      if !Interrupted(row.status) then Finish(s, Refused)
      else RecoverTo(s, if row.quarantine.None? then WriteVerdict(ToFailed(NoQuarantinePath)) else InspectOriginal)
    case InspectOriginal =>
      if ok then RecoverTo(s, InspectQuarantine(row.original in s.fs)) else Finish(s, Refused)
    case InspectQuarantine(original) =>
      if ok && row.quarantine.Some? then RecoverTo(s, Decide(original, row.quarantine.value in s.fs))
      else Finish(s, Refused)
    case Decide(original, quarantine) =>
      if row.quarantine.Some? then RecoverTo(s, WriteVerdict(Judge(cfg, s.fs, row, original, quarantine, ok)))
      else Finish(s, Refused)
    case WriteVerdict(verdict) =>
      if ok && id in s.rows then Finish(s.(rows := s.rows[id := Settle(s.rows[id], verdict, e.supply.now)]), Succeeded)
      else Finish(s, Refused)
  }

  // Steps and runs

  function Advance(cfg: Config, s: State, e: Event): State {
    match e
    case Crash => Finish(s, Died)
    case Outside(fs') => s.(fs := fs')
    case _ =>
      match s.task
      case Resting(_) => s
      case Cleaning(_, _, _, _) => AdvanceClean(cfg, s, e)
      case RestoringAction(_, _, _) => AdvanceRestore(cfg, s, e)
      case Reconciling(_, _, _) => AdvanceRecover(cfg, s, e)
  }

  function Run(cfg: Config, s: State, events: seq<Event>): State {
    if events == [] then s else Advance(cfg, Run(cfg, s, events[..|events| - 1]), events[|events| - 1])
  }

  function StartClean(s: State, c: Candidate): State {
    s.(task := Cleaning(c, [], 0, Preflight))
  }

  /** `load_action`: an unknown id is an error. */
  function StartRestore(s: State, id: nat): State {
    if id in s.rows then s.(task := RestoringAction(id, s.rows[id], CheckStatus)) else Finish(s, Refused)
  }

  function StartRecover(s: State, id: nat): State {
    if id in s.rows then s.(task := Reconciling(id, s.rows[id], Dispatch)) else Finish(s, Refused)
  }
}
