/** What a candidate has to be for a clean to act on it: the checks of `preflight_candidate`, of
    `ensure_same_filesystem` and of `verify_candidate_at_path`, said of whole runs. */
module Admission {
  import opened Base
  import opened Policy
  import opened FileSystem
  import opened Protocol
  import opened Recovery

  /** The object the scan saw is at `p`. */
  ghost predicate ScannedAt(fs: Fs, c: Candidate, p: Path) {
    && p in fs && (fs[p].kind.File? || fs[p].kind.Dir? || fs[p].kind.Other?)
    && c.scannedDev.Some? && c.scannedInode.Some? && fs[p].ino == Inode(c.scannedDev.value, c.scannedInode.value)
  }

  /** `source` is on the device of the deepest existing directory on the way to `root`. */
  ghost predicate OnDeviceOf(fs: Fs, source: Path, root: Path) {
    && source in fs
    && exists a: Path :: a <= root && a in fs && fs[a].ino.dev == fs[source].ino.dev
         && forall q: Path | a <= q && q <= root && q in fs :: q == a
  }

  lemma {:induction false} HoldsMeansScanned(fs: Fs, c: Candidate, p: Path)
    ensures HoldsScanned(fs, c, p) <==> ScannedAt(fs, c, p)
  {
  }

  lemma {:induction false} NearestIsDeepest(fs: Fs, p: Path, q: Path)
    requires [] in fs && q in fs && NearestExisting(fs, p) <= q && q <= p
    ensures q == NearestExisting(fs, p)
    decreases |p|
  {
    assert q == p[..|q|] && p == p[..|p|];
    if p !in fs {
      assert q <= Parent(p);
      NearestIsDeepest(fs, Parent(p), q);
    }
  }

  lemma {:induction false} SameMeansOnDevice(fs: Fs, source: Path, root: Path)
    requires [] in fs
    ensures SameFilesystem(fs, source, root) <==> OnDeviceOf(fs, source, root)
  {
    var n := NearestExisting(fs, root);
    forall q: Path | n <= q && q <= root && q in fs ensures q == n {
      NearestIsDeepest(fs, root, q);
    }
    if OnDeviceOf(fs, source, root) {
      var a: Path :| a <= root && a in fs && fs[a].ino.dev == fs[source].ino.dev
        && forall q: Path | a <= q && q <= root && q in fs :: q == a;
      PrefixesOverlap(a, n, root);
      assert a == n;
    }
  }

  // What has been seen by the time a statement is reached

  /** How far a clean has come: 0 before the preflight has passed, 5 from the insertion on. */
  function Progress(s: State, now: State): nat {
    match now.task
    case Cleaning(_, _, _, step) =>
      if step.Preflight? then 0 else if step.CheckFilesystem? then 1 else if step.FingerprintSource? then 2
      else if step.VerifyAgain? then 3 else if step.Insert? then 4 else 5
    case _ => if now.rows == s.rows && now.nextId == s.nextId then 0 else 5
  }

  /** A clean of `c` is going on or over, and up to the insertion it has written nothing. */
  ghost predicate CleansOnly(s: State, c: Candidate, now: State) {
    && (now.task.Resting? || (now.task.Cleaning? && now.task.candidate == c))
    && (Progress(s, now) < 5 ==> now.rows == s.rows && now.nextId == s.nextId)
  }

  /** What each of the checks found when it let the clean go on. */
  lemma {:induction false} StepPasses(cfg: Config, s: State, c: Candidate, now: State, e: Event)
    requires CleansOnly(s, c, now)
    ensures var next := Advance(cfg, now, e);
            var p, q := Progress(s, now), Progress(s, next);
            && CleansOnly(s, c, next) && q <= p + 1
            && (q <= 5 && p < 5 && !e.Outside? ==> next.fs == now.fs)
            && (p == 0 && q == 1 ==>
                 && c.risk == Low && c.reversible && (c.action == Quarantine || c.action == Trash)
                 && cfg.scanRoot <= c.path && HoldsScanned(now.fs, c, c.path))
            && (p == 1 && q == 2 ==> SameFilesystem(now.fs, c.path, cfg.quarantineRoot))
            && (p == 3 && q == 4 ==> HoldsScanned(now.fs, c, c.path))
  {
    if !e.Crash? && !e.Outside? && now.task.Cleaning? {
      if Progress(s, now) < 5 { EarlyStep(cfg, s, c, now, e); } else { LateStep(cfg, now, e); }
    }
  }

  lemma {:induction false} EarlyStep(cfg: Config, s: State, c: Candidate, now: State, e: Event)
    requires CleansOnly(s, c, now) && now.task.Cleaning? && Progress(s, now) < 5
    ensures var next := AdvanceClean(cfg, now, e);
            var p, q := Progress(s, now), Progress(s, next);
            && next.fs == now.fs && (next.task.Cleaning? ==> next.task.candidate == c && q == p + 1)
            && (next.task.Resting? ==> q == 0)
            && (p < 4 ==> next.rows == s.rows && next.nextId == s.nextId)
            && (p == 0 && q == 1 ==>
                 && c.risk == Low && c.reversible && (c.action == Quarantine || c.action == Trash)
                 && cfg.scanRoot <= c.path && HoldsScanned(now.fs, c, c.path))
            && (p == 1 && q == 2 ==> SameFilesystem(now.fs, c.path, cfg.quarantineRoot))
            && (p == 3 && q == 4 ==> HoldsScanned(now.fs, c, c.path))
            && (next.task.Resting? || next.task.Cleaning?)
  {
  }

  lemma {:induction false} LateStep(cfg: Config, now: State, e: Event)
    requires now.task.Cleaning?
    requires !now.task.clean.Preflight? && !now.task.clean.CheckFilesystem? && !now.task.clean.FingerprintSource?
    requires !now.task.clean.VerifyAgain? && !now.task.clean.Insert?
    ensures var t := AdvanceClean(cfg, now, e).task;
            t.Resting? || (t.Cleaning? && t.candidate == now.task.candidate && !t.clean.Preflight? && !t.clean.Insert?
                           && !t.clean.CheckFilesystem? && !t.clean.FingerprintSource? && !t.clean.VerifyAgain?)
  {
  }

  function After(cfg: Config, s: State, c: Candidate, events: seq<Event>, i: nat): State
    requires i <= |events|
  {
    Run(cfg, StartClean(s, c), events[..i])
  }

  /** Statement `i` was reached with `p` checks passed. */
  ghost predicate Met(cfg: Config, s: State, c: Candidate, events: seq<Event>, i: nat, p: nat) {
    i < |events| && After(cfg, s, c, events, i).task.Cleaning? && Progress(s, After(cfg, s, c, events, i)) == p
  }

  /** What has been seen, and when, by the time `p` checks have passed. */
  ghost predicate Seen(cfg: Config, s: State, c: Candidate, events: seq<Event>, p: nat,
                       first: nat, device: nat, last: nat) {
    && (p >= 1 ==>
         && c.risk == Low && c.reversible && (c.action == Quarantine || c.action == Trash) && cfg.scanRoot <= c.path
         && Met(cfg, s, c, events, first, 0) && ScannedAt(After(cfg, s, c, events, first).fs, c, c.path))
    && (p >= 2 ==>
         && first < device && Met(cfg, s, c, events, device, 1)
         && OnDeviceOf(After(cfg, s, c, events, device).fs, c.path, cfg.quarantineRoot))
    && (p >= 4 ==>
         && device < last && Met(cfg, s, c, events, last, 3)
         && ScannedAt(After(cfg, s, c, events, last).fs, c, c.path))
  }

  lemma {:induction false} SeenStays(cfg: Config, s: State, c: Candidate, events: seq<Event>, e: Event, p: nat,
                                     first: nat, device: nat, last: nat)
    requires Seen(cfg, s, c, events, p, first, device, last)
    ensures Seen(cfg, s, c, events + [e], p, first, device, last)
  {
    forall i: nat | i < |events| ensures After(cfg, s, c, events, i) == After(cfg, s, c, events + [e], i) {
      assert (events + [e])[..i] == events[..i];
    }
  }

  lemma {:induction false} SeesMore(cfg: Config, s: State, c: Candidate, events: seq<Event>, e: Event,
                                    first: nat, device: nat, last: nat) returns (first': nat, device': nat, last': nat)
    requires var now := Run(cfg, StartClean(s, c), events);
             CleansOnly(s, c, now) && Seen(cfg, s, c, events, Progress(s, now), first, device, last)
    ensures var next := Run(cfg, StartClean(s, c), events + [e]);
            CleansOnly(s, c, next) && Seen(cfg, s, c, events + [e], Progress(s, next), first', device', last')
  {
    var n := |events|;
    var now := Run(cfg, StartClean(s, c), events);
    RunTwice(cfg, StartClean(s, c), events, e);
    assert (events + [e])[..n] == events;
    StepPasses(cfg, s, c, now, e);
    var p, q := Progress(s, now), Progress(s, Advance(cfg, now, e));
    first', device', last' := first, device, last;
    SeenStays(cfg, s, c, events, e, p, first, device, last);
    if q > p {
      HoldsMeansScanned(now.fs, c, c.path);
      if [] in now.fs { SameMeansOnDevice(now.fs, c.path, cfg.quarantineRoot); }
      if q == 1 { first' := n; } else if q == 2 { device' := n; } else if q == 4 { last' := n; }
    }
  }

  /** Whatever happens: before a clean writes a row, the candidate has passed for low-risk, reversible,
      executable and within the scan root, the scanned object was at its path twice, and it was on the
      device of the quarantine in between. */
  lemma {:induction false} ChecksSeen(cfg: Config, s: State, c: Candidate, events: seq<Event>)
    returns (first: nat, device: nat, last: nat)
    ensures var now := Run(cfg, StartClean(s, c), events);
            CleansOnly(s, c, now) && Seen(cfg, s, c, events, Progress(s, now), first, device, last)
  {
    first, device, last := 0, 0, 0;
    if events != [] {
      var n := |events| - 1;
      first, device, last := ChecksSeen(cfg, s, c, events[..n]);
      first, device, last := SeesMore(cfg, s, c, events[..n], events[n], first, device, last);
      assert events[..n] + [events[n]] == events;
    }
  }

  ghost predicate Quiet(events: seq<Event>) {
    forall e | e in events :: !e.Outside?
  }

  /** While no other program writes, the checks find the files as they were at the start. */
  lemma {:induction false} QuietSoFar(cfg: Config, s: State, c: Candidate, events: seq<Event>)
    requires Quiet(events)
    ensures var now := Run(cfg, StartClean(s, c), events);
            now.task.Cleaning? && Progress(s, now) < 5 ==> now.fs == s.fs
  {
    if events != [] {
      var n := |events| - 1;
      var first, device, last := ChecksSeen(cfg, s, c, events[..n]);
      QuietSoFar(cfg, s, c, events[..n]);
      QuietOneMore(cfg, s, c, Run(cfg, StartClean(s, c), events[..n]), events[n]);
    }
  }

  lemma {:induction false} QuietOneMore(cfg: Config, s: State, c: Candidate, now: State, e: Event)
    requires CleansOnly(s, c, now) && !e.Outside?
    requires now.task.Cleaning? && Progress(s, now) < 5 ==> now.fs == s.fs
    ensures var next := Advance(cfg, now, e); next.task.Cleaning? && Progress(s, next) < 5 ==> next.fs == s.fs
  {
    if !e.Crash? && now.task.Cleaning? {
      if Progress(s, now) < 5 { EarlyStep(cfg, s, c, now, e); } else { LateStep(cfg, now, e); }
    }
  }

  /** Before the row is written: the moments at which each check found what it demands. */
  lemma {:induction false} InsertedMeansAdmitted(cfg: Config, s: State, c: Candidate, events: seq<Event>)
    returns (first: nat, device: nat, last: nat)
    requires var now := Run(cfg, StartClean(s, c), events); now.rows != s.rows || now.nextId != s.nextId
    ensures c.risk == Low && c.reversible && (c.action == Quarantine || c.action == Trash) && cfg.scanRoot <= c.path
    ensures first < device < last < |events|
    ensures ScannedAt(Run(cfg, StartClean(s, c), events[..first]).fs, c, c.path)
    ensures OnDeviceOf(Run(cfg, StartClean(s, c), events[..device]).fs, c.path, cfg.quarantineRoot)
    ensures ScannedAt(Run(cfg, StartClean(s, c), events[..last]).fs, c, c.path)
    ensures Quiet(events) ==> ScannedAt(s.fs, c, c.path) && OnDeviceOf(s.fs, c.path, cfg.quarantineRoot)
  {
    first, device, last := ChecksSeen(cfg, s, c, events);
    if Quiet(events) {
      QuietSoFar(cfg, s, c, events[..first]);
      QuietSoFar(cfg, s, c, events[..device]);
    }
  }

  /** No row, no action: a candidate that is not low-risk, reversible, executable and within the scan root
      leaves the table as it is, whatever happens; one that is not the scanned object on the quarantine's
      device does, as long as no other program writes. */
  lemma {:induction false} RefusedLeavesTable(cfg: Config, s: State, c: Candidate, events: seq<Event>)
    requires || c.risk != Low || !c.reversible || (c.action != Quarantine && c.action != Trash)
             || !(cfg.scanRoot <= c.path)
             || (Quiet(events) && (!ScannedAt(s.fs, c, c.path) || !OnDeviceOf(s.fs, c.path, cfg.quarantineRoot)))
    ensures var now := Run(cfg, StartClean(s, c), events); now.rows == s.rows && now.nextId == s.nextId
  {
    var now := Run(cfg, StartClean(s, c), events);
    if now.rows != s.rows || now.nextId != s.nextId {
      var first, device, last := InsertedMeansAdmitted(cfg, s, c, events);
      assert false;
    }
  }

  /** A step of the admission, when all of it holds. */
  lemma {:induction false} PassStep(cfg: Config, s: State, c: Candidate, now: State, e: Event)
    requires CleansOnly(s, c, now) && now.task.Cleaning? && Progress(s, now) < 5 && e.Proceed?
    requires c.risk == Low && c.reversible && (c.action == Quarantine || c.action == Trash) && cfg.scanRoot <= c.path
    requires HoldsScanned(now.fs, c, c.path) && SameFilesystem(now.fs, c.path, cfg.quarantineRoot)
    ensures var next := Advance(cfg, now, e);
            && next.task.Cleaning? && Progress(s, next) == Progress(s, now) + 1 && next.fs == now.fs
            && (Progress(s, next) == 5 ==>
                 next.nextId == s.nextId + 1 && s.nextId in next.rows && next.rows[s.nextId].original == c.path)
  {
  }

  lemma {:induction false} PassesOn(cfg: Config, s: State, c: Candidate, events: seq<Event>)
    requires |events| <= 5 && forall e | e in events :: e.Proceed?
    requires c.risk == Low && c.reversible && (c.action == Quarantine || c.action == Trash) && cfg.scanRoot <= c.path
    requires HoldsScanned(s.fs, c, c.path) && SameFilesystem(s.fs, c.path, cfg.quarantineRoot)
    ensures var now := Run(cfg, StartClean(s, c), events);
            && now.task.Cleaning? && Progress(s, now) == |events| && now.fs == s.fs
            && (|events| == 5 ==>
                 now.nextId == s.nextId + 1 && s.nextId in now.rows && now.rows[s.nextId].original == c.path)
  {
    if events != [] {
      var n := |events| - 1;
      var first, device, last := ChecksSeen(cfg, s, c, events[..n]);
      PassesOn(cfg, s, c, events[..n]);
      PassStep(cfg, s, c, Run(cfg, StartClean(s, c), events[..n]), events[n]);
    }
  }

  /** While no other program writes, the checks are about the files as they were at the start: a clean
      inserts its action if and only if all of them pass, when its first five statements proceed. */
  lemma {:induction false} InsertedIffAdmitted(cfg: Config, s: State, c: Candidate, events: seq<Event>)
    requires [] in s.fs && |events| == 5 && forall e | e in events :: e.Proceed?
    ensures var now := Run(cfg, StartClean(s, c), events);
            if && c.risk == Low && c.reversible && (c.action == Quarantine || c.action == Trash)
               && cfg.scanRoot <= c.path && ScannedAt(s.fs, c, c.path)
               && OnDeviceOf(s.fs, c.path, cfg.quarantineRoot)
            then now.nextId == s.nextId + 1 && s.nextId in now.rows && now.rows[s.nextId].original == c.path
            else now.nextId == s.nextId && now.rows == s.rows
  {
    HoldsMeansScanned(s.fs, c, c.path);
    SameMeansOnDevice(s.fs, c.path, cfg.quarantineRoot);
    if && c.risk == Low && c.reversible && (c.action == Quarantine || c.action == Trash) && cfg.scanRoot <= c.path
       && ScannedAt(s.fs, c, c.path) && OnDeviceOf(s.fs, c.path, cfg.quarantineRoot) {
      PassesOn(cfg, s, c, events);
    } else {
      RefusedLeavesTable(cfg, s, c, events);
    }
  }

  /** The payload that a clean renames is the scanned object: it was at the path at the last check, and since
      then nothing but other programs has acted. */
  lemma {:induction false} RenamedIsScanned(cfg: Config, s: State, c: Candidate, events: seq<Event>)
    returns (check: nat)
    requires var now := Run(cfg, StartClean(s, c), events); now.task.Cleaning? && now.task.clean.RenameIn?
    ensures check < |events| && ScannedAt(Run(cfg, StartClean(s, c), events[..check]).fs, c, c.path)
    ensures forall i | check < i < |events| :: events[i].Outside?
    ensures Quiet(events) ==> ScannedAt(Run(cfg, StartClean(s, c), events).fs, c, c.path)
  {
    var n := |events| - 1;
    var front, e := events[..n], events[n];
    assert events == front + [e];
    var before := Run(cfg, StartClean(s, c), front);
    RunTwice(cfg, StartClean(s, c), front, e);
    var first, device, last := ChecksSeen(cfg, s, c, front);
    BeforeRenameIn(cfg, c, before, e);
    if e.Outside? {
      check := RenamedIsScanned(cfg, s, c, front);
      assert front[..check] == events[..check];
      assert e in events;
    } else {
      check := n;
    }
  }

  /** Only the last check of the source leads to the rename. */
  lemma {:induction false} BeforeRenameIn(cfg: Config, c: Candidate, s: State, e: Event)
    requires s.task.Resting? || (s.task.Cleaning? && s.task.candidate == c)
    requires Advance(cfg, s, e).task.Cleaning? && Advance(cfg, s, e).task.clean.RenameIn?
    ensures if e.Outside? then s.task.Cleaning? && s.task.clean.RenameIn?
            else ScannedAt(s.fs, c, c.path) && Advance(cfg, s, e).fs == s.fs
  {
    if !e.Outside? && !e.Crash? && s.task.Cleaning? {
      LastCheck(cfg, s, e);
      HoldsMeansScanned(s.fs, c, c.path);
    }
  }

  lemma {:induction false} LastCheck(cfg: Config, s: State, e: Event)
    requires s.task.Cleaning? && AdvanceClean(cfg, s, e).task.Cleaning? && AdvanceClean(cfg, s, e).task.clean.RenameIn?
    ensures HoldsScanned(s.fs, s.task.candidate, s.task.candidate.path) && AdvanceClean(cfg, s, e).fs == s.fs
  {
  }
}
