/** One clean run over several candidates: quarantining one leaves the others as they were, and without
    failures all of them end up quarantined, in whatever order. */
module Batch {
  import opened Base
  import opened FileSystem
  import opened Protocol
  import opened Safety
  import opened Cleaning

  /** A candidate that passes every check and is apart from the quarantine (H2). */
  predicate Sound(cfg: Config, fs: Fs, c: Candidate) {
    Passing(cfg, fs, c) && !Overlap(c.path, cfg.quarantineRoot)
  }

  lemma {:induction false} SoundIsClear(cfg: Config, c: Candidate, id: nat)
    requires !Overlap(c.path, cfg.quarantineRoot)
    ensures Clear(cfg, c, id)
  {
    assert cfg.quarantineRoot <= ActionDir(cfg, id);
    if c.path <= ActionDir(cfg, id) { PrefixesOverlap(c.path, cfg.quarantineRoot, ActionDir(cfg, id)); }
  }

  // The loop over the candidates

  /** The state after cleaning the candidates one after the other, each with its own run. */
  function After(cfg: Config, s: State, cs: seq<Candidate>, runs: seq<seq<Event>>): State
    requires |cs| == |runs|
  {
    if cs == [] then s
    else
      var n := |cs| - 1;
      Run(cfg, StartClean(After(cfg, s, cs[..n], runs[..n]), cs[n]), runs[n])
  }

  /** How many of the runs ended well. */
  function Successes(cfg: Config, s: State, cs: seq<Candidate>, runs: seq<seq<Event>>): nat
    requires |cs| == |runs|
  {
    if cs == [] then 0
    else
      var n := |cs| - 1;
      Successes(cfg, s, cs[..n], runs[..n]) + if After(cfg, s, cs, runs).task == Resting(Succeeded) then 1 else 0
  }

  /** Nothing fails or interferes, for at least as many statements as a clean has. */
  predicate Smoothly(runs: seq<seq<Event>>) {
    forall k | 0 <= k < |runs| :: AllProceed(runs[k]) && |runs[k]| >= CLEAN_STEPS
  }

  ghost predicate Executables(cfg: Config, s: State, cs: seq<Candidate>) {
    && Prepared(cfg, s)
    && (forall i | 0 <= i < |cs| :: Sound(cfg, s.fs, cs[i]))
    && (forall i, j | 0 <= i < j < |cs| :: !Overlap(cs[i].path, cs[j].path))
  }

  predicate Taken(cs: seq<Candidate>, q: Path) {
    exists i :: 0 <= i < |cs| && cs[i].path <= q
  }

  /** Action `s.nextId + i` holds the payload that candidate `i` had before the batch. */
  ghost predicate Holds(cfg: Config, s: State, c: Candidate, id: nat, now: State) {
    && id in now.rows && now.rows[id] == CleanedRow(cfg, s.fs, c, id, Quarantined)
    && PayloadPath(cfg, id) in now.fs && TreeAt(now.fs, PayloadPath(cfg, id)) == TreeAt(s.fs, c.path)
  }

  /** The candidates by the numbers of their actions. */
  function Numbered(first: nat, cs: seq<Candidate>): (m: map<nat, Candidate>)
    ensures forall id :: id in m <==> first <= id < first + |cs|
  {
    if cs == [] then map[] else Numbered(first, cs[..|cs| - 1])[first + |cs| - 1 := cs[|cs| - 1]]
  }

  lemma {:induction false} NumberedPush(first: nat, cs: seq<Candidate>, c: Candidate)
    ensures Numbered(first, cs + [c]) == Numbered(first, cs)[first + |cs| := c]
  {
    assert (cs + [c])[..|cs|] == cs;
  }

  lemma {:induction false} NumberedAt(first: nat, cs: seq<Candidate>, i: nat)
    requires i < |cs|
    ensures Numbered(first, cs)[first + i] == cs[i]
  {
    if i < |cs| - 1 { NumberedAt(first, cs[..|cs| - 1], i); }
  }

  ghost predicate AllHold(cfg: Config, s: State, batch: map<nat, Candidate>, now: State) {
    forall id {:trigger Holds(cfg, s, batch[id], id, now)} | id in batch :: Holds(cfg, s, batch[id], id, now)
  }

  ghost predicate OutsideIs(cfg: Config, s: State, cs: seq<Candidate>, fs: Fs) {
    forall q | OutsideQuarantine(cfg, q) :: (q in fs <==> q in s.fs && !Taken(cs, q)) && (q in fs ==> fs[q] == s.fs[q])
  }

  ghost predicate OldRows(s: State, now: State) {
    forall id: nat | id < s.nextId ::
      (id in now.rows <==> id in s.rows) && (id in s.rows ==> now.rows[id] == s.rows[id])
  }

  /** All candidates are in quarantine with their identity, and outside it nothing but them is gone. */
  ghost predicate AllTaken(cfg: Config, s: State, cs: seq<Candidate>, batch: map<nat, Candidate>, now: State) {
    && Prepared(cfg, now) && now.nextId == s.nextId + |cs|
    && cfg.quarantineRoot in s.fs && now.fs[cfg.quarantineRoot] == s.fs[cfg.quarantineRoot]
    && OutsideIs(cfg, s, cs, now.fs) && AllHold(cfg, s, batch, now) && OldRows(s, now)
  }

  lemma {:induction false} BelowIsOutside(cfg: Config, p: Path, q: Path)
    requires !Overlap(p, cfg.quarantineRoot) && p <= q
    ensures OutsideQuarantine(cfg, q)
  {
    if cfg.quarantineRoot <= q { PrefixesOverlap(p, cfg.quarantineRoot, q); }
  }

  /** A candidate that is apart from those taken is as it was. */
  lemma {:induction false} OthersUntouched(cfg: Config, s: State, cs: seq<Candidate>, now: State, c: Candidate)
    requires OutsideIs(cfg, s, cs, now.fs) && Sound(cfg, s.fs, c) && cfg.quarantineRoot in now.fs
    requires now.fs[cfg.quarantineRoot] == s.fs[cfg.quarantineRoot]
    requires forall i | 0 <= i < |cs| :: !Overlap(cs[i].path, c.path)
    ensures SameBelow(s.fs, now.fs, c.path) && TreeAt(now.fs, c.path) == TreeAt(s.fs, c.path) && Sound(cfg, now.fs, c)
  {
    forall q | c.path <= q ensures (q in s.fs <==> q in now.fs) && (q in s.fs ==> s.fs[q] == now.fs[q]) {
      BelowIsOutside(cfg, c.path, q);
      forall i | 0 <= i < |cs| ensures !(cs[i].path <= q) {
        if cs[i].path <= q { PrefixesOverlap(cs[i].path, c.path, q); }
      }
    }
    SameTree(s.fs, now.fs, c.path);
    assert c.path <= c.path;
  }

  lemma {:induction false} OtherDirIsKept(cfg: Config, now: State, c: Candidate, next: State, j: nat)
    requires Cleaned(cfg, now, c, next) && !Overlap(c.path, cfg.quarantineRoot) && j != now.nextId
    ensures SameBelow(now.fs, next.fs, ActionDir(cfg, j))
  {
    DirsApart(cfg, j, now.nextId);
    forall q | ActionDir(cfg, j) <= q
      ensures (q in now.fs <==> q in next.fs) && (q in now.fs ==> now.fs[q] == next.fs[q])
    {
      if ActionDir(cfg, now.nextId) <= q { PrefixesOverlap(ActionDir(cfg, j), ActionDir(cfg, now.nextId), q); }
      SoundIsClear(cfg, c, j);
      SourceIsApart(cfg, c, j, q);
    }
  }

  lemma {:induction false} StillPrepared(cfg: Config, now: State, c: Candidate, next: State)
    requires Prepared(cfg, now) && Cleaned(cfg, now, c, next) && !Overlap(c.path, cfg.quarantineRoot)
    ensures Prepared(cfg, next) && next.fs[cfg.quarantineRoot] == now.fs[cfg.quarantineRoot]
  {
    var root := cfg.quarantineRoot;
    assert |root| < |ActionDir(cfg, now.nextId)| && !(c.path <= root);
    assert root in next.fs && next.fs[root] == now.fs[root];
    forall j: nat | j >= next.nextId ensures ActionDir(cfg, j) !in next.fs {
      OtherDirIsKept(cfg, now, c, next, j);
      KeptPayload(cfg, now.fs, next.fs, j);
    }
  }

  lemma {:induction false} HoldsStill(cfg: Config, s: State, d: Candidate, id: nat, now: State, c: Candidate,
                                      next: State)
    requires Holds(cfg, s, d, id, now) && Cleaned(cfg, now, c, next) && !Overlap(c.path, cfg.quarantineRoot) &&
             id < now.nextId
    ensures Holds(cfg, s, d, id, next)
  {
    OtherDirIsKept(cfg, now, c, next, id);
    KeptPayload(cfg, now.fs, next.fs, id);
  }

  lemma {:induction false} TakenOneMore(cs: seq<Candidate>, c: Candidate, q: Path)
    ensures Taken(cs + [c], q) <==> Taken(cs, q) || c.path <= q
  {
    var all := cs + [c];
    if Taken(cs, q) {
      var i :| 0 <= i < |cs| && cs[i].path <= q;
      assert all[i].path <= q;
    }
    if c.path <= q { assert all[|cs|].path <= q; }
  }

  lemma {:induction false} OutsideOneMore(cfg: Config, s: State, cs: seq<Candidate>, now: State, c: Candidate,
                                          next: State)
    requires OutsideIs(cfg, s, cs, now.fs) && TakenOut(cfg, now.fs, next.fs, c.path, now.nextId)
    ensures OutsideIs(cfg, s, cs + [c], next.fs)
  {
    assert cfg.quarantineRoot <= ActionDir(cfg, now.nextId);
    forall q | OutsideQuarantine(cfg, q)
      ensures (q in next.fs <==> q in s.fs && !Taken(cs + [c], q)) && (q in next.fs ==> next.fs[q] == s.fs[q])
    {
      TakenOneMore(cs, c, q);
      assert !(ActionDir(cfg, now.nextId) <= q);
    }
  }

  lemma {:induction false} OldRowsOneMore(cfg: Config, s: State, now: State, c: Candidate, next: State)
    requires OldRows(s, now) && s.nextId <= now.nextId && Cleaned(cfg, now, c, next)
    ensures OldRows(s, next)
  {
  }

  lemma {:induction false} NewHolds(cfg: Config, s: State, now: State, c: Candidate, next: State)
    requires Cleaned(cfg, now, c, next) && TreeAt(now.fs, c.path) == TreeAt(s.fs, c.path)
    ensures Holds(cfg, s, c, now.nextId, next)
  {
  }

  lemma {:induction false} AllHoldOneMore(cfg: Config, s: State, batch: map<nat, Candidate>, now: State, c: Candidate,
                                          next: State)
    requires AllHold(cfg, s, batch, now) && forall id | id in batch :: id < now.nextId
    requires Cleaned(cfg, now, c, next) && TreeAt(now.fs, c.path) == TreeAt(s.fs, c.path)
    requires !Overlap(c.path, cfg.quarantineRoot)
    ensures AllHold(cfg, s, batch[now.nextId := c], next)
  {
    NewHolds(cfg, s, now, c, next);
    forall id | id in batch ensures Holds(cfg, s, batch[id], id, next) {
      assert Holds(cfg, s, batch[id], id, now);
      HoldsStill(cfg, s, batch[id], id, now, c, next);
    }
  }

  lemma {:induction false} OneMore(cfg: Config, s: State, cs: seq<Candidate>, batch: map<nat, Candidate>, now: State,
                                   c: Candidate, next: State)
    requires AllTaken(cfg, s, cs, batch, now) && (forall id | id in batch :: id < now.nextId)
    requires Cleaned(cfg, now, c, next) && TreeAt(now.fs, c.path) == TreeAt(s.fs, c.path)
    requires !Overlap(c.path, cfg.quarantineRoot)
    ensures AllTaken(cfg, s, cs + [c], batch[now.nextId := c], next)
  {
    StillPrepared(cfg, now, c, next);
    AllHoldOneMore(cfg, s, batch, now, c, next);
    OutsideOneMore(cfg, s, cs, now, c, next);
    OldRowsOneMore(cfg, s, now, c, next);
  }

  /** After part of the loop, the next candidate is as ready as it was before. */
  lemma {:induction false} NextIsReady(cfg: Config, s: State, front: seq<Candidate>, batch: map<nat, Candidate>,
                                       c: Candidate, now: State)
    requires AllTaken(cfg, s, front, batch, now) && Sound(cfg, s.fs, c)
    requires forall i | 0 <= i < |front| :: !Overlap(front[i].path, c.path)
    ensures Prepared(cfg, now) && Passing(cfg, now.fs, c) && Clear(cfg, c, now.nextId)
    ensures TreeAt(now.fs, c.path) == TreeAt(s.fs, c.path)
  {
    OthersUntouched(cfg, s, front, now, c);
    SoundIsClear(cfg, c, now.nextId);
  }

  lemma {:induction false} OneMoreRun(cfg: Config, s: State, front: seq<Candidate>, batch: map<nat, Candidate>,
                                      c: Candidate, now: State, run: seq<Event>)
    requires AllTaken(cfg, s, front, batch, now) && Sound(cfg, s.fs, c) && forall id | id in batch :: id < now.nextId
    requires forall i | 0 <= i < |front| :: !Overlap(front[i].path, c.path)
    requires AllProceed(run) && |run| >= CLEAN_STEPS
    ensures var next := Run(cfg, StartClean(now, c), run);
            AllTaken(cfg, s, front + [c], batch[now.nextId := c], next) && next.task == Resting(Succeeded)
  {
    NextIsReady(cfg, s, front, batch, c, now);
    PreparedIsFit(cfg, now, c);
    CleanSucceeds(cfg, now, c, run);
    OneMore(cfg, s, front, batch, now, c, Run(cfg, StartClean(now, c), run));
  }

  /** The loop has got as far as `cs`. */
  ghost predicate LoopDone(cfg: Config, s: State, cs: seq<Candidate>, now: State) {
    AllTaken(cfg, s, cs, Numbered(s.nextId, cs), now)
  }

  lemma {:induction false} OneMoreDone(cfg: Config, s: State, front: seq<Candidate>, c: Candidate, id: nat, next: State)
    requires id == s.nextId + |front| && AllTaken(cfg, s, front + [c], Numbered(s.nextId, front)[id := c], next)
    ensures LoopDone(cfg, s, front + [c], next)
  {
    NumberedPush(s.nextId, front, c);
  }

  lemma {:induction false} NothingTaken(cfg: Config, s: State)
    requires Prepared(cfg, s)
    ensures LoopDone(cfg, s, [], s)
  {
    assert forall q :: !Taken([], q);
  }

  /** Without failures the loop quarantines every candidate, each with the payload and fingerprint it had
      before the loop began, and takes nothing else. */
  lemma {:induction false} BatchSucceeds(cfg: Config, s: State, cs: seq<Candidate>, runs: seq<seq<Event>>)
    requires |cs| == |runs| && Executables(cfg, s, cs) && Smoothly(runs)
    ensures LoopDone(cfg, s, cs, After(cfg, s, cs, runs))
    ensures cs != [] ==> After(cfg, s, cs, runs).task == Resting(Succeeded)
  {
    if cs == [] {
      NothingTaken(cfg, s);
    } else {
      var n := |cs| - 1;
      BatchSucceeds(cfg, s, cs[..n], runs[..n]);
      OneMoreSucceeds(cfg, s, cs[..n], runs[..n], cs[n], runs[n]);
      assert cs[..n] + [cs[n]] == cs;
    }
  }

  lemma {:induction false} OneMoreSucceeds(cfg: Config, s: State, front: seq<Candidate>, runs: seq<seq<Event>>,
                                           c: Candidate, run: seq<Event>)
    requires |front| == |runs| && LoopDone(cfg, s, front, After(cfg, s, front, runs)) && Sound(cfg, s.fs, c)
    requires forall i | 0 <= i < |front| :: !Overlap(front[i].path, c.path)
    requires AllProceed(run) && |run| >= CLEAN_STEPS
    ensures var next := Run(cfg, StartClean(After(cfg, s, front, runs), c), run);
            LoopDone(cfg, s, front + [c], next) && next.task == Resting(Succeeded)
  {
    var now := After(cfg, s, front, runs);
    OneMoreRun(cfg, s, front, Numbered(s.nextId, front), c, now, run);
    OneMoreDone(cfg, s, front, c, now.nextId, Run(cfg, StartClean(now, c), run));
  }

  /** So the loop counts a success for each. */
  lemma {:induction false} BatchCountsAll(cfg: Config, s: State, cs: seq<Candidate>, runs: seq<seq<Event>>)
    requires |cs| == |runs| && Executables(cfg, s, cs) && Smoothly(runs)
    ensures Successes(cfg, s, cs, runs) == |cs|
  {
    if cs != [] {
      var n := |cs| - 1;
      BatchCountsAll(cfg, s, cs[..n], runs[..n]);
      BatchSucceeds(cfg, s, cs, runs);
    }
  }

  lemma {:induction false} SameHoldings(cfg: Config, s: State, cs: seq<Candidate>, ds: seq<Candidate>, i: nat, j: nat,
                                        a: State, b: State)
    requires AllHold(cfg, s, Numbered(s.nextId, cs), a) && AllHold(cfg, s, Numbered(s.nextId, ds), b)
    requires i < |cs| && j < |ds| && cs[i] == ds[j]
    ensures TreeAt(a.fs, PayloadPath(cfg, s.nextId + i)) == TreeAt(b.fs, PayloadPath(cfg, s.nextId + j))
    ensures s.nextId + i in a.rows && s.nextId + j in b.rows
    ensures a.rows[s.nextId + i].digest == b.rows[s.nextId + j].digest
  {
    NumberedAt(s.nextId, cs, i);
    NumberedAt(s.nextId, ds, j);
    assert Holds(cfg, s, Numbered(s.nextId, cs)[s.nextId + i], s.nextId + i, a);
    assert Holds(cfg, s, Numbered(s.nextId, ds)[s.nextId + j], s.nextId + j, b);
  }

  /** In whatever order the candidates are taken, the file system outside the quarantine is the same in the
      end, and so are each candidate's payload and fingerprint; only the action numbers differ. */
  lemma {:induction false} BatchIgnoresOrder(cfg: Config, s: State, cs: seq<Candidate>, runs: seq<seq<Event>>,
                                             ds: seq<Candidate>, others: seq<seq<Event>>)
    requires |cs| == |runs| && |ds| == |others| && (forall c :: c in cs <==> c in ds)
    requires Executables(cfg, s, cs) && Smoothly(runs) && Executables(cfg, s, ds) &&
             Smoothly(others)
    ensures var a, b := After(cfg, s, cs, runs), After(cfg, s, ds, others);
            && (forall q | OutsideQuarantine(cfg, q) ::
                  (q in a.fs <==> q in b.fs) && (q in a.fs ==> a.fs[q] == b.fs[q]))
            && forall i, j | 0 <= i < |cs| && 0 <= j < |ds| && cs[i] == ds[j] ::
                 && TreeAt(a.fs, PayloadPath(cfg, s.nextId + i)) == TreeAt(b.fs, PayloadPath(cfg, s.nextId + j))
                 && s.nextId + i in a.rows && s.nextId + j in b.rows
                 && a.rows[s.nextId + i].digest == b.rows[s.nextId + j].digest
  {
    BatchSucceeds(cfg, s, cs, runs);
    BatchSucceeds(cfg, s, ds, others);
    var a, b := After(cfg, s, cs, runs), After(cfg, s, ds, others);
    SameOutside(cfg, s, cs, ds, a.fs, b.fs);
    forall i, j | 0 <= i < |cs| && 0 <= j < |ds| && cs[i] == ds[j]
      ensures TreeAt(a.fs, PayloadPath(cfg, s.nextId + i)) == TreeAt(b.fs, PayloadPath(cfg, s.nextId + j))
      ensures s.nextId + i in a.rows && s.nextId + j in b.rows
      ensures a.rows[s.nextId + i].digest == b.rows[s.nextId + j].digest
    {
      SameHoldings(cfg, s, cs, ds, i, j, a, b);
    }
  }

  lemma {:induction false} SameOutside(cfg: Config, s: State, cs: seq<Candidate>, ds: seq<Candidate>, a: Fs, b: Fs)
    requires (forall c :: c in cs <==> c in ds) && OutsideIs(cfg, s, cs, a) && OutsideIs(cfg, s, ds, b)
    ensures forall q | OutsideQuarantine(cfg, q) :: (q in a <==> q in b) && (q in a ==> a[q] == b[q])
  {
    forall q | OutsideQuarantine(cfg, q) ensures (q in a <==> q in b) && (q in a ==> a[q] == b[q]) {
      SameTaken(cs, ds, q);
      SameTaken(ds, cs, q);
    }
  }

  lemma {:induction false} SameTaken(cs: seq<Candidate>, ds: seq<Candidate>, q: Path)
    requires forall c | c in cs :: c in ds
    ensures Taken(cs, q) ==> Taken(ds, q)
  {
    if Taken(cs, q) {
      var i :| 0 <= i < |cs| && cs[i].path <= q;
      assert cs[i] in ds;
    }
  }
}
