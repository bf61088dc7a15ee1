/** Several tidyfs processes on one database, serialized by the mutation lock: what holds in every reachable
    state, and what no sequence of commands loses. */
module Locking {
  import opened Base
  import opened FileSystem
  import opened Protocol
  import opened Safety
  import opened History

  datatype Command = Clean(candidate: Candidate) | Restore(id: nat) | Recover(id: nat)

  datatype World = World(fs: Fs, rows: Table, nextId: nat, holder: Option<nat>, tasks: map<nat, Task>)

  datatype Act =
    | Acquire(pid: nat)
    | Release(pid: nat)
    | Begin(pid: nat, command: Command)
    | Step(pid: nat, event: Event)
    | Others(fs: Fs)

  function View(w: World, t: Task): State {
    State(w.fs, w.rows, w.nextId, t)
  }

  function Launch(w: World, command: Command): State {
    var s := View(w, Resting(Idle));
    match command
    case Clean(c) => StartClean(s, c)
    case Restore(id) => StartRestore(s, id)
    case Recover(id) => StartRecover(s, id)
  }

  /** `try_lock` fails when the lock is held; a process that ends or dies lets go of it. */
  function Perform(cfg: Config, w: World, a: Act): World {
    match a
    case Acquire(pid) => if w.holder.None? then w.(holder := Some(pid)) else w
    case Release(pid) => if w.holder == Some(pid) && pid !in w.tasks then w.(holder := None) else w
    case Begin(pid, command) =>
      if w.holder == Some(pid) && pid !in w.tasks && Launch(w, command).task != Resting(Refused)
      then w.(tasks := w.tasks[pid := Launch(w, command).task]) else w
    case Step(pid, event) =>
      if pid !in w.tasks || event.Outside? then w
      else
        var s := Advance(cfg, View(w, w.tasks[pid]), event);
        World(s.fs, s.rows, s.nextId,
              if s.task == Resting(Died) && w.holder == Some(pid) then None else w.holder,
              if s.task.Resting? then w.tasks - {pid} else w.tasks[pid := s.task])
    case Others(fs') => w.(fs := fs')
  }

  function PerformAll(cfg: Config, w: World, acts: seq<Act>): World {
    if acts == [] then w else Perform(cfg, PerformAll(cfg, w, acts[..|acts| - 1]), acts[|acts| - 1])
  }

  /** H2 on the candidates, and interference only outside the quarantine root. */
  ghost predicate Permitted(cfg: Config, w: World, a: Act) {
    match a
    case Begin(_, Clean(c)) => OutsideQuarantine(cfg, c.path)
    case Others(fs') => WellFormed(fs') && SameBelow(w.fs, fs', cfg.quarantineRoot)
    case _ => true
  }

  ghost predicate AllPermitted(cfg: Config, w: World, acts: seq<Act>) {
    acts == [] ||
    (AllPermitted(cfg, w, acts[..|acts| - 1]) &&
     Permitted(cfg, PerformAll(cfg, w, acts[..|acts| - 1]), acts[|acts| - 1]))
  }

  /** The work of the lock holder. */
  function Active(w: World): Task {
    if w.holder.Some? && w.holder.value in w.tasks then w.tasks[w.holder.value] else Resting(Idle)
  }

  /** Mutual exclusion, and the protocol invariant for the one process that runs. */
  ghost predicate WorldInv(cfg: Config, w: World) {
    && (forall p | p in w.tasks :: w.holder == Some(p) && !w.tasks[p].Resting?)
    && Inv(cfg, View(w, Active(w)))
  }

  lemma {:induction false} StepActCarries(cfg: Config, w: World, pid: nat, event: Event)
    requires WorldInv(cfg, w) && pid in w.tasks && !event.Outside?
    ensures WorldInv(cfg, Perform(cfg, w, Step(pid, event)))
  {
    assert w.holder == Some(pid) && Active(w) == w.tasks[pid];
    StepCarries(cfg, View(w, w.tasks[pid]), event);
    var s := Advance(cfg, View(w, w.tasks[pid]), event);
    var w' := Perform(cfg, w, Step(pid, event));
    assert forall p | p in w'.tasks :: p == pid;
    if s.task.Resting? {
      assert Active(w') == Resting(Idle);
    } else {
      assert View(w', Active(w')) == s;
    }
  }

  lemma {:induction false} BeginCarries(cfg: Config, w: World, pid: nat, command: Command)
    requires WorldInv(cfg, w) && Permitted(cfg, w, Begin(pid, command))
    ensures WorldInv(cfg, Perform(cfg, w, Begin(pid, command)))
  {
    assert w.holder == Some(pid) && pid !in w.tasks ==> w.tasks == map[];
  }

  lemma {:induction false} ActCarries(cfg: Config, w: World, a: Act)
    requires WorldInv(cfg, w) && Permitted(cfg, w, a)
    ensures WorldInv(cfg, Perform(cfg, w, a))
  {
    match a
    case Step(pid, event) => if pid in w.tasks && !event.Outside? { StepActCarries(cfg, w, pid, event); }
    case Begin(pid, command) => BeginCarries(cfg, w, pid, command);
    case Others(fs') => OutsideCarries(cfg, View(w, Active(w)), fs');
    case _ => assert Active(Perform(cfg, w, a)) == Active(w);
  }

  lemma {:induction false} WorldCarries(cfg: Config, w: World, acts: seq<Act>)
    requires WorldInv(cfg, w) && AllPermitted(cfg, w, acts)
    ensures WorldInv(cfg, PerformAll(cfg, w, acts))
  {
    if acts != [] {
      WorldCarries(cfg, w, acts[..|acts| - 1]);
      ActCarries(cfg, PerformAll(cfg, w, acts[..|acts| - 1]), acts[|acts| - 1]);
    }
  }

  lemma {:induction false} ActKeepsTable(cfg: Config, w: World, a: Act)
    requires WorldInv(cfg, w) && Permitted(cfg, w, a)
    ensures TableStays(w.rows, Perform(cfg, w, a).rows)
  {
    if a.Step? && a.pid in w.tasks && !a.event.Outside? {
      assert Active(w) == w.tasks[a.pid];
      StepFollowsEdges(cfg, View(w, w.tasks[a.pid]), a.event);
    }
  }

  /** Over any sequence of commands by any processes, with crashes, failures and outside writers: no row is
      removed, no row's identity is rewritten, and restored and failed rows never change again. */
  lemma {:induction false} WorldKeepsTable(cfg: Config, w: World, acts: seq<Act>)
    requires WorldInv(cfg, w) && AllPermitted(cfg, w, acts)
    ensures TableStays(w.rows, PerformAll(cfg, w, acts).rows)
  {
    if acts != [] {
      var before := acts[..|acts| - 1];
      WorldKeepsTable(cfg, w, before);
      WorldCarries(cfg, w, before);
      ActKeepsTable(cfg, PerformAll(cfg, w, before), acts[|acts| - 1]);
      TableStaysTransitive(w.rows, PerformAll(cfg, w, before).rows, PerformAll(cfg, w, acts).rows);
    }
  }

  /** In every reachable state, whatever processes, crashes, database failures and outside writers did: at
      most one process runs; a `quarantined` row names its payload path, and the payload there has the row's
      fingerprint; `restored_at` is set exactly on restored rows.  Only a row that was in the table from the
      beginning can lack a fingerprint. */
  lemma {:induction false} QuarantinedMeansIntact(cfg: Config, w: World, acts: seq<Act>)
    requires WorldInv(cfg, w) && AllPermitted(cfg, w, acts)
    ensures var w' := PerformAll(cfg, w, acts);
            && (forall p, q | p in w'.tasks && q in w'.tasks :: p == q)
            && (forall id | id in w'.rows ::
                 var row := w'.rows[id];
                 && (row.status == Quarantined ==>
                     && row.quarantine == Some(PayloadPath(cfg, id))
                     && (row.digest.Some? ==> Intact(cfg, w'.fs, id, row.digest.value)))
                 && (row.digest.None? ==> id in w.rows && w.rows[id].digest.None?)
                 && (row.restoredAt.Some? <==> row.status == Restored))
  {
    WorldCarries(cfg, w, acts);
    WorldKeepsTable(cfg, w, acts);
    var w' := PerformAll(cfg, w, acts);
    forall id | id in w'.rows ensures RowOk(cfg, w'.fs, id, w'.rows[id]) {
      assert View(w', Active(w')).rows == w'.rows;
    }
    assert forall id | id in w.rows :: RowStays(w.rows[id], w'.rows[id]);
  }

  // No object is lost

  lemma {:induction false} ActKeepsObjects(cfg: Config, w: World, a: Act) returns (where: map<Path, Path>)
    requires WorldInv(cfg, w) && !a.Others? && ManifestsFree(cfg, View(w, Active(w)))
    ensures KeepsAll(w.fs, Perform(cfg, w, a).fs, where) && OneMove(w.fs, where)
  {
    if a.Step? && a.pid in w.tasks && !a.event.Outside? {
      assert Active(w) == w.tasks[a.pid];
      where := StepKeepsObjects(cfg, View(w, w.tasks[a.pid]), a.event);
    } else {
      StaysPut(w.fs, w.fs);
      where := Stay(w.fs);
    }
  }

  lemma {:induction false} ActKeepsManifestsFree(cfg: Config, w: World, a: Act)
    requires WorldInv(cfg, w) && Permitted(cfg, w, a) && !a.Others? && ManifestsFree(cfg, View(w, Active(w)))
    ensures ManifestsFree(cfg, View(Perform(cfg, w, a), Active(Perform(cfg, w, a))))
  {
    ActCarries(cfg, w, a);
    var w' := Perform(cfg, w, a);
    match a
    case Step(pid, event) =>
      if pid in w.tasks && !event.Outside? {
        assert w.holder == Some(pid) && Active(w) == w.tasks[pid];
        StepKeepsManifestsFree(cfg, View(w, w.tasks[pid]), event);
      }
    case Begin(pid, command) => assert Active(w') == Active(w) || Active(w') == Launch(w, command).task;
    case Acquire(_) => assert Active(w') == Active(w);
    case Release(_) => assert Active(w') == Active(w);
    case Others(_) =>
  }

  /** Conservation: no sequence of clean, restore and recover commands, by any processes, stopped and failing
      anywhere, removes or overwrites an object: every entry survives at its own place, with its node.  It
      takes that no manifest of an earlier table waits where one is still to be written. */
  lemma {:induction false} WorldKeepsObjects(cfg: Config, w: World, acts: seq<Act>) returns (where: map<Path, Path>)
    requires WorldInv(cfg, w) && AllPermitted(cfg, w, acts) && forall a | a in acts :: !a.Others?
    requires ManifestsFree(cfg, View(w, Active(w)))
    ensures KeepsAll(w.fs, PerformAll(cfg, w, acts).fs, where)
    ensures var w' := PerformAll(cfg, w, acts); ManifestsFree(cfg, View(w', Active(w')))
  {
    if acts == [] {
      StaysPut(w.fs, w.fs);
      where := Stay(w.fs);
    } else {
      var before, last := acts[..|acts| - 1], acts[|acts| - 1];
      var first := WorldKeepsObjects(cfg, w, before);
      WorldCarries(cfg, w, before);
      var middle := PerformAll(cfg, w, before);
      var second := ActKeepsObjects(cfg, middle, last);
      ActKeepsManifestsFree(cfg, middle, last);
      KeepsAllTransitive(w.fs, middle.fs, PerformAll(cfg, w, acts).fs, first, second);
      where := map p | p in w.fs && p in first && first[p] in second :: second[first[p]];
    }
  }

  /** An empty table over a file system without quarantine directories is a start. */
  lemma {:induction false} FreshIsGood(cfg: Config, fs: Fs)
    requires WellFormed(fs) && cfg.quarantineRoot !in fs
    ensures var w := World(fs, map[], 1, None, map[]);
            WorldInv(cfg, w) && ManifestsFree(cfg, View(w, Active(w)))
  {
    forall j: nat ensures PayloadPath(cfg, j) !in fs && ManifestPath(cfg, j) !in fs {
      AbsentBelowAbsent(fs, cfg.quarantineRoot, PayloadPath(cfg, j));
      AbsentBelowAbsent(fs, cfg.quarantineRoot, ManifestPath(cfg, j));
    }
  }
}
