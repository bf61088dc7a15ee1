/** Protected data from the index to the end of a clean run. */
module Protection {
  import opened Base
  import opened Policy
  import opened FileSystem
  import opened Protocol
  import opened Safety
  import opened Rules
  import opened Planning
  import opened Cleaning
  import A = Authority
  import B = Batch
  import S = Selection

  /** The rows of a clean run come from a plan with any proposals, in any order. */
  ghost predicate StoredFrom(q: A.PlanQuery, plan: seq<PlanRow>, evidence: Evidence, rows: seq<S.CleanRow>) {
    && A.Planned(q, plan)
    && A.SameRows(Inputs(EnrichAll(plan, evidence, q.max)), S.InputsOf(rows))
  }

  ghost predicate Protected(q: A.PlanQuery, item: Indexed, l: Bytes) {
    item in q.items && l in item.labels && A.ProtectedLabel(l)
  }

  lemma {:induction false} NoneAbove(q: A.PlanQuery, plan: seq<PlanRow>, evidence: Evidence, rows: seq<S.CleanRow>,
                                     ds: seq<Decision>, max: Risk, root: Option<Path>, chosen: seq<S.CleanRow>,
                                     item: Indexed, l: Bytes, i: nat)
    requires StoredFrom(q, plan, evidence, rows) && A.ReportsProtected(q.rules) && Protected(q, item, l)
    requires S.Chosen(rows, ds, max, root, chosen) && S.AllPayload(chosen) && i < |chosen|
    ensures !(chosen[i].row.target.path <= item.path)
  {
    var p := chosen[i].row.target.path;
    var k := S.ChosenIsAvailable(rows, ds, max, root, chosen, chosen[i], p);
    A.ProtectedDataIsSafe(q, plan, evidence, S.InputsOf(rows), ds, item, l, p, k);
  }

  /** Taking out `cs` leaves the tree at `p` as it is if and only if it takes nothing below it. */
  lemma {:induction false} TreeStaysIff(cfg: Config, s: State, cs: seq<Candidate>, fs': Fs, p: Path)
    requires B.OutsideIs(cfg, s, cs, fs') && !Overlap(p, cfg.quarantineRoot)
    requires forall i | 0 <= i < |cs| :: !(cs[i].path <= p) && cs[i].path in s.fs
    requires forall i | 0 <= i < |cs| :: OutsideQuarantine(cfg, cs[i].path)
    ensures TreeAt(fs', p) == TreeAt(s.fs, p) <==> forall i | 0 <= i < |cs| :: !StrictlyAbove(p, cs[i].path)
  {
    TreeAtContents(s.fs, p);
    TreeAtContents(fs', p);
    if i :| 0 <= i < |cs| && StrictlyAbove(p, cs[i].path) {
      var c := cs[i].path;
      SplitAt(p, c);
      assert B.Taken(cs, c) && c !in fs';
      assert c[|p|..] in TreeAt(s.fs, p) && c[|p|..] !in TreeAt(fs', p);
    } else {
      forall q | p <= q ensures (q in s.fs <==> q in fs') && (q in s.fs ==> s.fs[q] == fs'[q]) {
        B.BelowIsOutside(cfg, p, q);
        if B.Taken(cs, q) {
          var i :| 0 <= i < |cs| && cs[i].path <= q;
          PrefixesOverlap(cs[i].path, p, q);
        }
      }
      SameTree(s.fs, fs', p);
    }
  }

  /** From the index to the end of a clean: after a plan with any proposals, stored in any order, and an
      undisturbed clean of whichever of its allowed rows, every indexed path with a protected label is still
      there, with its node; and all it holds is, if and only if no chosen path lies inside it. */
  lemma {:induction false} ProtectedSurvivesClean(
    q: A.PlanQuery, plan: seq<PlanRow>, evidence: Evidence, rows: seq<S.CleanRow>, ds: seq<Decision>, max: Risk,
    root: Option<Path>, chosen: seq<S.CleanRow>, cfg: Config, s: State, runs: seq<seq<Event>>, item: Indexed, l: Bytes)
    requires StoredFrom(q, plan, evidence, rows) && A.ReportsProtected(q.rules) && Protected(q, item, l)
    requires S.Chosen(rows, ds, max, root, chosen) && S.AllPayload(chosen)
    requires Prepared(cfg, s) && (forall c | c in S.ToCandidates(chosen) :: B.Sound(cfg, s.fs, c))
    requires |runs| == |chosen| && B.Smoothly(runs)
    requires item.path in s.fs && !Overlap(item.path, cfg.quarantineRoot)
    ensures var after := B.After(cfg, s, S.ToCandidates(chosen), runs).fs;
            && item.path in after && after[item.path] == s.fs[item.path]
            && (TreeAt(after, item.path) == TreeAt(s.fs, item.path) <==>
                forall i | 0 <= i < |chosen| :: !StrictlyAbove(item.path, chosen[i].row.target.path))
  {
    var cs := S.ToCandidates(chosen);
    var after := B.After(cfg, s, cs, runs);
    S.CleanRunTakesExactlyTheChosen(rows, ds, max, root, chosen, cfg, s, runs);
    forall i | 0 <= i < |cs|
      ensures !(cs[i].path <= item.path) && cs[i].path in s.fs && OutsideQuarantine(cfg, cs[i].path)
      ensures cs[i].path == chosen[i].row.target.path
    {
      NoneAbove(q, plan, evidence, rows, ds, max, root, chosen, item, l, i);
      assert cs[i] in cs;
    }
    assert !B.Taken(cs, item.path);
    TreeStaysIff(cfg, s, cs, after.fs, item.path);
  }
}
