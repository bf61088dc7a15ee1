/** The recommender's own reading of the plan: which candidates it offers, and what may be selected. */
module Recommending {
  import opened Base
  import opened Order
  import opened Policy
  import opened Rules
  import opened Hierarchy

  datatype Error = NegativeSize(id: int) | InvalidRisk(id: int) | DuplicateId(id: int) | UnknownId(id: int)

  datatype Result<+T> = Ok(value: T) | Err(error: Error)

  /** A row of `cleanup_candidates`; a risk text that is none of the four levels reads as `None`. */
  datatype Stored = Stored(
    id: int,
    target: Target,
    rawSize: int,
    ruleId: Bytes,
    category: Bytes,
    risk: Option<Risk>,
    action: ActionType,
    reversible: bool,
    blocked: bool)

  datatype Persisted = Persisted(
    id: int,
    target: Target,
    size: nat,
    ruleId: Bytes,
    category: Bytes,
    risk: Risk,
    action: ActionType,
    reversible: bool,
    blocked: bool)

  datatype PlanCandidate = PlanCandidate(id: int, path: Path, size: nat, ruleId: Bytes, category: Bytes, risk: Risk)

  // Reading the rows

  predicate Readable(r: Stored) {
    r.rawSize >= 0 && r.risk.Some?
  }

  function Read(r: Stored): Persisted
    requires Readable(r)
  {
    Persisted(r.id, r.target, r.rawSize, r.ruleId, r.category, r.risk.value, r.action, r.reversible, r.blocked)
  }

  /** The rows within the root, or the first of them that cannot be read. */
  function ReadRows(rows: seq<Stored>, root: Option<Path>): Result<seq<Persisted>> {
    if rows == [] then Ok([])
    else if !Within(root, rows[0].target) then ReadRows(rows[1..], root)
    else if rows[0].rawSize < 0 then Err(NegativeSize(rows[0].id))
    else if rows[0].risk.None? then Err(InvalidRisk(rows[0].id))
    else
      var rest := ReadRows(rows[1..], root);
      if rest.Ok? then Ok([Read(rows[0])] + rest.value) else rest
  }

  function Prepend(read: seq<Persisted>, rest: Result<seq<Persisted>>): Result<seq<Persisted>> {
    match rest
    case Ok(more) => Ok(read + more)
    case Err(e) => Err(e)
  }

  lemma {:induction false} NextRow(rows: seq<Stored>, root: Option<Path>, i: nat)
    requires i < |rows|
    ensures var r, rest := rows[i], ReadRows(rows[i + 1..], root);
            ReadRows(rows[i..], root) ==
              if !Within(root, r.target) then rest
              else if r.rawSize < 0 then Err(NegativeSize(r.id))
              else if r.risk.None? then Err(InvalidRisk(r.id))
              else Prepend([Read(r)], rest)
  {
    assert rows[i..][1..] == rows[i + 1..] && rows[i..][0] == rows[i];
  }

  lemma {:induction false} PrependBoth(a: seq<Persisted>, b: seq<Persisted>, rest: Result<seq<Persisted>>)
    ensures Prepend(a, Prepend(b, rest)) == Prepend(a + b, rest)
    ensures Prepend([], rest) == rest
  {
    if rest.Ok? { assert a + (b + rest.value) == a + b + rest.value && [] + rest.value == rest.value; }
  }

  method Load(rows: seq<Stored>, root: Option<Path>) returns (result: Result<seq<Persisted>>)
    ensures result == ReadRows(rows, root)
  {
    var read: seq<Persisted> := [];
    assert rows[0..] == rows;
    PrependBoth([], [], ReadRows(rows, root));
    for i := 0 to |rows|
      invariant ReadRows(rows, root) == Prepend(read, ReadRows(rows[i..], root))
    {
      var r := rows[i];
      NextRow(rows, root, i);
      if !Within(root, r.target) {
        continue;
      }
      if r.rawSize < 0 {
        return Err(NegativeSize(r.id));
      }
      if r.risk.None? {
        return Err(InvalidRisk(r.id));
      }
      PrependBoth(read, [Read(r)], ReadRows(rows[i + 1..], root));
      read := read + [Read(r)];
    }
    assert rows[|rows|..] == [] && read + [] == read;
    result := Ok(read);
  }

  /** Reading succeeds exactly when every row within the root is readable, and gives exactly those rows. */
  lemma {:induction false} ReadRowsSays(rows: seq<Stored>, root: Option<Path>)
    ensures ReadRows(rows, root).Ok? <==> forall r | r in rows && Within(root, r.target) :: Readable(r)
    ensures ReadRows(rows, root).Ok? ==>
              forall q :: q in ReadRows(rows, root).value <==>
                          exists r :: r in rows && Within(root, r.target) && Readable(r) && q == Read(r)
    ensures forall r | Readable(r) ::
              var q := Read(r);
              && q.id == r.id && q.target == r.target && q.size == r.rawSize && q.ruleId == r.ruleId
              && q.category == r.category && Some(q.risk) == r.risk && q.action == r.action
              && q.reversible == r.reversible && q.blocked == r.blocked
  {
    if rows != [] {
      ReadRowsSays(rows[1..], root);
      assert rows == [rows[0]] + rows[1..];
      assert forall r :: r in rows <==> r == rows[0] || r in rows[1..];
    }
  }

  /** The error is that of the first row within the root that has a negative size or no risk. */
  lemma {:induction false} FirstUnreadable(rows: seq<Stored>, root: Option<Path>) returns (n: nat)
    requires ReadRows(rows, root).Err?
    ensures n < |rows| && (root.None? || (rows[n].target.Payload? && root.value <= rows[n].target.path))
    ensures rows[n].rawSize < 0 || rows[n].risk.None?
    ensures ReadRows(rows, root).error ==
            if rows[n].rawSize < 0 then NegativeSize(rows[n].id) else InvalidRisk(rows[n].id)
    ensures forall r | r in rows[..n] && (root.None? || (r.target.Payload? && root.value <= r.target.path)) ::
              r.rawSize >= 0 && r.risk.Some?
  {
    if Within(root, rows[0].target) && !Readable(rows[0]) {
      n := 0;
    } else {
      var m := FirstUnreadable(rows[1..], root);
      n := m + 1;
      assert rows[..n] == [rows[0]] + rows[1..][..m];
    }
  }

  // What a path offers

  predicate Of(ps: seq<Persisted>, q: Persisted, p: Path) {
    q in ps && q.target == Payload(p)
  }

  ghost predicate LeafMost(ps: seq<Persisted>, p: Path) {
    forall q, s | Of(ps, q, s) :: !StrictlyAbove(p, s)
  }

  predicate Permissive(q: Persisted) {
    !q.blocked && q.reversible && q.action == Quarantine
  }

  ghost predicate Available(ps: seq<Persisted>, max: Risk, p: Path) {
    && (exists q :: Of(ps, q, p))
    && LeafMost(ps, p)
    && forall q | Of(ps, q, p) :: Permissive(q) && RiskAllows(q.risk, max)
  }

  predicate FirstBy(a: Persisted, b: Persisted) {
    if a.ruleId == b.ruleId then a.id <= b.id else TextLe(a.ruleId, b.ruleId)
  }

  /** The row that stands for a path: among those of the highest risk, the first by rule and id. */
  ghost predicate Represents(ps: seq<Persisted>, p: Path, rep: Persisted) {
    && Of(ps, rep, p)
    && forall q | Of(ps, q, p) :: q.risk.Rank() < rep.risk.Rank() || (q.risk == rep.risk && FirstBy(rep, q))
  }

  ghost predicate Offers(ps: seq<Persisted>, max: Risk, c: PlanCandidate) {
    && Available(ps, max, c.path)
    && (exists rep :: Represents(ps, c.path, rep)
          && c.id == rep.id && c.ruleId == rep.ruleId && c.category == rep.category && c.risk == rep.risk)
    && (exists q :: Of(ps, q, c.path) && q.size == c.size)
    && (forall q | Of(ps, q, c.path) :: q.size <= c.size)
  }

  /** One candidate for every available path, and no other. */
  ghost predicate Complete(ps: seq<Persisted>, max: Risk, all: seq<PlanCandidate>) {
    && (forall c | c in all :: Offers(ps, max, c))
    && (forall p | Available(ps, max, p) :: exists c :: c in all && c.path == p)
    && (forall i, j | 0 <= i < j < |all| :: all[i].path != all[j].path)
  }

  // load_eligible_candidates

  predicate GroupOf(ps: seq<Persisted>, p: Path, group: seq<Persisted>) {
    && group != []
    && (forall q | q in ps && q.target == Payload(p) :: q in group)
    && (forall q | q in group :: Of(ps, q, p))
  }

  method GroupRows(ps: seq<Persisted>) returns (groups: map<Path, seq<Persisted>>)
    ensures forall p | p in groups :: GroupOf(ps, p, groups[p])
    ensures forall q | q in ps && q.target.Payload? :: q.target.path in groups
  {
    groups := map[];
    for i := 0 to |ps|
      invariant forall p | p in groups :: GroupOf(ps[..i], p, groups[p])
      invariant forall q | q in ps[..i] && q.target.Payload? :: q.target.path in groups
    {
      var q := ps[i];
      assert ps[..i + 1] == ps[..i] + [q];
      if q.target.Payload? {
        var p := q.target.path;
        groups := groups[p := (if p in groups then groups[p] else []) + [q]];
      }
    }
    assert ps[..|ps|] == ps;
  }

  lemma {:induction false} FirstByTotal(a: Persisted, b: Persisted)
    ensures FirstBy(a, b) || FirstBy(b, a)
    ensures FirstBy(a, b) && FirstBy(b, a) ==> a.ruleId == b.ruleId && a.id == b.id
  {
    TextLeTotal(a.ruleId, b.ruleId);
    if TextLe(a.ruleId, b.ruleId) && TextLe(b.ruleId, a.ruleId) { TextLeAntisymmetric(a.ruleId, b.ruleId); }
  }

  lemma {:induction false} FirstByTransitive(a: Persisted, b: Persisted, c: Persisted)
    requires FirstBy(a, b) && FirstBy(b, c)
    ensures FirstBy(a, c)
  {
    if a.ruleId != b.ruleId && b.ruleId != c.ruleId {
      TextLeTransitive(a.ruleId, b.ruleId, c.ruleId);
      if a.ruleId == c.ruleId { TextLeAntisymmetric(a.ruleId, b.ruleId); }
    }
  }

  /** The maximum, whether anything forbids the path, and the largest size. */
  method Summarize(group: seq<Persisted>) returns (risk: Risk, restricted: bool, size: nat)
    requires group != []
    ensures (exists q :: q in group && q.risk == risk) && forall q | q in group :: q.risk.Rank() <= risk.Rank()
    ensures restricted <==> exists q :: q in group && !Permissive(q)
    ensures (exists q :: q in group && q.size == size) && forall q | q in group :: q.size <= size
  {
    risk, restricted, size := group[0].risk, !Permissive(group[0]), group[0].size;
    for i := 1 to |group|
      invariant exists q :: q in group[..i] && q.risk == risk
      invariant forall q | q in group[..i] :: q.risk.Rank() <= risk.Rank() && q.size <= size
      invariant restricted <==> exists q :: q in group[..i] && !Permissive(q)
      invariant exists q :: q in group[..i] && q.size == size
    {
      assert group[..i + 1] == group[..i] + [group[i]];
      risk := MaxRisk(risk, group[i].risk);
      restricted := restricted || !Permissive(group[i]);
      if group[i].size > size { size := group[i].size; }
    }
    assert group[..|group|] == group;
  }

  method Representative(group: seq<Persisted>, risk: Risk) returns (rep: Persisted)
    requires exists q :: q in group && q.risk == risk
    ensures rep in group && rep.risk == risk && forall q | q in group && q.risk == risk :: FirstBy(rep, q)
  {
    var best: Option<Persisted> := None;
    for i := 0 to |group|
      invariant best.None? ==> forall q | q in group[..i] :: q.risk != risk
      invariant best.Some? ==> best.value in group && best.value.risk == risk
                               && forall q | q in group[..i] && q.risk == risk :: FirstBy(best.value, q)
    {
      var q := group[i];
      assert group[..i + 1] == group[..i] + [q];
      if q.risk == risk {
        if best.None? {
          best := Some(q);
        } else {
          FirstByTotal(best.value, q);
          if !FirstBy(best.value, q) {
            forall r | r in group[..i] && r.risk == risk ensures FirstBy(q, r) {
              FirstByTransitive(q, best.value, r);
            }
            best := Some(q);
          }
        }
      }
    }
    assert group[..|group|] == group;
    rep := best.value;
  }

  /** One path: the quadratic look for anything below it, then its rows. */
  method Consider(ps: seq<Persisted>, groups: map<Path, seq<Persisted>>, p: Path,
                  max: Risk) returns (c: Option<PlanCandidate>)
    requires forall s | s in groups :: GroupOf(ps, s, groups[s])
    requires forall q | q in ps && q.target.Payload? :: q.target.path in groups
    requires p in groups
    ensures c.Some? <==> Available(ps, max, p)
    ensures c.Some? ==> c.value.path == p && Offers(ps, max, c.value)
  {
    var group := groups[p];
    assert Of(ps, group[0], p) by { assert group[0] in group; }
    var others := groups.Keys;
    while others != {}
      invariant others <= groups.Keys
      invariant forall s | s in groups.Keys - others :: !StrictlyAbove(p, s)
    {
      var s :| s in others;
      if StrictlyAbove(p, s) {
        assert Of(ps, groups[s][0], s) by { assert groups[s][0] in groups[s]; }
        return None;
      }
      others := others - {s};
    }
    assert LeafMost(ps, p) by {
      assert forall s | s in groups :: s in groups.Keys - others;
    }
    var risk, restricted, size := Summarize(group);
    assert forall q :: Of(ps, q, p) <==> q in group;
    if restricted || !RiskAllows(risk, max) {
      return None;
    }
    var rep := Representative(group, risk);
    assert Represents(ps, p, rep);
    c := Some(PlanCandidate(rep.id, p, size, rep.ruleId, rep.category, risk));
  }

  ghost predicate Covers(ps: seq<Persisted>, max: Risk, done: set<Path>, all: seq<PlanCandidate>) {
    forall p | p in done && Available(ps, max, p) :: exists c :: c in all && c.path == p
  }

  predicate DistinctPaths(all: seq<PlanCandidate>) {
    forall i, j | 0 <= i < j < |all| :: all[i].path != all[j].path
  }

  /** The candidates for the paths in `done`. */
  ghost predicate CompleteFor(ps: seq<Persisted>, max: Risk, done: set<Path>, all: seq<PlanCandidate>) {
    && (forall c | c in all :: Offers(ps, max, c) && c.path in done)
    && Covers(ps, max, done, all)
    && DistinctPaths(all)
  }

  lemma {:induction false} OneMoreCovers(ps: seq<Persisted>, max: Risk, done: set<Path>, all: seq<PlanCandidate>,
                                         c: PlanCandidate)
    requires Covers(ps, max, done, all)
    ensures Covers(ps, max, done + {c.path}, all + [c])
  {
    var more := all + [c];
    forall p | p in done + {c.path} && Available(ps, max, p) ensures exists x :: x in more && x.path == p {
      if p == c.path {
        assert more[|all|] == c;
      } else {
        var x :| x in all && x.path == p;
        assert x in more;
      }
    }
  }

  lemma {:induction false} OneMoreDistinct(done: set<Path>, all: seq<PlanCandidate>, c: PlanCandidate)
    requires DistinctPaths(all) && c.path !in done && forall i | 0 <= i < |all| :: all[i].path in done
    ensures DistinctPaths(all + [c])
  {
  }

  lemma {:induction false} OneMorePath(ps: seq<Persisted>, max: Risk, done: set<Path>, all: seq<PlanCandidate>,
                                       c: PlanCandidate)
    requires CompleteFor(ps, max, done, all) && c.path !in done && Offers(ps, max, c)
    ensures CompleteFor(ps, max, done + {c.path}, all + [c])
  {
    forall i | 0 <= i < |all| ensures all[i].path in done {
      assert all[i] in all;
    }
    OneMoreCovers(ps, max, done, all, c);
    OneMoreDistinct(done, all, c);
    assert forall x :: x in all + [c] <==> x in all || x == c;
  }

  lemma {:induction false} OneMoreWithout(ps: seq<Persisted>, max: Risk, done: set<Path>, all: seq<PlanCandidate>,
                                          p: Path)
    requires CompleteFor(ps, max, done, all) && !Available(ps, max, p)
    ensures CompleteFor(ps, max, done + {p}, all)
  {
  }

  method Candidates(ps: seq<Persisted>, max: Risk) returns (all: seq<PlanCandidate>)
    ensures Complete(ps, max, all)
  {
    var groups := GroupRows(ps);
    all := [];
    var todo := groups.Keys;
    while todo != {}
      invariant todo <= groups.Keys && CompleteFor(ps, max, groups.Keys - todo, all)
    {
      var p :| p in todo;
      var c := Consider(ps, groups, p, max);
      assert groups.Keys - (todo - {p}) == groups.Keys - todo + {p};
      if c.Some? {
        OneMorePath(ps, max, groups.Keys - todo, all, c.value);
        all := all + [c.value];
      } else {
        OneMoreWithout(ps, max, groups.Keys - todo, all, p);
      }
      todo := todo - {p};
    }
    assert groups.Keys - todo == groups.Keys;
  }

  // Truncation to the largest

  predicate SizeOrder(a: PlanCandidate, b: PlanCandidate) {
    if a.size != b.size then a.size > b.size
    else if a.path != b.path then PathLe(a.path, b.path)
    else a.id <= b.id
  }

  predicate IdOrder(a: PlanCandidate, b: PlanCandidate) {
    a.id <= b.id
  }

  lemma {:induction false} SizeOrderIsTotal()
    ensures TotalOrder(SizeOrder)
  {
    forall a, b ensures SizeOrder(a, b) || SizeOrder(b, a) {
      PathLeTotal(a.path, b.path);
    }
    forall a, b, c | SizeOrder(a, b) && SizeOrder(b, c) ensures SizeOrder(a, c) {
      if a.size == b.size == c.size && a.path != b.path && b.path != c.path {
        PathLeTransitive(a.path, b.path, c.path);
        PathLeTotal(a.path, b.path);
      }
    }
  }

  function Truncate<T>(s: seq<T>, limit: nat): seq<T> {
    if |s| <= limit then s else s[..limit]
  }

  /** The `limit` largest, equal sizes by path and id, in id order. */
  ghost predicate Largest(all: seq<PlanCandidate>, limit: nat, cs: seq<PlanCandidate>) {
    && |cs| == (if |all| <= limit then |all| else limit)
    && multiset(cs) <= multiset(all)
    && (forall c, d | c in cs && d in all && d !in cs :: SizeOrder(c, d))
    && SortedBy(IdOrder, cs)
  }

  lemma {:induction false} SortedBySize(all: seq<PlanCandidate>)
    ensures SortedBy(SizeOrder, SortBy(SizeOrder, all))
  {
    SizeOrderIsTotal();
    SortBySorts(SizeOrder, all);
  }

  lemma {:induction false} SortedById(all: seq<PlanCandidate>)
    ensures SortedBy(IdOrder, SortBy(IdOrder, all))
  {
    assert TotalOrder(IdOrder);
    SortBySorts(IdOrder, all);
  }

  lemma {:induction false} TruncationKeepsLargest(all: seq<PlanCandidate>, limit: nat)
    ensures Largest(all, limit, SortBy(IdOrder, Truncate(SortBy(SizeOrder, all), limit)))
  {
    var sorted := SortBy(SizeOrder, all);
    var kept := Truncate(sorted, limit);
    var cs := SortBy(IdOrder, kept);
    SortedBySize(all);
    SortedById(kept);
    assert |sorted| == |multiset(sorted)| == |multiset(all)| == |all|;
    assert |cs| == |multiset(cs)| == |multiset(kept)| == |kept|;
    assert sorted == kept + sorted[|kept|..];
    assert multiset(sorted) == multiset(kept) + multiset(sorted[|kept|..]);
    forall c, d | c in cs && d in all && d !in cs ensures SizeOrder(c, d) {
      assert c in multiset(kept) && d in multiset(sorted) && d !in multiset(kept);
      KeptBefore(sorted, |kept|, c, d);
    }
  }

  /** No dropped candidate is larger than a kept one, and the kept ones are in id order. */
  lemma {:induction false} LargestMeans(all: seq<PlanCandidate>, limit: nat, cs: seq<PlanCandidate>)
    requires Largest(all, limit, cs)
    ensures forall c, d | c in cs && d in all && d !in cs ::
              c.size > d.size || (c.size == d.size && PathLe(c.path, d.path))
    ensures forall i, j | 0 <= i < j < |cs| :: cs[i].id <= cs[j].id
  {
    forall c, d | c in cs && d in all && d !in cs
      ensures c.size > d.size || (c.size == d.size && PathLe(c.path, d.path))
    {
      PathLeTotal(c.path, c.path);
      assert SizeOrder(c, d);
    }
    forall i, j | 0 <= i < j < |cs| ensures cs[i].id <= cs[j].id {
      assert IdOrder(cs[i], cs[j]);
    }
  }

  lemma {:induction false} KeptBefore(sorted: seq<PlanCandidate>, n: nat, c: PlanCandidate, d: PlanCandidate)
    requires n <= |sorted| && SortedBy(SizeOrder, sorted) && c in sorted[..n] && d in sorted && d !in sorted[..n]
    ensures SizeOrder(c, d)
  {
    var i :| 0 <= i < n && sorted[i] == c;
    assert sorted == sorted[..n] + sorted[n..] && d in sorted[n..];
    var j :| n <= j < |sorted| && sorted[j] == d;
  }

  /** `load_eligible_candidates`. */
  method LoadEligible(rows: seq<Stored>, root: Option<Path>, max: Risk, limit: nat)
    returns (result: Result<seq<PlanCandidate>>, ghost all: seq<PlanCandidate>)
    ensures ReadRows(rows, root).Err? ==> result == Err(ReadRows(rows, root).error)
    ensures ReadRows(rows, root).Ok? ==>
              result.Ok? && Complete(ReadRows(rows, root).value, max, all) && Largest(all, limit, result.value)
    ensures result.Ok? ==> forall c, d | c in result.value && d in all && d !in result.value ::
              c.size > d.size || (c.size == d.size && PathLe(c.path, d.path))
    ensures result.Ok? ==> forall i, j | 0 <= i < j < |result.value| :: result.value[i].id <= result.value[j].id
  {
    var read := Load(rows, root);
    if read.Err? {
      all := [];
      return Err(read.error), all;
    }
    var candidates := Candidates(read.value, max);
    all := candidates;
    TruncationKeepsLargest(all, limit);
    result := Ok(SortBy(IdOrder, Truncate(SortBy(SizeOrder, candidates), limit)));
    LargestMeans(all, limit, result.value);
  }

  // Against the canonicalizer

  /** What the canonicalizer is given for the stored rows. */
  predicate Reads(inputs: seq<Input>, rows: seq<Stored>) {
    && |inputs| == |rows|
    && forall i | 0 <= i < |rows| ::
         && Readable(rows[i])
         && inputs[i].target == rows[i].target && inputs[i].risk == rows[i].risk.value
         && inputs[i].blocked == rows[i].blocked && inputs[i].reversible == rows[i].reversible
         && inputs[i].action == rows[i].action && inputs[i].ruleId == rows[i].ruleId
  }

  predicate InIdOrder(rows: seq<Stored>) {
    forall i, j | 0 <= i < j < |rows| :: rows[i].id < rows[j].id
  }

  ghost predicate SameStored(a: seq<Stored>, b: seq<Stored>) {
    forall r :: r in a <==> r in b
  }

  /** The persisted rows of a path within the root are the canonicalizer's rows of it. */
  lemma {:induction false} RowsCorrespond(rows: seq<Stored>, read: seq<Stored>, inputs: seq<Input>, root: Option<Path>,
                                          p: Path)
    requires SameStored(rows, read) && Reads(inputs, rows) && ReadRows(read, root).Ok? && Within(root, Payload(p))
    ensures var ps := ReadRows(read, root).value;
            && (forall i: nat | IsRow(inputs, i, p) :: Of(ps, Read(rows[i]), p))
            && (forall q | Of(ps, q, p) :: exists i: nat :: IsRow(inputs, i, p) && Read(rows[i]) == q)
  {
    var ps := ReadRows(read, root).value;
    ReadRowsSays(read, root);
    forall i: nat | IsRow(inputs, i, p) ensures Of(ps, Read(rows[i]), p) {
      assert rows[i] in rows;
    }
    forall q | Of(ps, q, p) ensures exists i: nat :: IsRow(inputs, i, p) && Read(rows[i]) == q {
      var r :| r in read && Within(root, r.target) && Readable(r) && q == Read(r);
      assert r in rows;
      var i: nat :| i < |rows| && rows[i] == r;
      assert IsRow(inputs, i, p);
    }
  }

  lemma {:induction false} OutsideMeansNone(read: seq<Stored>, root: Option<Path>, q: Persisted, p: Path)
    requires ReadRows(read, root).Ok? && Of(ReadRows(read, root).value, q, p)
    ensures Within(root, Payload(p))
  {
    ReadRowsSays(read, root);
  }

  /** A path within the root is leaf-most among the rows within the root exactly when it is among all. */
  lemma {:induction false} RootFilterCommutes(rows: seq<Stored>, read: seq<Stored>, inputs: seq<Input>,
                                              root: Option<Path>, p: Path)
    requires SameStored(rows, read) && Reads(inputs, rows) && ReadRows(read, root).Ok? && Within(root, Payload(p))
    ensures LeafMost(ReadRows(read, root).value, p) <==> !HasRowBelow(inputs, p)
  {
    var ps := ReadRows(read, root).value;
    if HasRowBelow(inputs, p) {
      var i: nat, s :| IsRow(inputs, i, s) && StrictlyAbove(p, s);
      RowsCorrespond(rows, read, inputs, root, s);
      assert Of(ps, Read(rows[i]), s);
    }
    forall q, s | Of(ps, q, s) && !HasRowBelow(inputs, p) ensures !StrictlyAbove(p, s) {
      OutsideMeansNone(read, root, q, s);
      RowsCorrespond(rows, read, inputs, root, s);
      var i: nat :| IsRow(inputs, i, s) && Read(rows[i]) == q;
    }
  }

  predicate AllQuarantine(rows: seq<Stored>, p: Path) {
    forall i | 0 <= i < |rows| && rows[i].target == Payload(p) :: rows[i].action == Quarantine
  }

  /** The shared hypotheses about one path within the root and its decision. */
  ghost predicate Comparable(rows: seq<Stored>, read: seq<Stored>, inputs: seq<Input>, root: Option<Path>,
                             ds: seq<Decision>, k: nat, p: Path)
  {
    && SameStored(rows, read) && Reads(inputs, rows) && ReadRows(read, root).Ok? && Within(root, Payload(p))
    && Canonical(inputs, ds) && Decides(inputs, ds, k, p)
  }

  lemma {:induction false} OfferedIsAvailable(rows: seq<Stored>, read: seq<Stored>, inputs: seq<Input>,
                                              root: Option<Path>, max: Risk,
                           ds: seq<Decision>, k: nat, p: Path)
    requires Comparable(rows, read, inputs, root, ds, k, p) && Available(ReadRows(read, root).value, max, p)
    ensures !ds[k].blocked && AllQuarantine(rows, p) && RiskAllows(ds[k].risk, max)
  {
    var ps := ReadRows(read, root).value;
    RowsCorrespond(rows, read, inputs, root, p);
    RootFilterCommutes(rows, read, inputs, root, p);
    assert Rightful(inputs, ds[k]) && IsRow(inputs, ds[k].source, p);
    assert Of(ps, Read(rows[ds[k].source]), p);
    forall i: nat | IsRow(inputs, i, p) ensures !Restrictive(inputs[i]) && rows[i].action == Quarantine {
      assert Of(ps, Read(rows[i]), p);
    }
    assert forall i: nat | i < |rows| && rows[i].target == Payload(p) :: IsRow(inputs, i, p);
  }

  lemma {:induction false} AvailableIsOffered(rows: seq<Stored>, read: seq<Stored>, inputs: seq<Input>,
                                              root: Option<Path>, max: Risk,
                           ds: seq<Decision>, k: nat, p: Path)
    requires Comparable(rows, read, inputs, root, ds, k, p)
    requires !ds[k].blocked && AllQuarantine(rows, p) && RiskAllows(ds[k].risk, max)
    ensures Available(ReadRows(read, root).value, max, p)
  {
    var ps := ReadRows(read, root).value;
    RowsCorrespond(rows, read, inputs, root, p);
    RootFilterCommutes(rows, read, inputs, root, p);
    ExactMeaning(inputs, ds, k, p);
    assert Rightful(inputs, ds[k]) && IsRow(inputs, ds[k].source, p);
    assert Of(ps, Read(rows[ds[k].source]), p);
    forall q | Of(ps, q, p) ensures Permissive(q) && RiskAllows(q.risk, max) {
      var i: nat :| IsRow(inputs, i, p) && Read(rows[i]) == q;
    }
  }

  lemma {:induction false} RepresentativeAgrees(rows: seq<Stored>, read: seq<Stored>, inputs: seq<Input>,
                                                root: Option<Path>, max: Risk,
                             ds: seq<Decision>, k: nat, p: Path, rep: Persisted)
    requires Comparable(rows, read, inputs, root, ds, k, p) && InIdOrder(rows)
    requires Available(ReadRows(read, root).value, max, p) && Represents(ReadRows(read, root).value, p, rep)
    ensures rep == Read(rows[ds[k].source]) && rep.risk == ds[k].risk
  {
    RowsCorrespond(rows, read, inputs, root, p);
    var s := ds[k].source;
    assert Rightful(inputs, ds[k]) && IsRow(inputs, s, p);
    var q := Read(rows[s]);
    var i: nat :| IsRow(inputs, i, p) && Read(rows[i]) == rep;
    assert Before(inputs, s, i);
    assert Permissive(q) && Permissive(rep);
    assert q.risk == rep.risk;
    if q.ruleId != rep.ruleId {
      TextLeAntisymmetric(q.ruleId, rep.ruleId);
    }
    assert s <= i && rep.id <= q.id;
    assert s == i;
  }

  /** For any root and any readable rows, the paths offered before truncation are the available decisions
      within the root whose rows are all quarantine and whose risk is allowed; each has the risk and the
      representative row of the canonicalizer given the rows in id order. */
  lemma {:induction false} ImplementationsAgree(rows: seq<Stored>, read: seq<Stored>, inputs: seq<Input>,
                                                root: Option<Path>, max: Risk,
                             all: seq<PlanCandidate>, ds: seq<Decision>, p: Path)
    requires SameStored(rows, read) && Reads(inputs, rows) && InIdOrder(rows) && ReadRows(read, root).Ok?
    requires Complete(ReadRows(read, root).value, max, all) && Canonical(inputs, ds)
    ensures (exists c :: c in all && c.path == p) <==>
              Within(root, Payload(p)) &&
              exists k: nat ::
                Decides(inputs, ds, k, p) && !ds[k].blocked && AllQuarantine(rows, p) && RiskAllows(ds[k].risk, max)
    ensures forall c, k: nat | c in all && c.path == p && Decides(inputs, ds, k, p) ::
              c.id == rows[ds[k].source].id && c.risk == ds[k].risk
  {
    var ps := ReadRows(read, root).value;
    OneDecisionPerPath(inputs, ds, p);
    if Within(root, Payload(p)) {
      forall k: nat | Decides(inputs, ds, k, p)
        ensures Available(ps, max, p) <==> !ds[k].blocked && AllQuarantine(rows, p) && RiskAllows(ds[k].risk, max)
      {
        if Available(ps, max, p) {
          OfferedIsAvailable(rows, read, inputs, root, max, ds, k, p);
        } else if !ds[k].blocked && AllQuarantine(rows, p) && RiskAllows(ds[k].risk, max) {
          AvailableIsOffered(rows, read, inputs, root, max, ds, k, p);
        }
      }
    }
    forall c | c in all && c.path == p
      ensures Within(root, Payload(p)) && exists k: nat :: Decides(inputs, ds, k, p)
    {
      var q :| Of(ps, q, p);
      OutsideMeansNone(read, root, q, p);
      RowsCorrespond(rows, read, inputs, root, p);
      var i: nat :| IsRow(inputs, i, p) && Read(rows[i]) == q;
      assert HasRow(inputs, p);
      var k :| Decides(inputs, ds, k, p);
      var n: nat := k;
      assert Decides(inputs, ds, n, p);
    }
    forall c, k: nat | c in all && c.path == p && Decides(inputs, ds, k, p)
      ensures c.id == rows[ds[k].source].id && c.risk == ds[k].risk
    {
      var rep :| Represents(ps, p, rep) && c.id == rep.id && c.ruleId == rep.ruleId && c.category == rep.category &&
        c.risk == rep.risk;
      RepresentativeAgrees(rows, read, inputs, root, max, ds, k, p, rep);
    }
  }

  // select_recommended_candidates and selected_reclaim_bytes

  predicate Known(current: seq<PlanCandidate>, id: int) {
    exists c :: c in current && c.id == id
  }

  predicate Distinct(ids: seq<int>) {
    forall i, j | 0 <= i < j < |ids| :: ids[i] != ids[j]
  }

  predicate Acceptable(current: seq<PlanCandidate>, ids: seq<int>) {
    Distinct(ids) && forall id | id in ids :: Known(current, id)
  }

  /** The selection in the order of the ids, or the first id that repeats or is not offered. */
  method Select(current: seq<PlanCandidate>, ids: seq<int>) returns (result: Result<seq<PlanCandidate>>)
    ensures result.Ok? <==> Acceptable(current, ids)
    ensures result.Ok? ==> |result.value| == |ids|
    ensures result.Ok? ==> forall i | 0 <= i < |ids| :: result.value[i] in current && result.value[i].id == ids[i]
    ensures result.Err? ==> exists n :: 0 <= n < |ids| && Acceptable(current, ids[..n])
                              && !Acceptable(current, ids[..n + 1])
                              && result.error == if ids[n] in ids[..n] then DuplicateId(ids[n]) else UnknownId(ids[n])
  {
    var byId := IndexById(current);
    var seen: set<int>, selected: seq<PlanCandidate> := {}, [];
    for n := 0 to |ids|
      invariant Acceptable(current, ids[..n]) && (forall id :: id in seen <==> id in ids[..n])
      invariant |selected| == n && forall i | 0 <= i < n :: selected[i] in current && selected[i].id == ids[i]
    {
      var id := ids[n];
      assert ids[..n + 1] == ids[..n] + [id];
      if id in seen {
        ghost var i :| 0 <= i < n && ids[i] == id;
        assert ids[..n + 1][i] == ids[..n + 1][n];
        RefusedPrefix(current, ids, n);
        return Err(DuplicateId(id));
      }
      if id !in byId {
        assert !Known(current, id) && id in ids[..n + 1];
        RefusedPrefix(current, ids, n);
        return Err(UnknownId(id));
      }
      seen, selected := seen + {id}, selected + [byId[id]];
    }
    assert ids[..|ids|] == ids;
    result := Ok(selected);
  }

  lemma {:induction false} RefusedPrefix(current: seq<PlanCandidate>, ids: seq<int>, n: nat)
    requires n < |ids| && !Acceptable(current, ids[..n + 1])
    ensures !Acceptable(current, ids)
  {
    if Distinct(ids[..n + 1]) {
      var id :| id in ids[..n + 1] && !Known(current, id);
      assert id in ids;
    } else {
      var i, j :| 0 <= i < j < n + 1 && ids[..n + 1][i] == ids[..n + 1][j];
      assert ids[i] == ids[j];
    }
  }

  method IndexById(current: seq<PlanCandidate>) returns (byId: map<int, PlanCandidate>)
    ensures forall id :: id in byId <==> Known(current, id)
    ensures forall id | id in byId :: byId[id] in current && byId[id].id == id
  {
    byId := map[];
    for i := 0 to |current|
      invariant forall id :: id in byId <==> Known(current[..i], id)
      invariant forall id | id in byId :: byId[id] in current && byId[id].id == id
    {
      assert current[..i + 1] == current[..i] + [current[i]];
      byId := byId[current[i].id := current[i]];
    }
    assert current[..|current|] == current;
  }

  function TotalSize(cs: seq<PlanCandidate>): nat {
    if cs == [] then 0 else TotalSize(cs[..|cs| - 1]) + cs[|cs| - 1].size
  }

  lemma {:induction false} PrefixIsSmaller(cs: seq<PlanCandidate>, n: nat)
    requires n <= |cs|
    ensures TotalSize(cs[..n]) <= TotalSize(cs)
    decreases |cs|
  {
    if n < |cs| {
      PrefixIsSmaller(cs[..|cs| - 1], n);
      assert cs[..|cs| - 1][..n] == cs[..n];
    } else {
      assert cs[..n] == cs;
    }
  }

  /** The sum, unless it does not fit 64 bits. */
  function CheckedTotal(cs: seq<PlanCandidate>): Option<nat> {
    if TotalSize(cs) < 0x1_0000_0000_0000_0000 then Some(TotalSize(cs)) else None
  }

  /** The checked sum: fails exactly when the total does not fit 64 bits. */
  method SelectedReclaimBytes(cs: seq<PlanCandidate>) returns (total: Option<nat>)
    ensures total == CheckedTotal(cs)
  {
    var sum := 0;
    for i := 0 to |cs|
      invariant sum == TotalSize(cs[..i]) < 0x1_0000_0000_0000_0000
    {
      assert cs[..i + 1][..i] == cs[..i];
      if sum + cs[i].size >= 0x1_0000_0000_0000_0000 {
        PrefixIsSmaller(cs, i + 1);
        return None;
      }
      sum := sum + cs[i].size;
    }
    assert cs[..|cs|] == cs;
    total := Some(sum);
  }
}
