/** UCB1 path selection (internal/pathpolicy/policy.go). Floats are reals, counters unbounded. */
module Ucb {
  import opened Bytes
  import opened Arithmetic
  import opened Seqs

  /** One path as a call sees it: its samples, and its delegate score at that moment. */
  datatype Candidate = Candidate(id: string, samples: nat, score: real)

  /** Stand-ins for the library functions. */
  datatype Math = Math(ln: real -> real, sqrt: real -> real)

  /** All that is used of them: ln is nondecreasing and nonnegative from 1 on; sqrt is a nonnegative root. */
  ghost predicate Lawful(m: Math) {
    && (forall x, y | 1.0 <= x <= y :: 0.0 <= m.ln(x) <= m.ln(y))
    && (forall x | x >= 0.0 :: m.sqrt(x) >= 0.0 && m.sqrt(x) * m.sqrt(x) == x)
  }

  datatype State = State(total: nat, counts: map<string, nat>)

  function Count(s: State, id: string): nat {
    if id in s.counts then s.counts[id] else 0
  }

  function Viable(paths: seq<Candidate>): (v: seq<Candidate>)
    ensures forall p | p in v :: p in paths && p.samples > 0
    ensures forall p | p in paths && p.samples > 0 :: p in v
  {
    if paths == [] then []
    else Viable(paths[..|paths| - 1]) + (if paths[|paths| - 1].samples > 0 then [paths[|paths| - 1]] else [])
  }

  lemma NoneViable()
    ensures Viable([]) == []
  {
  }

  function ProbedAt(paths: seq<Candidate>): int -> bool {
    k => 0 <= k < |paths| && paths[k].samples > 0
  }

  lemma ViableStep(paths: seq<Candidate>, n: nat)
    requires n < |paths|
    ensures Viable(paths[..n + 1])
         == if ProbedAt(paths)(n) then Viable(paths[..n]) + [paths[n]] else Viable(paths[..n])
  {
    assert paths[..n + 1][..n] == paths[..n];
  }

  /** The probed paths are kept in their order. */
  lemma {:induction false} ViablePositions(paths: seq<Candidate>, n: nat) returns (ps: seq<nat>)
    requires n <= |paths|
    ensures Positions(ps, n, ProbedAt(paths)) && PickedBy(Viable(paths[..n]), paths, ps)
  {
    hide Positions, PickedBy, Viable, ProbedAt;
    ps := [];
    if n == 0 {
      NoneViable();
      NoPositions(paths, ProbedAt(paths));
    } else {
      ps := ViablePositions(paths, n - 1);
      PositionsGrow(ps, n - 1, ProbedAt(paths));
      ViableStep(paths, n - 1);
      if ProbedAt(paths)(n - 1) {
        PickedGrows(Viable(paths[..n - 1]), paths, ps, n - 1);
        ps := ps + [n - 1];
      }
    }
  }

  method FilterViable(paths: seq<Candidate>) returns (viable: seq<Candidate>)
    ensures viable == Viable(paths)
  {
    viable := [];
    for i := 0 to |paths|
      invariant viable == Viable(paths[..i])
    {
      assert paths[..i + 1][..i] == paths[..i];
      if paths[i].samples > 0 {
        viable := viable + [paths[i]];
      }
    }
    assert paths[..|paths|] == paths;
  }

  function Bound(m: Math, c: real, s: State, p: Candidate): real
    requires Count(s, p.id) > 0
  {
    p.score + c * m.sqrt(m.ln(s.total as real) / Count(s, p.id) as real)
  }

  ghost predicate AllTried(s: State, paths: seq<Candidate>) {
    forall p | p in paths :: Count(s, p.id) > 0
  }

  ghost predicate FirstUntried(s: State, v: seq<Candidate>, i: nat) {
    i < |v| && Count(s, v[i].id) == 0 && forall j | 0 <= j < i :: Count(s, v[j].id) > 0
  }

  /** Position `i` has the highest bound, and the first of the highest. */
  ghost predicate FirstBest(m: Math, c: real, s: State, v: seq<Candidate>, i: nat)
    requires AllTried(s, v)
  {
    && i < |v| && Bound(m, c, s, v[i]) > -1.0
    && (forall j | 0 <= j < |v| :: Bound(m, c, s, v[j]) <= Bound(m, c, s, v[i]))
    && (forall j | 0 <= j < i :: Bound(m, c, s, v[j]) < Bound(m, c, s, v[i]))
  }

  /** One call of `SelectPath`. */
  ghost predicate Selects(m: Math, c: real, s: State, paths: seq<Candidate>, r: Option<Candidate>, s': State) {
    var v := Viable(paths);
    var t := State(s.total + 1, s.counts);
    if paths == [] then r == None && s' == s
    else if v == [] then r == Some(paths[0]) && s' == s
    else if !AllTried(t, v) then
      exists i: nat :: i < |v| && FirstUntried(t, v, i) && r == Some(v[i])
                       && s' == State(t.total, t.counts[v[i].id := 1])
    else if r.None? then s' == t && forall j | 0 <= j < |v| :: Bound(m, c, t, v[j]) <= -1.0
    else exists i: nat :: i < |v| && FirstBest(m, c, t, v, i) && r == Some(v[i])
                     && s' == State(t.total, t.counts[v[i].id := Count(t, v[i].id) + 1])
  }

  class UCB1Policy {
    const c: real
    const math: Math
    var totalSelections: nat
    var pathSelections: map<string, nat>

    constructor (c: real, math: Math)
      ensures this.c == c && this.math == math && Value() == State(0, map[])
    {
      this.c, this.math, totalSelections, pathSelections := c, math, 0, map[];
    }

    function Value(): State
      reads this
    {
      State(totalSelections, pathSelections)
    }

    method SelectPath(paths: seq<Candidate>) returns (r: Option<Candidate>)
      modifies this
      ensures Selects(math, c, old(Value()), paths, r, Value())
    {
      hide Bound, Viable, AllTried, FirstUntried, FirstBest;
      if |paths| == 0 {
        return None;
      }
      var viable := FilterViable(paths);
      if |viable| == 0 {
        return Some(paths[0]);
      }
      totalSelections := totalSelections + 1;
      var untried := FindUntried(viable);
      if untried.Some? {
        var p := viable[untried.value];
        pathSelections := pathSelections[p.id := 1];
        return Some(p);
      }
      var best := FindBest(viable);
      if best.None? {
        return None;
      }
      var p := viable[best.value];
      pathSelections := pathSelections[p.id := Count(Value(), p.id) + 1];
      return Some(p);
    }

    method FindUntried(viable: seq<Candidate>) returns (r: Option<nat>)
      ensures r.None? <==> AllTried(Value(), viable)
      ensures r.Some? ==> FirstUntried(Value(), viable, r.value)
    {
      for i := 0 to |viable|
        invariant forall j | 0 <= j < i :: Count(Value(), viable[j].id) > 0
      {
        if Count(Value(), viable[i].id) == 0 {
          assert viable[i] in viable;
          return Some(i);
        }
      }
      return None;
    }

    method FindBest(viable: seq<Candidate>) returns (best: Option<nat>)
      requires AllTried(Value(), viable)
      ensures best.None? ==> forall j | 0 <= j < |viable| :: Bound(math, c, Value(), viable[j]) <= -1.0
      ensures best.Some? ==> best.value < |viable| && FirstBest(math, c, Value(), viable, best.value)
    {
      hide Bound;
      best := None;
      var bestUCB := -1.0;
      for i := 0 to |viable|
        invariant best.None? ==> bestUCB == -1.0
        invariant best.Some? ==> best.value < i && Bound(math, c, Value(), viable[best.value]) == bestUCB > -1.0
        invariant forall j | 0 <= j < i :: Bound(math, c, Value(), viable[j]) <= bestUCB
        invariant best.Some? ==> forall j | 0 <= j < best.value :: Bound(math, c, Value(), viable[j]) < bestUCB
      {
        var ucb := Bound(math, c, Value(), viable[i]);
        if ucb > bestUCB {
          bestUCB, best := ucb, Some(i);
        }
      }
    }
  }

  /** What a call does to the counters. */
  lemma SelectsEffect(m: Math, c: real, s: State, paths: seq<Candidate>, r: Option<Candidate>, s': State)
    requires Selects(m, c, s, paths, r, s')
    ensures Viable(paths) == [] ==> s' == s
    ensures Viable(paths) != [] ==> s'.total == s.total + 1
    ensures Viable(paths) != [] && r.None? ==> s'.counts == s.counts
    ensures Viable(paths) != [] && r.Some? ==>
              r.value in Viable(paths) && s'.counts == s.counts[r.value.id := Count(s, r.value.id) + 1]
  {
    NoneViable();
    hide Bound, AllTried, FirstBest, Viable;
    var v, t := Viable(paths), State(s.total + 1, s.counts);
    if v != [] && r.Some? {
      var i: nat :| i < |v| && r == Some(v[i]) && s'.counts == t.counts[v[i].id := Count(t, v[i].id) + 1];
      assert v[i] in v;
    }
  }

  // ----- What is selected -----

  /**
   * The bound is the path's score and an exploration term: C times a nonnegative root of ln(total) over the path's
   * count.
   */
  lemma BoundShape(m: Math, c: real, s: State, p: Candidate) returns (r: real)
    requires Lawful(m) && s.total > 0 && Count(s, p.id) > 0
    ensures Bound(m, c, s, p) == p.score + c * r
    ensures r >= 0.0 && (r * r) * Count(s, p.id) as real == m.ln(s.total as real)
  {
    var l, n := m.ln(s.total as real), Count(s, p.id) as real;
    QuotientNonnegative(l, n);
    r := m.sqrt(l / n);
    assert (l / n) * n == l;
  }

  /** With equal counts, bounds differ as the scores do. */
  lemma EqualCountsByScore(m: Math, c: real, s: State, p: Candidate, q: Candidate)
    requires Count(s, p.id) == Count(s, q.id) > 0
    ensures Bound(m, c, s, p) - Bound(m, c, s, q) == p.score - q.score
  {
  }

  /** Where a probed path stands among the viable ones. */
  lemma AtPosition(paths: seq<Candidate>, ps: seq<nat>, j: nat) returns (a: nat)
    requires Positions(ps, |paths|, ProbedAt(paths)) && PickedBy(Viable(paths), paths, ps)
    requires j < |paths| && paths[j].samples > 0
    ensures a < |ps| && ps[a] == j && Viable(paths)[a] == paths[j]
    ensures forall i | 0 <= i < |ps| :: j < ps[i] ==> a < i
  {
    hide Viable;
    assert j in ps;
    a :| 0 <= a < |ps| && ps[a] == j;
  }

  /** Before any path is selected again, the probed paths are selected once each, in the order they are offered. */
  lemma UntriedFirst(m: Math, c: real, s: State, paths: seq<Candidate>, r: Option<Candidate>, s': State)
    returns (k: nat)
    requires Selects(m, c, s, paths, r, s')
    requires exists p :: p in paths && p.samples > 0 && Count(s, p.id) == 0
    ensures k < |paths| && r == Some(paths[k]) && paths[k].samples > 0 && Count(s, paths[k].id) == 0
    ensures forall j | 0 <= j < k && paths[j].samples > 0 :: Count(s, paths[j].id) > 0
    ensures s'.total == s.total + 1 && s'.counts == s.counts[paths[k].id := 1]
  {
    hide Bound, Viable, FirstBest, AllTried, Positions;
    var ps := ViablePositions(paths, |paths|);
    assert paths[..|paths|] == paths;
    var v, t := Viable(paths), State(s.total + 1, s.counts);
    var p :| p in paths && p.samples > 0 && Count(s, p.id) == 0;
    NotAllTried(t, v, p);
    var i: nat :| i < |v| && FirstUntried(t, v, i) && r == Some(v[i]) && s' == State(t.total, t.counts[v[i].id := 1]);
    k := ps[i];
    forall j | 0 <= j < k && paths[j].samples > 0 ensures Count(s, paths[j].id) > 0 {
      var a := AtPosition(paths, ps, j);
      assert Count(t, v[a].id) > 0;
    }
  }

  lemma NotAllTried(s: State, v: seq<Candidate>, p: Candidate)
    requires p in v && Count(s, p.id) == 0
    ensures !AllTried(s, v)
  {
  }

  /** `paths[k]` is the first of the probed paths whose bound is highest. */
  ghost predicate BestAt(m: Math, c: real, s: State, paths: seq<Candidate>, k: nat) {
    && k < |paths| && paths[k].samples > 0 && Count(s, paths[k].id) > 0
    && forall j | 0 <= j < |paths| && paths[j].samples > 0 ::
         && Count(s, paths[j].id) > 0
         && Bound(m, c, s, paths[j]) <= Bound(m, c, s, paths[k])
         && (j < k ==> Bound(m, c, s, paths[j]) < Bound(m, c, s, paths[k]))
  }

  /**
   * Once the probed paths were all tried, with scores that are never negative, a selection returns the first offered
   * probed path of highest bound.
   */
  lemma HighestSelected(m: Math, c: real, s: State, paths: seq<Candidate>, r: Option<Candidate>, s': State)
    returns (k: nat)
    requires Selects(m, c, s, paths, r, s') && Lawful(m) && c >= 0.0
    requires forall p | p in paths :: p.score >= 0.0 && (p.samples > 0 ==> Count(s, p.id) > 0)
    requires exists p :: p in paths && p.samples > 0
    ensures k < |paths| && r == Some(paths[k]) && BestAt(m, c, State(s.total + 1, s.counts), paths, k)
  {
    hide Bound, Viable, Lawful, Positions, Selects, FirstBest, AllTried;
    var ps := ViablePositions(paths, |paths|);
    assert paths[..|paths|] == paths;
    var t := State(s.total + 1, s.counts);
    EveryProbedTried(s, paths);
    NotLost(m, c, s, paths, r, s');
    var i := FirstBestChosen(m, c, s, paths, r, s');
    k := ps[i];
    BestByPosition(m, c, t, paths, ps, i);
  }

  lemma EveryProbedTried(s: State, paths: seq<Candidate>)
    requires forall p | p in paths :: p.samples > 0 ==> Count(s, p.id) > 0
    requires exists p :: p in paths && p.samples > 0
    ensures Viable(paths) != [] && AllTried(State(s.total + 1, s.counts), Viable(paths))
  {
    hide Viable;
    var p :| p in paths && p.samples > 0;
    assert p in Viable(paths);
  }

  lemma FirstBestChosen(m: Math, c: real, s: State, paths: seq<Candidate>, r: Option<Candidate>, s': State)
    returns (i: nat)
    requires Selects(m, c, s, paths, r, s') && Viable(paths) != [] && r.Some?
    requires AllTried(State(s.total + 1, s.counts), Viable(paths))
    ensures i < |Viable(paths)| && FirstBest(m, c, State(s.total + 1, s.counts), Viable(paths), i)
    ensures r == Some(Viable(paths)[i])
  {
    hide Bound, Viable, FirstBest, AllTried;
    NoneViable();
    var v, t := Viable(paths), State(s.total + 1, s.counts);
    i :| i < |v| && FirstBest(m, c, t, v, i) && r == Some(v[i]);
  }

  lemma BestByPosition(m: Math, c: real, s: State, paths: seq<Candidate>, ps: seq<nat>, i: nat)
    requires Positions(ps, |paths|, ProbedAt(paths)) && PickedBy(Viable(paths), paths, ps)
    requires AllTried(s, Viable(paths)) && i < |ps| && FirstBest(m, c, s, Viable(paths), i)
    ensures BestAt(m, c, s, paths, ps[i])
  {
    hide Bound, Viable;
    var v, k := Viable(paths), ps[i];
    assert v[i] in v;
    forall j | 0 <= j < |paths| && paths[j].samples > 0
      ensures Count(s, paths[j].id) > 0 && Bound(m, c, s, paths[j]) <= Bound(m, c, s, paths[k])
      ensures j < k ==> Bound(m, c, s, paths[j]) < Bound(m, c, s, paths[k])
    {
      var a := AtPosition(paths, ps, j);
      assert v[a] in v;
    }
  }

  /** Of the probed paths selected equally often, the one that is selected again has the highest score. */
  lemma BestScoreSelected(m: Math, c: real, s: State, paths: seq<Candidate>, k: nat)
    requires BestAt(m, c, s, paths, k)
    ensures k < |paths| && paths[k].samples > 0 && Count(s, paths[k].id) > 0
    ensures forall j | 0 <= j < |paths| && paths[j].samples > 0 && Count(s, paths[j].id) == Count(s, paths[k].id) ::
              paths[j].score <= paths[k].score && (j < k ==> paths[j].score < paths[k].score)
  {
    hide Bound;
    forall j | 0 <= j < |paths| && paths[j].samples > 0 && Count(s, paths[j].id) == Count(s, paths[k].id)
      ensures paths[j].score <= paths[k].score && (j < k ==> paths[j].score < paths[k].score)
    {
      EqualCountsByScore(m, c, s, paths[j], paths[k]);
    }
  }

  /** With nothing probed the first path is returned, or nothing if there is none; no selection is counted. */
  lemma NothingProbed(m: Math, c: real, s: State, paths: seq<Candidate>, r: Option<Candidate>, s': State)
    requires Selects(m, c, s, paths, r, s') && forall p | p in paths :: p.samples == 0
    ensures s' == s && r == if paths == [] then None else Some(paths[0])
  {
    if Viable(paths) != [] {
      assert Viable(paths)[0] in Viable(paths);
    }
  }

  // ----- Runs -----

  /** Consecutive calls: the states, what each call is given, and what it returns. */
  ghost predicate IsRun(m: Math, c: real, ss: seq<State>, calls: seq<seq<Candidate>>, picks: seq<Option<Candidate>>) {
    && |ss| == |calls| + 1 && |picks| == |calls|
    && forall i | 0 <= i < |calls| :: Selects(m, c, ss[i], calls[i], picks[i], ss[i + 1])
  }

  ghost function SumCounts(counts: map<string, nat>): nat {
    if counts == map[] then 0 else
      var id :| id in counts;
      counts[id] + SumCounts(counts - {id})
  }

  lemma {:induction false} SumWithout(counts: map<string, nat>, id: string)
    requires id in counts
    ensures SumCounts(counts) == counts[id] + SumCounts(counts - {id})
    decreases |counts|
  {
    var k :| k in counts && SumCounts(counts) == counts[k] + SumCounts(counts - {k});
    if k != id {
      SumWithout(counts - {k}, id);
      SumWithout(counts - {id}, k);
      assert counts - {k} - {id} == counts - {id} - {k};
    }
  }

  lemma SumUpdate(s: State, id: string, n: nat)
    ensures SumCounts(s.counts[id := n]) == SumCounts(s.counts) - Count(s, id) + n
  {
    var updated := s.counts[id := n];
    SumWithout(updated, id);
    if id in s.counts {
      SumWithout(s.counts, id);
      assert updated - {id} == s.counts - {id};
    } else {
      assert updated - {id} == s.counts;
    }
  }

  /** Calls that counted a selection but returned no path although one was viable. */
  ghost function Lost(calls: seq<seq<Candidate>>, picks: seq<Option<Candidate>>, n: nat): nat
    requires n <= |calls| == |picks|
  {
    if n == 0 then 0
    else Lost(calls, picks, n - 1) + (if Viable(calls[n - 1]) != [] && picks[n - 1].None? then 1 else 0)
  }

  /** The path counts account for every selection but the lost ones. */
  lemma {:induction false} CountsAccountForTotal(m: Math, c: real, ss: seq<State>, calls: seq<seq<Candidate>>,
                                                 picks: seq<Option<Candidate>>, n: nat)
    requires IsRun(m, c, ss, calls, picks) && ss[0] == State(0, map[]) && n <= |calls|
    ensures ss[n].total == SumCounts(ss[n].counts) + Lost(calls, picks, n)
  {
    hide Selects, Viable;
    if n > 0 {
      CountsAccountForTotal(m, c, ss, calls, picks, n - 1);
      SelectsEffect(m, c, ss[n - 1], calls[n - 1], picks[n - 1], ss[n]);
      if Viable(calls[n - 1]) != [] && picks[n - 1].Some? {
        var id := picks[n - 1].value.id;
        SumUpdate(ss[n - 1], id, Count(ss[n - 1], id) + 1);
      }
    }
  }

  lemma BoundNonnegative(m: Math, c: real, s: State, p: Candidate)
    requires Lawful(m) && c >= 0.0 && Count(s, p.id) > 0 && s.total > 0 && p.score >= 0.0
    ensures Bound(m, c, s, p) >= 0.0
  {
    var l, n := m.ln(s.total as real), Count(s, p.id) as real;
    assert l >= 0.0;
    QuotientNonnegative(l, n);
    ProductNonnegative(c, m.sqrt(l / n));
  }

  lemma QuotientNonnegative(x: real, y: real)
    requires x >= 0.0 && y > 0.0
    ensures x / y >= 0.0
  {
  }

  lemma ProductNonnegative(x: real, y: real)
    requires x >= 0.0 && y >= 0.0
    ensures x * y >= 0.0
  {
  }

  /** With scores that are never negative nothing is lost, so the counts sum to `totalSelections`. */
  lemma {:induction false} NothingLost(m: Math, c: real, ss: seq<State>, calls: seq<seq<Candidate>>,
                                       picks: seq<Option<Candidate>>, n: nat)
    requires IsRun(m, c, ss, calls, picks) && n <= |calls| && Lawful(m) && c >= 0.0
    requires forall i, p | 0 <= i < |calls| && p in calls[i] :: p.score >= 0.0
    ensures Lost(calls, picks, n) == 0
  {
    hide Selects, Viable, Lawful;
    if n > 0 {
      NothingLost(m, c, ss, calls, picks, n - 1);
      NotLost(m, c, ss[n - 1], calls[n - 1], picks[n - 1], ss[n]);
    }
  }

  lemma NotLost(m: Math, c: real, s: State, call: seq<Candidate>, pick: Option<Candidate>, s': State)
    requires Selects(m, c, s, call, pick, s') && Lawful(m) && c >= 0.0
    requires forall p | p in call :: p.score >= 0.0
    ensures Viable(call) != [] ==> pick.Some?
  {
    hide Bound, Viable, Lawful;
    NoneViable();
    var t, v := State(s.total + 1, s.counts), Viable(call);
    if v != [] && AllTried(t, v) {
      assert v[0] in v && v[0] in call;
      BoundNonnegative(m, c, t, v[0]);
    }
  }

  // ----- No path starves -----

  lemma MulLe(x: real, y: real, z: real)
    requires x <= y && z >= 0.0
    ensures x * z <= y * z
  {
  }

  lemma QuotientBelow(l: real, n: real, k: real)
    requires l >= 0.0 && k > 0.0 && n >= 4.0 * k
    ensures 4.0 * (l / n) <= l / k
  {
    var q, r := l / n, l / k;
    assert q * n == l && r * k == l;
    MulLe(4.0 * k, n, q);
    assert (4.0 * q) * k <= r * k;
    CancelFactor(r, 4.0 * q, k);
  }

  /** C² ln N exceeds four times `count`. */
  ghost predicate Ripe(m: Math, c: real, total: nat, count: nat) {
    c * c * m.ln(total as real) > 4.0 * count as real
  }

  /** The log term in `C² ln N > 4c` beats any difference of scores once the counts differ fourfold. */
  lemma FewerSelectionsWin(m: Math, c: real, s: State, p: Candidate, q: Candidate)
    requires Lawful(m) && c > 0.0 && s.total > 0
    requires Count(s, p.id) > 0 && Count(s, q.id) >= 4 * Count(s, p.id)
    requires 0.0 <= p.score && q.score <= 1.0
    requires Ripe(m, c, s.total, Count(s, p.id))
    ensures Bound(m, c, s, p) > Bound(m, c, s, q)
  {
    RootsApart(m, c, m.ln(s.total as real), Count(s, p.id) as real, Count(s, q.id) as real);
  }

  lemma HalfRoot(m: Math, l: real, k: real, n: real)
    requires Lawful(m) && l >= 0.0 && k > 0.0 && n >= 4.0 * k
    ensures 2.0 * m.sqrt(l / n) <= m.sqrt(l / k)
  {
    QuotientNonnegative(l, k);
    QuotientNonnegative(l, n);
    QuotientBelow(l, n, k);
    var a, b := m.sqrt(l / k), m.sqrt(l / n);
    assert (2.0 * b) * (2.0 * b) == 4.0 * (b * b);
    SquaresOrder(2.0 * b, a);
  }

  lemma RootsApart(m: Math, c: real, l: real, k: real, n: real)
    requires Lawful(m) && c > 0.0 && l >= 0.0 && k > 0.0 && n >= 4.0 * k && c * c * l > 4.0 * k
    ensures c * m.sqrt(l / k) > c * m.sqrt(l / n) + 1.0
  {
    QuotientNonnegative(l, k);
    HalfRoot(m, l, k, n);
    var a, b := m.sqrt(l / k), m.sqrt(l / n);
    ProductNonnegative(c, a);
    AboveTwo(c, a, l, k);
    RootGap(c, a, b);
  }

  lemma Halves(x: real, y: real)
    requires 2.0 * y <= x && x > 2.0
    ensures x > y + 1.0
  {
  }

  lemma RootGap(c: real, a: real, b: real)
    requires c > 0.0 && 2.0 * b <= a && c * a > 2.0
    ensures c * a > c * b + 1.0
  {
    MulLe(2.0 * b, a, c);
    assert (2.0 * b) * c == 2.0 * (c * b);
    assert a * c == c * a;
    Halves(c * a, c * b);
  }

  lemma AboveTwo(c: real, a: real, l: real, k: real)
    requires c > 0.0 && a >= 0.0 && k > 0.0 && a * a == l / k && c * c * l > 4.0 * k && c * a >= 0.0
    ensures c * a > 2.0
  {
    var u := (c * a) * (c * a);
    assert (a * a) * k == l;
    assert u == (c * c) * (a * a);
    assert u * k == (c * c) * ((a * a) * k);
    CancelFactor(u, 4.0, k);
    SquaresOrder(2.0, c * a);
  }

  /** The viable paths of a call: exactly `p` and `others`, whatever their order and current scores. */
  ghost predicate Offers(call: seq<Candidate>, p: string, others: seq<string>) {
    var v := Viable(call);
    && (forall x | x in v :: (x.id == p || x.id in others) && 0.0 <= x.score <= 1.0)
    && exists x :: x in v && x.id == p
  }

  /** How often the other paths can still be chosen before each reaches `cap`. */
  function Room(s: State, ids: seq<string>, cap: nat): nat {
    if ids == [] then 0 else (if Count(s, ids[0]) < cap then cap - Count(s, ids[0]) else 0) + Room(s, ids[1..], cap)
  }

  lemma {:induction false} RoomShrinks(s: State, t: State, ids: seq<string>, cap: nat, q: string)
    requires Distinct(ids) && q in ids && Count(s, q) < cap && Count(t, q) == Count(s, q) + 1
    requires forall id | id in ids && id != q :: Count(t, id) == Count(s, id)
    ensures Room(t, ids, cap) == Room(s, ids, cap) - 1
  {
    if ids[0] == q {
      assert forall id | id in ids[1..] :: id != q;
      RoomSame(s, t, ids[1..], cap);
    } else {
      RoomShrinks(s, t, ids[1..], cap, q);
    }
  }

  lemma {:induction false} RoomSame(s: State, t: State, ids: seq<string>, cap: nat)
    requires forall id | id in ids :: Count(t, id) == Count(s, id)
    ensures Room(t, ids, cap) == Room(s, ids, cap)
  {
    if ids != [] {
      RoomSame(s, t, ids[1..], cap);
    }
  }

  lemma OneMore(n: nat, x: nat)
    ensures (n + 1) * x == n * x + x
  {
  }

  lemma {:induction false} RoomBounded(s: State, ids: seq<string>, cap: nat)
    requires cap > 0 && forall id | id in ids :: Count(s, id) > 0
    ensures Room(s, ids, cap) <= |ids| * (cap - 1)
  {
    if ids != [] {
      RoomBounded(s, ids[1..], cap);
      OneMore(|ids[1..]|, cap - 1);
    }
  }

  ghost predicate Tried(s: State, p: string, others: seq<string>) {
    Count(s, p) > 0 && forall id | id in others :: Count(s, id) > 0
  }

  /** A call that passes over `p` goes to a path still below four times `p`'s count. */
  lemma PassedOver(m: Math, c: real, s: State, call: seq<Candidate>, pick: Option<Candidate>, s': State,
                   p: string, others: seq<string>)
    requires Lawful(m) && c > 0.0 && Selects(m, c, s, call, pick, s')
    requires Offers(call, p, others) && Tried(s, p, others) && Distinct(others) && p !in others && s.total > 0
    requires Ripe(m, c, s.total, Count(s, p))
    ensures pick.Some? && s'.total == s.total + 1 && Tried(s', p, others)
    ensures pick.value.id != p ==> Count(s', p) == Count(s, p)
                                   && Room(s', others, 4 * Count(s, p)) == Room(s, others, 4 * Count(s, p)) - 1
  {
    hide Ripe, Lawful, Bound, Selects, Room;
    var v, t := Viable(call), State(s.total + 1, s.counts);
    SelectsEffect(m, c, s, call, pick, s');
    var x :| x in v && x.id == p;
    SomethingChosen(m, c, s, call, pick, s', x);
    var q := pick.value;
    if q.id != p {
      RipeStaysRipe(m, c, s.total, t.total, Count(s, p));
      if Count(t, q.id) >= 4 * Count(t, p) {
        FewerSelectionsWin(m, c, t, x, q);
      }
      RoomShrinks(s, s', others, 4 * Count(s, p), q.id);
    }
  }

  lemma SomethingChosen(m: Math, c: real, s: State, call: seq<Candidate>, pick: Option<Candidate>, s': State,
                        x: Candidate)
    requires Lawful(m) && c > 0.0 && Selects(m, c, s, call, pick, s')
    requires x in Viable(call) && x.score >= 0.0 && AllTried(s, Viable(call))
    ensures pick.Some? && pick.value in Viable(call)
    ensures var t := State(s.total + 1, s.counts);
            Count(t, pick.value.id) > 0 && Count(t, x.id) > 0 && Bound(m, c, t, x) <= Bound(m, c, t, pick.value)
  {
    hide Bound, Viable;
    var v, t := Viable(call), State(s.total + 1, s.counts);
    BoundNonnegative(m, c, t, x);
    var b :| 0 <= b < |v| && v[b] == x;
  }

  lemma RipeStaysRipe(m: Math, c: real, from: nat, to: nat, count: nat)
    requires Lawful(m) && c > 0.0 && 0 < from <= to && Ripe(m, c, from, count)
    ensures Ripe(m, c, to, count)
  {
    MulLe(m.ln(from as real), m.ln(to as real), c * c);
  }

  /**
   * No path starves. Take k viable paths, all tried, scored in [0,1] (the scores may change from call to call).
   * Once C² ln N exceeds four times the count of `p`, `p` is chosen within (k-1)(4·count-1)+1 further calls.
   */
  lemma NoStarvation(m: Math, c: real, ss: seq<State>, calls: seq<seq<Candidate>>, picks: seq<Option<Candidate>>,
                     p: string, others: seq<string>)
    requires Lawful(m) && c > 0.0 && IsRun(m, c, ss, calls, picks)
    requires Distinct(others) && p !in others && Tried(ss[0], p, others) && ss[0].total > 0
    requires forall i | 0 <= i < |calls| :: Offers(calls[i], p, others)
    requires Ripe(m, c, ss[0].total, Count(ss[0], p))
    requires |calls| > |others| * (4 * Count(ss[0], p) - 1)
    ensures exists i | 0 <= i < |picks| :: picks[i].Some? && picks[i].value.id == p
  {
    RoomBounded(ss[0], others, 4 * Count(ss[0], p));
    var j := ChosenFrom(m, c, ss, calls, picks, p, others, 0);
  }

  lemma {:induction false} ChosenFrom(m: Math, c: real, ss: seq<State>, calls: seq<seq<Candidate>>,
                                      picks: seq<Option<Candidate>>, p: string, others: seq<string>, i: nat)
    returns (j: nat)
    requires Lawful(m) && c > 0.0 && IsRun(m, c, ss, calls, picks) && i < |calls|
    requires Distinct(others) && p !in others && Tried(ss[i], p, others) && ss[i].total > 0
    requires forall j | 0 <= j < |calls| :: Offers(calls[j], p, others)
    requires Ripe(m, c, ss[i].total, Count(ss[i], p))
    requires |calls| > i + Room(ss[i], others, 4 * Count(ss[i], p))
    ensures i <= j <= i + Room(ss[i], others, 4 * Count(ss[i], p)) && picks[j].Some? && picks[j].value.id == p
    decreases |calls| - i
  {
    hide Selects, Offers, Lawful, Ripe, Room;
    PassedOver(m, c, ss[i], calls[i], picks[i], ss[i + 1], p, others);
    if picks[i].value.id != p {
      RipeStaysRipe(m, c, ss[i].total, ss[i + 1].total, Count(ss[i], p));
      j := ChosenFrom(m, c, ss, calls, picks, p, others, i + 1);
    } else {
      j := i;
    }
  }

  // ----- Every path is selected for ever -----

  /** The logarithm exceeds every bound. */
  ghost predicate Unbounded(m: Math) {
    forall y :: Exceeded(m, y)
  }

  ghost predicate Exceeded(m: Math, y: real) {
    exists n: nat :: ExceedsAt(m, n, y)
  }

  ghost predicate ExceedsAt(m: Math, n: nat, y: real) {
    n > 0 && m.ln(n as real) > y
  }

  /** One call over these paths counts itself and takes no count away. */
  lemma CallCounts(m: Math, c: real, s: State, call: seq<Candidate>, pick: Option<Candidate>, s': State,
                   p: string, others: seq<string>)
    requires Selects(m, c, s, call, pick, s') && Offers(call, p, others)
    ensures s'.total == s.total + 1
    ensures forall id :: Count(s', id) >= Count(s, id)
    ensures pick.Some? ==> Count(s', pick.value.id) == Count(s, pick.value.id) + 1
  {
    hide Selects, Viable;
    SelectsEffect(m, c, s, call, pick, s');
    var x :| x in Viable(call) && x.id == p;
  }

  lemma {:induction false} RunCounts(m: Math, c: real, ss: seq<State>, calls: seq<seq<Candidate>>,
                                     picks: seq<Option<Candidate>>, p: string, others: seq<string>, i: nat, j: nat)
    requires IsRun(m, c, ss, calls, picks) && i <= j <= |calls|
    requires forall k | 0 <= k < |calls| :: Offers(calls[k], p, others)
    ensures ss[j].total == ss[i].total + (j - i)
    ensures forall id :: Count(ss[j], id) >= Count(ss[i], id)
    decreases j - i
  {
    hide Selects, Offers, Count;
    if i < j {
      RunCounts(m, c, ss, calls, picks, p, others, i, j - 1);
      CallCounts(m, c, ss[j - 1], calls[j - 1], picks[j - 1], ss[j], p, others);
    }
  }

  /** Calls enough for one more selection of a path that has fewer than `want`. */
  function Round(others: seq<string>, want: nat): nat {
    |others| * (4 * want) + 1
  }

  /** Once `p` would be ripe with `want` selections, each round of calls brings another one until it has them. */
  lemma {:induction false} RoundsSuffice(m: Math, c: real, ss: seq<State>, calls: seq<seq<Candidate>>,
                                         picks: seq<Option<Candidate>>, p: string, others: seq<string>,
                                         want: nat, missing: nat, i: nat)
    returns (j: nat)
    requires Lawful(m) && c > 0.0 && IsRun(m, c, ss, calls, picks) && i <= |calls|
    requires Distinct(others) && p !in others && Tried(ss[i], p, others) && ss[i].total > 0
    requires forall k | 0 <= k < |calls| :: Offers(calls[k], p, others)
    requires Ripe(m, c, ss[i].total, want) && Count(ss[i], p) + missing >= want
    requires |calls| >= i + missing * Round(others, want)
    ensures i <= j <= i + missing * Round(others, want) && Count(ss[j], p) >= want
    decreases missing
  {
    hide Lawful, Ripe, Offers, Selects, Count, Room, Round;
    if Count(ss[i], p) >= want {
      j := i;
      NonnegativeMultiple(missing, Round(others, want));
    } else {
      OneMore(missing - 1, Round(others, want));
      NonnegativeMultiple(missing - 1, Round(others, want));
      var k := ChosenSoon(m, c, ss, calls, picks, p, others, want, i);
      RunCounts(m, c, ss, calls, picks, p, others, i, k + 1);
      RipeStaysRipe(m, c, ss[i].total, ss[k + 1].total, want);
      j := RoundsSuffice(m, c, ss, calls, picks, p, others, want, missing - 1, k + 1);
    }
  }

  lemma NonnegativeMultiple(n: nat, x: nat)
    ensures n * x >= 0
  {
  }

  /** Within one round a path below `want` is selected. */
  lemma ChosenSoon(m: Math, c: real, ss: seq<State>, calls: seq<seq<Candidate>>, picks: seq<Option<Candidate>>,
                   p: string, others: seq<string>, want: nat, i: nat)
    returns (k: nat)
    requires Lawful(m) && c > 0.0 && IsRun(m, c, ss, calls, picks)
    requires i + Round(others, want) <= |calls|
    requires Distinct(others) && p !in others && Tried(ss[i], p, others) && ss[i].total > 0
    requires forall k | 0 <= k < |calls| :: Offers(calls[k], p, others)
    requires Ripe(m, c, ss[i].total, want) && Count(ss[i], p) < want
    ensures i <= k < i + Round(others, want) && k < |calls|
    ensures Count(ss[k + 1], p) >= Count(ss[i], p) + 1
  {
    hide Lawful, Offers, Selects, Room;
    RipeForFewer(m, c, ss[i].total, Count(ss[i], p), want);
    RoomWithin(ss[i], p, others, want);
    k := ChosenFrom(m, c, ss, calls, picks, p, others, i);
    RunCounts(m, c, ss, calls, picks, p, others, i, k);
    CallCounts(m, c, ss[k], calls[k], picks[k], ss[k + 1], p, others);
  }

  lemma RipeForFewer(m: Math, c: real, total: nat, fewer: nat, count: nat)
    requires Ripe(m, c, total, count) && fewer <= count
    ensures Ripe(m, c, total, fewer)
  {
  }

  lemma RoomWithin(s: State, p: string, others: seq<string>, want: nat)
    requires Tried(s, p, others) && Count(s, p) < want
    ensures Room(s, others, 4 * Count(s, p)) < Round(others, want)
  {
    var cap := 4 * Count(s, p);
    RoomBounded(s, others, cap);
    LessTimes(|others|, cap - 1, 4 * want);
  }

  lemma LessTimes(n: nat, x: nat, y: nat)
    requires x <= y
    ensures n * x <= n * y
  {
  }

  /** A run from `s`, every call of which offers `p` and no path but `p` and `others`. */
  ghost predicate Continues(m: Math, c: real, s: State, p: string, others: seq<string>,
                            ss: seq<State>, calls: seq<seq<Candidate>>, picks: seq<Option<Candidate>>) {
    && |ss| == |calls| + 1 && ss[0] == s && IsRun(m, c, ss, calls, picks)
    && forall k | 0 <= k < |calls| :: Offers(calls[k], p, others)
  }

  /**
   * However many selections are asked for, there is a number of calls after which `p` has them, the same for every
   * run from any state in which the paths were tried: no path is ever given up.
   */
  lemma SelectedForEver(m: Math, c: real, p: string, others: seq<string>, want: nat) returns (enough: nat)
    requires Lawful(m) && Unbounded(m) && c > 0.0 && Distinct(others) && p !in others
    ensures forall s: State, ss: seq<State>, calls: seq<seq<Candidate>>, picks: seq<Option<Candidate>>
              | Tried(s, p, others) && Continues(m, c, s, p, others, ss, calls, picks) && |calls| >= enough ::
              Count(ss[|calls|], p) >= want
  {
    hide Lawful, IsRun, Offers, Tried, Count, Round;
    var start := RipeFrom(m, c, want);
    enough := start + want * Round(others, want);
    NonnegativeMultiple(want, Round(others, want));
    forall s: State, ss: seq<State>, calls: seq<seq<Candidate>>, picks: seq<Option<Candidate>>
      | Tried(s, p, others) && Continues(m, c, s, p, others, ss, calls, picks) && |calls| >= enough
      ensures Count(ss[|calls|], p) >= want
    {
      RunCounts(m, c, ss, calls, picks, p, others, 0, start);
      TriedStays(s, ss[start], p, others);
      RipeStaysRipe(m, c, start, ss[start].total, want);
      var j := RoundsSuffice(m, c, ss, calls, picks, p, others, want, want, start);
      RunCounts(m, c, ss, calls, picks, p, others, j, |calls|);
    }
  }

  lemma TriedStays(s: State, t: State, p: string, others: seq<string>)
    requires Tried(s, p, others) && forall id :: Count(t, id) >= Count(s, id)
    ensures Tried(t, p, others)
  {
  }

  /** From some number of calls on, any path with at most `want` selections is ripe. */
  lemma RipeFrom(m: Math, c: real, want: nat) returns (n: nat)
    requires Unbounded(m) && c > 0.0
    ensures n > 0 && Ripe(m, c, n, want)
  {
    var z := 4.0 * want as real / c;
    var y := z / c;
    assert Exceeded(m, y);
    n :| ExceedsAt(m, n, y);
    var l := m.ln(n as real);
    assert y * c == z && z * c == 4.0 * want as real;
    Scaling(l, y, c);
    Scaling(c * l, z, c);
    assert c * c * l == c * (c * l);
  }

  lemma Scaling(x: real, y: real, z: real)
    requires x > y && z > 0.0
    ensures z * x > y * z
  {
    ProductPositive(x - y, z);
  }
}
