/** One probing round towards a target (internal/pathpolicy/manager.go, `probeTarget`), and path scores (policy.go). */
module Probing {
  import opened Arithmetic
  import opened PathMetrics
  import opened Seqs

  /** Path names keep only the first eight characters of a peer ID. */
  function Short(id: string): string
    requires |id| >= 8
  {
    id[..8]
  }

  function DirectName(target: string): string
    requires |target| >= 8
  {
    "direct-" + Short(target)
  }

  function RelayName(target: string, relay: string): string
    requires |target| >= 8 && |relay| >= 8
  {
    "relay-" + Short(target) + "-via-" + Short(relay)
  }

  ghost predicate LongIds(ids: seq<string>) {
    forall i | 0 <= i < |ids| :: |ids[i]| >= 8
  }

  /** The relays probed: all but the target and the node itself. */
  function Candidates(relays: seq<string>, target: string, self: string): (c: seq<string>)
    ensures LongIds(relays) ==> LongIds(c)
  {
    if relays == [] then []
    else
      var l := relays[|relays| - 1];
      Candidates(relays[..|relays| - 1], target, self) + (if l == target || l == self then [] else [l])
  }

  function RelayAt(relays: seq<string>, target: string, self: string): int -> bool {
    k => 0 <= k < |relays| && relays[k] != target && relays[k] != self
  }

  /** The relays probed are all but the target and the node itself, in their order. */
  lemma {:induction false} CandidatePositions(relays: seq<string>, target: string, self: string, n: nat)
    returns (ps: seq<nat>)
    requires n <= |relays|
    ensures Positions(ps, n, RelayAt(relays, target, self))
    ensures PickedBy(Candidates(relays[..n], target, self), relays, ps)
  {
    hide Positions, PickedBy, Candidates;
    ps := [];
    if n == 0 {
      NoCandidates(target, self);
      NoPositions(relays, RelayAt(relays, target, self));
    } else {
      ps := CandidatePositions(relays, target, self, n - 1);
      PositionsGrow(ps, n - 1, RelayAt(relays, target, self));
      CandidateStep(relays, target, self, n - 1);
      if RelayAt(relays, target, self)(n - 1) {
        PickedGrows(Candidates(relays[..n - 1], target, self), relays, ps, n - 1);
        ps := ps + [n - 1];
      }
    }
  }

  lemma NoCandidates(target: string, self: string)
    ensures Candidates([], target, self) == []
  {
  }

  /** Names, written out for two IDs. */
  lemma NamesWritten()
    ensures DirectName("12D3KooWTarget") == "direct-12D3KooW"
    ensures RelayName("12D3KooWTarget", "QmRelayNode") == "relay-12D3KooW-via-QmRelayN"
  {
  }

  /** The names of the paths probed, in the order of their results. */
  function Names(target: string, candidates: seq<string>): (names: seq<string>)
    requires |target| >= 8 && LongIds(candidates)
    ensures |names| == |candidates| + 1
    ensures names[0] == DirectName(target)
    ensures forall i | 0 <= i < |candidates| :: names[i + 1] == RelayName(target, candidates[i])
  {
    [DirectName(target)] + seq(|candidates|, i requires 0 <= i < |candidates| => RelayName(target, candidates[i]))
  }

  /** The relay chains of the paths probed, in the same order: none, then one relay each. */
  function Chains(candidates: seq<string>): (chains: seq<seq<string>>)
    ensures |chains| == |candidates| + 1 && chains[0] == []
    ensures forall i | 0 <= i < |candidates| :: chains[i + 1] == [candidates[i]]
  {
    [[]] + seq(|candidates|, i requires 0 <= i < |candidates| => [candidates[i]])
  }

  /** A probe result, with the hops it counted. */
  datatype Result = Result(probe: Probe, hops: int)

  /** The results, among the first `n`, of the paths that carry a name. */
  function Credited(names: seq<string>, results: seq<Result>, name: string, n: nat): seq<Result>
    requires n <= |names| && n <= |results|
  {
    if n == 0 then []
    else Credited(names, results, name, n - 1) + (if names[n - 1] == name then [results[n - 1]] else [])
  }

  /** What is kept of a path; `PathMetrics` says what the probes of a history make of the metrics. */
  datatype Tracked = Tracked(relayChain: seq<string>, hopCount: int, history: seq<Result>)

  /** The hops of the last successful probe. */
  function HopsOf(h: seq<Result>): int {
    if h == [] then 0
    else if h[|h| - 1].probe.success then h[|h| - 1].hops
    else HopsOf(h[..|h| - 1])
  }

  /** They are those of the success at position `i` if none came after it, and 0 if there was none. */
  lemma {:induction false} HopsOfLast(h: seq<Result>, i: int)
    requires -1 <= i < |h| && (i >= 0 ==> h[i].probe.success) && forall j | i < j < |h| :: !h[j].probe.success
    ensures HopsOf(h) == if i >= 0 then h[i].hops else 0
    decreases |h|
  {
    if i < |h| - 1 {
      HopsOfLast(h[..|h| - 1], i);
    }
  }

  type PathSet = map<string, Tracked>

  function History(paths: PathSet, name: string): seq<Result> {
    if name in paths then paths[name].history else []
  }

  /** The chain a path has, or would be given. */
  function ChainOr(paths: PathSet, name: string, chain: seq<string>): seq<string> {
    if name in paths then paths[name].relayChain else chain
  }

  /** One result for the path of a name, which is made if there is none. */
  function Credit(paths: PathSet, name: string, chain: seq<string>, r: Result): PathSet {
    var t := if name in paths then paths[name] else Tracked(chain, 0, []);
    paths[name := Tracked(t.relayChain, if r.probe.success then r.hops else t.hopCount, t.history + [r])]
  }

  /** Chains have at most one relay, and the hop count is that of the last success. */
  ghost predicate Sound(paths: PathSet) {
    forall name | name in paths :: |paths[name].relayChain| <= 1 && paths[name].hopCount == HopsOf(paths[name].history)
  }

  lemma CreditSound(paths: PathSet, name: string, chain: seq<string>, r: Result)
    requires Sound(paths) && |chain| <= 1
    ensures Sound(Credit(paths, name, chain, r))
  {
    var h := History(paths, name);
    assert (h + [r])[..|h|] == h;
  }

  class ProbedPaths {
    var paths: PathSet

    constructor ()
      ensures paths == map[] && Sound(paths)
    {
      paths := map[];
    }

    /** Credits every result that arrived to the path of the same position. */
    method CreditAll(names: seq<string>, chains: seq<seq<string>>, results: seq<Result>)
      requires |names| == |chains| && Sound(paths) && forall c | c in chains :: |c| <= 1
      modifies this
      ensures Sound(paths)
      ensures Grown(old(paths), paths, names, chains, results, Min(|names|, |results|))
    {
      hide Grown, Sound, Credit;
      ghost var start := paths;
      NothingCredited(start, names, chains, results);
      for i := 0 to Min(|names|, |results|)
        invariant Sound(paths) && Grown(start, paths, names, chains, results, i)
      {
        CreditStep(start, paths, names, chains, results, i);
        CreditSound(paths, names[i], chains[i], results[i]);
        paths := Credit(paths, names[i], chains[i], results[i]);
      }
    }

    method ProbeTarget(target: string, relays: seq<string>, self: string, results: seq<Result>)
      requires |target| >= 8 && LongIds(relays) && Sound(paths)
      modifies this
      ensures Sound(paths)
      ensures var candidates := Candidates(relays, target, self);
              Grown(old(paths), paths, Names(target, candidates), Chains(candidates), results,
                    Min(|candidates| + 1, |results|))
    {
      hide Grown, Candidates, Sound;
      var names, chains := ProbedNames(relays, target, self);
      CreditAll(names, chains, results);
    }
  }

  /** The direct path and one path for each relay that is neither the target nor the node itself. */
  method ProbedNames(relays: seq<string>, target: string, self: string)
    returns (names: seq<string>, chains: seq<seq<string>>)
    requires |target| >= 8 && LongIds(relays)
    ensures names == Names(target, Candidates(relays, target, self))
    ensures chains == Chains(Candidates(relays, target, self)) && forall c | c in chains :: |c| <= 1
  {
    hide RelayName, DirectName, Names, Chains;
    names, chains := [DirectName(target)], [[]];
    NoNames(target);
    for i := 0 to |relays|
      invariant names == Names(target, Candidates(relays[..i], target, self))
      invariant chains == Chains(Candidates(relays[..i], target, self)) && forall c | c in chains :: |c| <= 1
    {
      CandidateStep(relays, target, self, i);
      if relays[i] == target || relays[i] == self {
        continue;
      }
      NamesStep(target, Candidates(relays[..i], target, self), relays[i]);
      names, chains := names + [RelayName(target, relays[i])], chains + [[relays[i]]];
    }
    assert relays[..|relays|] == relays;
  }

  lemma CandidateStep(relays: seq<string>, target: string, self: string, i: nat)
    requires i < |relays|
    ensures Candidates(relays[..i + 1], target, self)
         == if relays[i] == target || relays[i] == self then Candidates(relays[..i], target, self)
            else Candidates(relays[..i], target, self) + [relays[i]]
  {
    assert relays[..i + 1][..i] == relays[..i];
  }

  lemma NoNames(target: string)
    requires |target| >= 8
    ensures Names(target, []) == [DirectName(target)] && Chains([]) == [[]]
  {
  }

  lemma NamesStep(target: string, candidates: seq<string>, relay: string)
    requires |target| >= 8 && LongIds(candidates) && |relay| >= 8
    ensures Names(target, candidates + [relay]) == Names(target, candidates) + [RelayName(target, relay)]
    ensures Chains(candidates + [relay]) == Chains(candidates) + [[relay]]
  {
    hide RelayName, DirectName;
  }

  /** The first of the first `n` positions that carries a name, or `n`. */
  function FirstOf(names: seq<string>, name: string, n: nat): (i: nat)
    requires n <= |names|
    ensures i <= n && (i < n ==> names[i] == name) && forall j | 0 <= j < i :: names[j] != name
  {
    if n == 0 then 0
    else
      var i := FirstOf(names, name, n - 1);
      if i < n - 1 || names[n - 1] == name then i else n
  }

  /** Every history has grown by the results, among the first `n`, of its name. */
  ghost predicate HistoriesGrown(start: PathSet, paths: PathSet, names: seq<string>, results: seq<Result>, n: nat)
    requires n <= |names| && n <= |results|
  {
    forall name :: History(paths, name) == History(start, name) + Credited(names, results, name, n)
  }

  /** A path that was there keeps its chain; a new one has the chain of the first position with its name. */
  ghost predicate ChainsGiven(start: PathSet, paths: PathSet, names: seq<string>, chains: seq<seq<string>>, n: nat)
    requires n <= |names| == |chains|
  {
    && (forall name :: name in paths <==> name in start || FirstOf(names, name, n) < n)
    && (forall name | name in paths ::
          paths[name].relayChain
          == if name in start then start[name].relayChain
             else if FirstOf(names, name, n) < n then chains[FirstOf(names, name, n)] else [])
  }

  /** The first `n` results lead from `start` to `paths`. */
  ghost predicate Grown(start: PathSet, paths: PathSet, names: seq<string>, chains: seq<seq<string>>,
                        results: seq<Result>, n: nat)
    requires n <= |names| == |chains| && n <= |results|
  {
    HistoriesGrown(start, paths, names, results, n) && ChainsGiven(start, paths, names, chains, n)
  }

  lemma NothingCredited(start: PathSet, names: seq<string>, chains: seq<seq<string>>, results: seq<Result>)
    requires |names| == |chains|
    ensures Grown(start, start, names, chains, results, 0)
  {
  }

  lemma CreditStep(start: PathSet, paths: PathSet, names: seq<string>, chains: seq<seq<string>>,
                   results: seq<Result>, i: nat)
    requires i < |names| == |chains| && i < |results| && Grown(start, paths, names, chains, results, i)
    ensures Grown(start, Credit(paths, names[i], chains[i], results[i]), names, chains, results, i + 1)
  {
    hide HistoriesGrown, ChainsGiven, Credit;
    HistoryStep(start, paths, names, chains, results, i);
    ChainStep(start, paths, names, chains, results[i], i);
  }

  lemma HistoryStep(start: PathSet, paths: PathSet, names: seq<string>, chains: seq<seq<string>>,
                    results: seq<Result>, i: nat)
    requires i < |names| == |chains| && i < |results| && HistoriesGrown(start, paths, names, results, i)
    ensures HistoriesGrown(start, Credit(paths, names[i], chains[i], results[i]), names, results, i + 1)
  {
    hide Credited, History, Credit;
    var after := Credit(paths, names[i], chains[i], results[i]);
    CreditChanges(paths, names[i], chains[i], results[i]);
    forall name ensures History(after, name) == History(start, name) + Credited(names, results, name, i + 1) {
      OneMoreResult(names, results, name, i);
      assert names[i] != name ==> History(after, name) == History(paths, name);
    }
  }

  lemma ChainStep(start: PathSet, paths: PathSet, names: seq<string>, chains: seq<seq<string>>,
                  r: Result, i: nat)
    requires i < |names| == |chains| && ChainsGiven(start, paths, names, chains, i)
    ensures ChainsGiven(start, Credit(paths, names[i], chains[i], r), names, chains, i + 1)
  {
    hide FirstOf, History;
    FirstSteps(names, i);
  }

  lemma FirstSteps(names: seq<string>, i: nat)
    requires i < |names|
    ensures forall name :: FirstOf(names, name, i + 1)
                        == if FirstOf(names, name, i) < i || names[i] == name then FirstOf(names, name, i) else i + 1
  {
  }

  lemma CreditChanges(paths: PathSet, credited: string, chain: seq<string>, r: Result)
    ensures var after := Credit(paths, credited, chain, r);
            && after.Keys == paths.Keys + {credited}
            && History(after, credited) == History(paths, credited) + [r]
            && after[credited].relayChain == ChainOr(paths, credited, chain)
            && (forall name | name != credited && name in paths :: after[name] == paths[name])
            && forall name | name != credited :: History(after, name) == History(paths, name)
  {
  }

  lemma OneMoreResult(names: seq<string>, results: seq<Result>, name: string, n: nat)
    requires n < |names| && n < |results|
    ensures Credited(names, results, name, n + 1)
         == Credited(names, results, name, n) + (if names[n] == name then [results[n]] else [])
  {
  }

  lemma {:induction false} CreditedOthersOnly(names: seq<string>, results: seq<Result>, name: string, n: nat)
    requires n <= |names| && n <= |results| && forall j | 0 <= j < n :: names[j] != name
    ensures Credited(names, results, name, n) == []
  {
    if n > 0 {
      CreditedOthersOnly(names, results, name, n - 1);
    }
  }

  lemma {:induction false} CreditedCounts(names: seq<string>, results: seq<Result>, i: nat, n: nat)
    requires i < n <= |names| && n <= |results|
    ensures (forall j | 0 <= j < n && j != i :: names[j] != names[i])
              ==> Credited(names, results, names[i], n) == [results[i]]
    ensures (exists j | 0 <= j < n :: j != i && names[j] == names[i]) ==> |Credited(names, results, names[i], n)| >= 2
    decreases n
  {
    hide Credited;
    var name := names[i];
    OneMoreResult(names, results, name, n - 1);
    if i == n - 1 {
      if forall j | 0 <= j < n - 1 :: names[j] != name {
        CreditedOthersOnly(names, results, name, n - 1);
      } else {
        var j :| 0 <= j < n - 1 && names[j] == name;
        CreditedSome(names, results, name, j, n - 1);
      }
    } else {
      CreditedCounts(names, results, i, n - 1);
      CreditedSome(names, results, name, i, n - 1);
    }
  }

  lemma {:induction false} CreditedSome(names: seq<string>, results: seq<Result>, name: string, j: nat, n: nat)
    requires j < n <= |names| && n <= |results| && names[j] == name
    ensures |Credited(names, results, name, n)| >= 1
  {
    if j < n - 1 {
      CreditedSome(names, results, name, j, n - 1);
    }
  }

  /**
   * A relay path is credited its own result and nothing else exactly when no other relay probed in the round
   * starts with the same eight characters; relays that do are taken for one path.
   */
  lemma CreditedOwnResultExactlyWhen(target: string, candidates: seq<string>, results: seq<Result>, i: nat)
    requires |target| >= 8 && LongIds(candidates) && |results| == |candidates| + 1 && i < |candidates|
    ensures var names := Names(target, candidates);
            Credited(names, results, names[i + 1], |names|) == [results[i + 1]]
            <==> forall j | 0 <= j < |candidates| && j != i :: Short(candidates[j]) != Short(candidates[i])
  {
    hide Credited, Names, RelayName;
    var names := Names(target, candidates);
    CreditedCounts(names, results, i + 1, |names|);
    DirectNotRelay(target, candidates[i]);
    assert names[0] != names[i + 1];
    forall j | 0 <= j < |candidates|
      ensures names[j + 1] == names[i + 1] <==> Short(candidates[j]) == Short(candidates[i])
    {
      SameRelayName(target, candidates[j], candidates[i]);
    }
    if forall j | 0 <= j < |candidates| && j != i :: Short(candidates[j]) != Short(candidates[i]) {
      assert forall j | 0 <= j < |names| && j != i + 1 :: names[j] != names[i + 1] by {
        forall j | 0 <= j < |names| && j != i + 1 ensures names[j] != names[i + 1] {
          if j > 0 {
            assert names[j - 1 + 1] == names[i + 1] <==> Short(candidates[j - 1]) == Short(candidates[i]);
          }
        }
      }
    } else {
      var j :| 0 <= j < |candidates| && j != i && Short(candidates[j]) == Short(candidates[i]);
      assert names[j + 1] == names[i + 1];
    }
  }

  lemma DirectNotRelay(target: string, relay: string)
    requires |target| >= 8 && |relay| >= 8
    ensures DirectName(target) != RelayName(target, relay)
  {
    assert DirectName(target)[0] == 'd' && RelayName(target, relay)[0] == 'r';
  }

  lemma SameRelayName(target: string, a: string, b: string)
    requires |target| >= 8 && |a| >= 8 && |b| >= 8
    ensures RelayName(target, a) == RelayName(target, b) <==> Short(a) == Short(b)
  {
    SameSuffix("relay-" + Short(target) + "-via-", Short(a), Short(b));
  }

  /**
   * Two relays that share eight characters: the round makes one path for both, with the first relay's chain and
   * both results, and none for the second relay.
   */
  lemma RelaysShareAPath(target: string, a: string, b: string, results: seq<Result>, paths: PathSet)
    requires |target| >= 8 && |a| >= 8 && |b| >= 8 && Short(a) == Short(b) && |results| == 3
    requires Grown(map[], paths, Names(target, [a, b]), Chains([a, b]), results, 3)
    ensures var name := RelayName(target, a);
            && name == RelayName(target, b) && paths.Keys == {DirectName(target), name}
            && paths[name].relayChain == [a] && paths[name].history == [results[1], results[2]]
  {
    hide RelayName, DirectName, Names, Chains, HistoriesGrown, ChainsGiven;
    SameRelayName(target, a, b);
    DirectNotRelay(target, a);
    OfTwo(target, a, b);
    OnePathForTwo(DirectName(target), RelayName(target, a), a, b, results, paths);
  }

  lemma OnePathForTwo(direct: string, name: string, a: string, b: string, results: seq<Result>, paths: PathSet)
    requires direct != name && |results| == 3
    requires Grown(map[], paths, [direct, name, name], [[], [a], [b]], results, 3)
    ensures paths.Keys == {direct, name}
    ensures paths[name].relayChain == [a] && paths[name].history == [results[1], results[2]]
  {
    hide Credited, FirstOf;
    TwoCredited(direct, name, results);
    FirstOfThree(direct, name);
    assert History(paths, name) == History(map[], name) + [results[1], results[2]];
  }

  lemma TwoCredited(direct: string, name: string, results: seq<Result>)
    requires direct != name && |results| == 3
    ensures Credited([direct, name, name], results, name, 3) == [results[1], results[2]]
  {
    hide Credited;
    var names := [direct, name, name];
    NothingYet(names, results, name);
    OneMoreResult(names, results, name, 0);
    OneMoreResult(names, results, name, 1);
    OneMoreResult(names, results, name, 2);
  }

  lemma FirstOfThree(direct: string, name: string)
    requires direct != name
    ensures var names := [direct, name, name];
            && FirstOf(names, name, 3) == 1 && FirstOf(names, direct, 3) == 0
            && forall other :: FirstOf(names, other, 3) < 3 <==> other == direct || other == name
  {
    hide FirstOf;
    var names := [direct, name, name];
    assert names[0] == direct && names[1] == name && names[2] == name;
    forall other ensures FirstOf(names, other, 3) < 3 <==> other == direct || other == name {
    }
  }

  /** There are such relays: these two differ, and only after the eighth character. */
  lemma DistinctRelaysOneName(target: string)
    requires |target| >= 8
    ensures var a, b := "12D3KooWAbcd", "12D3KooWEfgh"; a != b && RelayName(target, a) == RelayName(target, b)
  {
    var a, b := "12D3KooWAbcd", "12D3KooWEfgh";
    assert a[8] != b[8];
    assert Short(a) == Short(b);
    SameRelayName(target, a, b);
  }

  lemma OfTwo(target: string, a: string, b: string)
    requires |target| >= 8 && |a| >= 8 && |b| >= 8
    ensures Names(target, [a, b]) == [DirectName(target), RelayName(target, a), RelayName(target, b)]
    ensures Chains([a, b]) == [[], [a], [b]]
  {
    hide RelayName, DirectName;
  }

  lemma NothingYet(names: seq<string>, results: seq<Result>, name: string)
    ensures Credited(names, results, name, 0) == []
  {
  }

  lemma SameSuffix(p: string, a: string, b: string)
    ensures p + a == p + b <==> a == b
  {
    if p + a == p + b {
      assert a == (p + a)[|p|..] == (p + b)[|p|..] == b;
    }
  }

  // ----- Pruning after a round -----

  function Probes(h: seq<Result>): (ps: seq<Probe>)
    ensures |ps| == |h| && forall i | 0 <= i < |h| :: ps[i] == h[i].probe
  {
    seq(|h|, i requires 0 <= i < |h| => h[i].probe)
  }

  lemma {:induction false} CreditedLast(names: seq<string>, results: seq<Result>, name: string, n: nat)
    requires n <= |names| && n <= |results| && FirstOf(names, name, n) < n
    ensures var c := Credited(names, results, name, n);
            c != [] && exists i | 0 <= i < n :: results[i] == c[|c| - 1]
  {
    if names[n - 1] != name {
      CreditedLast(names, results, name, n - 1);
    } else {
      assert results[n - 1] == Credited(names, results, name, n)[|Credited(names, results, name, n)| - 1];
    }
  }

  /**
   * No path credited in a round is pruned within half an hour of its probes, however often it has failed; and the
   * manager prunes right after a round.
   */
  lemma CreditedPathStays(start: PathSet, paths: PathSet, names: seq<string>, chains: seq<seq<string>>,
                          results: seq<Result>, n: nat, name: string, now: int)
    requires n <= |names| == |chains| && n <= |results| && Grown(start, paths, names, chains, results, n)
    requires exists i | 0 <= i < n :: names[i] == name
    requires forall i | 0 <= i < n :: now - results[i].probe.at <= STALE_AFTER
    ensures name in paths && !Stale(Probes(paths[name].history), now)
  {
    hide Credited, FirstOf, Stale;
    CreditedLast(names, results, name, n);
    var c := Credited(names, results, name, n);
    var h := History(start, name) + c;
    assert History(paths, name) == h;
    var ps := Probes(h);
    assert ps == ps[..|ps| - 1] + [ps[|ps| - 1]];
    ProbedLatelyStays(ps[..|ps| - 1], ps[|ps| - 1], now);
  }

  // ----- Scores -----

  /** The metrics a policy looks at. */
  datatype View = View(sampleCount: nat, avgRTT: int, jitter: int, hopCount: nat, successRate: real)

  datatype Weights = Weights(latency: real, reliability: real, hopCount: real, jitter: real)

  const DEFAULT_WEIGHTS := Weights(0.35, 0.25, 0.25, 0.15)

  function Milliseconds(nanoseconds: int): real {
    nanoseconds as real / 1_000_000.0
  }

  /** `BalancedPolicy.Score`; `log1p` stands for ln(1+x). */
  function BalancedScore(w: Weights, log1p: real -> real, v: View): real
    requires forall x :: x >= 0.0 ==> log1p(x) >= 0.0
  {
    if v.sampleCount == 0 then 0.0
    else
      Times(w.latency, LatencyTerm(log1p, v.avgRTT)) + Times(w.reliability, v.successRate)
      + Times(w.hopCount, 1.0 / (v.hopCount + 1) as real) + Times(w.jitter, JitterTerm(log1p, v.jitter))
  }

  lemma InverseInUnit(x: real)
    requires x >= 1.0
    ensures 0.0 < 1.0 / x <= 1.0
  {
  }

  /** The default score of a path lies in [0,1], whatever its probes did: what UCB1's guarantee asks of scores. */
  lemma DefaultScoreInUnit(log1p: real -> real, v: View, h: seq<Probe>)
    requires forall x :: x >= 0.0 ==> log1p(x) >= 0.0
    requires v.successRate == Rate(h)
    ensures 0.0 <= BalancedScore(DEFAULT_WEIGHTS, log1p, v) <= 1.0
  {
    RateInUnit(h);
    if v.avgRTT > 0 {
      InverseInUnit(1.0 + log1p(Milliseconds(v.avgRTT)));
    }
    if v.jitter > 0 {
      InverseInUnit(1.0 + log1p(Milliseconds(v.jitter)));
    }
    InverseInUnit((v.hopCount + 1) as real);
  }

  /**
   * What each metric adds: the default weights are 0.35, 0.25, 0.25 and 0.15, the terms 1 / (1 + ln(1 + ms)) for
   * latency and jitter, the success rate, and 1 / (hops + 1). A path without an average has no latency term, one
   * without jitter the full jitter term.
   */
  lemma ScoreParts(log1p: real -> real, v: View) returns (latency: real, hops: real, jitter: real)
    requires v.sampleCount > 0 && forall x :: x >= 0.0 ==> log1p(x) >= 0.0
    ensures BalancedScore(DEFAULT_WEIGHTS, log1p, v)
         == 0.35 * latency + 0.25 * v.successRate + 0.25 * hops + 0.15 * jitter
    ensures if v.avgRTT > 0 then latency * (1.0 + log1p(v.avgRTT as real / 1_000_000.0)) == 1.0 else latency == 0.0
    ensures hops * (v.hopCount + 1) as real == 1.0
    ensures if v.jitter > 0 then jitter * (1.0 + log1p(v.jitter as real / 1_000_000.0)) == 1.0 else jitter == 1.0
  {
    latency := if v.avgRTT > 0 then 1.0 / (1.0 + log1p(Milliseconds(v.avgRTT))) else 0.0;
    hops := 1.0 / (v.hopCount + 1) as real;
    jitter := if v.jitter > 0 then 1.0 / (1.0 + log1p(Milliseconds(v.jitter))) else 1.0;
    if v.avgRTT > 0 {
      InverseOf(1.0 + log1p(Milliseconds(v.avgRTT)));
    }
    if v.jitter > 0 {
      InverseOf(1.0 + log1p(Milliseconds(v.jitter)));
    }
    InverseOf((v.hopCount + 1) as real);
  }

  lemma InverseOf(x: real)
    requires x >= 1.0
    ensures 1.0 / x * x == 1.0
  {
  }

  lemma InverseFalls(x: real, y: real)
    requires 1.0 <= x <= y
    ensures 1.0 / x >= 1.0 / y
  {
    InverseOf(x);
    InverseOf(y);
    InverseInUnit(y);
    CancelFactor(1.0 / x, 1.0 / y, x);
    assert 1.0 / y * x <= 1.0 / y * y;
  }

  lemma MillisecondsGrow(x: int, y: int)
    requires 0 <= x <= y
    ensures 0.0 <= Milliseconds(x) <= Milliseconds(y)
  {
  }

  lemma WeightedMore(w: real, x: real, y: real)
    requires w >= 0.0 && x >= y
    ensures Times(w, x) >= Times(w, y)
    ensures w > 0.0 && x > y ==> Times(w, x) > Times(w, y)
  {
    TimesMinus(w, x, y);
    if w > 0.0 && x > y {
      TimesPositive(w, x - y);
    }
  }

  /** No metric that gets better lowers the score: a higher success rate, a lower RTT, fewer hops, less jitter. */
  lemma ScoreImproves(w: Weights, log1p: real -> real, v: View, u: View)
    requires forall x, y | 0.0 <= x <= y :: 0.0 <= log1p(x) <= log1p(y)
    requires w.latency >= 0.0 && w.reliability >= 0.0 && w.hopCount >= 0.0 && w.jitter >= 0.0
    requires v.sampleCount > 0 && u.sampleCount > 0
    requires v.successRate >= u.successRate && v.hopCount <= u.hopCount && v.jitter <= u.jitter
    requires v.avgRTT <= u.avgRTT && (v.avgRTT > 0 || u.avgRTT <= 0)
    ensures BalancedScore(w, log1p, v) >= BalancedScore(w, log1p, u)
    ensures w.reliability > 0.0 && v.successRate > u.successRate ==>
              BalancedScore(w, log1p, v) > BalancedScore(w, log1p, u)
  {
    hide Times, LatencyTerm, JitterTerm;
    var lv, lu := LatencyTerm(log1p, v.avgRTT), LatencyTerm(log1p, u.avgRTT);
    var jv, ju := JitterTerm(log1p, v.jitter), JitterTerm(log1p, u.jitter);
    TermsFall(log1p, v.avgRTT, u.avgRTT, v.jitter, u.jitter);
    InverseFalls((v.hopCount + 1) as real, (u.hopCount + 1) as real);
    WeightedMore(w.latency, lv, lu);
    WeightedMore(w.reliability, v.successRate, u.successRate);
    WeightedMore(w.hopCount, 1.0 / (v.hopCount + 1) as real, 1.0 / (u.hopCount + 1) as real);
    WeightedMore(w.jitter, jv, ju);
  }

  function LatencyTerm(log1p: real -> real, avgRTT: int): real
    requires forall x :: x >= 0.0 ==> log1p(x) >= 0.0
  {
    if avgRTT > 0 then 1.0 / (1.0 + log1p(Milliseconds(avgRTT))) else 0.0
  }

  function JitterTerm(log1p: real -> real, jitter: int): real
    requires forall x :: x >= 0.0 ==> log1p(x) >= 0.0
  {
    if jitter > 0 then 1.0 / (1.0 + log1p(Milliseconds(jitter))) else 1.0
  }

  lemma TermsFall(log1p: real -> real, rtt: int, longer: int, jitter: int, more: int)
    requires forall x, y | 0.0 <= x <= y :: 0.0 <= log1p(x) <= log1p(y)
    requires rtt <= longer && (rtt > 0 || longer <= 0) && jitter <= more
    ensures LatencyTerm(log1p, rtt) >= LatencyTerm(log1p, longer)
    ensures JitterTerm(log1p, jitter) >= JitterTerm(log1p, more)
  {
    if rtt > 0 {
      MillisecondsGrow(rtt, longer);
      InverseFalls(1.0 + log1p(Milliseconds(rtt)), 1.0 + log1p(Milliseconds(longer)));
    }
    if jitter > 0 {
      MillisecondsGrow(jitter, more);
      InverseFalls(1.0 + log1p(Milliseconds(jitter)), 1.0 + log1p(Milliseconds(more)));
    } else if more > 0 {
      InverseInUnit(1.0 + log1p(Milliseconds(more)));
    }
  }

  /** A path that was never probed scores nothing. */
  lemma UnprobedScoresNothing(w: Weights, log1p: real -> real, v: View)
    requires v.sampleCount == 0 && forall x :: x >= 0.0 ==> log1p(x) >= 0.0
    ensures BalancedScore(w, log1p, v) == 0.0
  {
  }
}
