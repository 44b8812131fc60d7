/** Choosing relay-disjoint paths (internal/pathpolicy/manager.go, `DisjointPaths`). */
module Disjoint {
  import opened Arithmetic
  import opened Ranking
  import opened Seqs

  datatype RelayPath = RelayPath(id: string, relayChain: seq<string>, samples: nat)

  type Ranked = seq<Scored<RelayPath>>

  function Relays(p: RelayPath): set<string> {
    set r | r in p.relayChain
  }

  /** The probed paths with their scores. */
  function Probed(all: seq<RelayPath>, score: RelayPath -> real): Ranked {
    if all == [] then []
    else
      var p := all[|all| - 1];
      Probed(all[..|all| - 1], score) + (if p.samples > 0 then [Scored(p, score(p))] else [])
  }

  /** Walk down the ranking, taking every path that meets no relay in use, up to `n` paths. */
  function Greedy(r: Ranked, used: set<string>, n: int): Ranked {
    if r == [] || n <= 0 then []
    else if !(Relays(r[0].item) !! used) then Greedy(r[1..], used, n)
    else [r[0]] + Greedy(r[1..], used + Relays(r[0].item), n - 1)
  }

  /** What `DisjointPaths` returns, with scores. */
  function Chosen(all: seq<RelayPath>, score: RelayPath -> real, n: int): Ranked {
    Greedy(SortDesc(Probed(all, score)), {}, n)
  }

  method SelectDisjoint(all: seq<RelayPath>, score: RelayPath -> real, n: int) returns (selected: seq<RelayPath>)
    ensures selected == Items(Chosen(all, score, n))
  {
    var scored: Ranked := [];
    for i := 0 to |all|
      invariant scored == Probed(all[..i], score)
    {
      assert all[..i + 1][..i] == all[..i];
      if all[i].samples > 0 {
        scored := scored + [Scored(all[i], score(all[i]))];
      }
    }
    assert all[..|all|] == all;
    var a := new Scored<RelayPath>[|scored|](i requires 0 <= i < |scored| => scored[i]);
    assert a[..] == scored;
    InsertionSort(a);
    selected := TakeDisjoint(a, n);
  }

  function Items(r: Ranked): (ps: seq<RelayPath>)
    ensures |ps| == |r| && forall i | 0 <= i < |r| :: ps[i] == r[i].item
  {
    seq(|r|, i requires 0 <= i < |r| => r[i].item)
  }

  method TakeDisjoint(a: array<Scored<RelayPath>>, n: int) returns (selected: seq<RelayPath>)
    ensures selected == Items(Greedy(a[..], {}, n))
  {
    hide Relays;
    ghost var r := a[..];
    selected := [];
    var used: set<string> := {};
    ghost var taken: Ranked := [];
    for i := 0 to a.Length
      invariant selected == Items(taken)
      invariant Greedy(r, {}, n) == taken + Greedy(r[i..], used, n - |taken|)
    {
      assert r[i..][1..] == r[i + 1..];
      if |selected| >= n {
        return;
      }
      var conflict := Conflicts(a[i].item, used);
      if !conflict {
        selected := selected + [a[i].item];
        used := used + Relays(a[i].item);
        taken := taken + [a[i]];
      }
    }
  }

  /** Does any relay of the chain occur among those in use? */
  method Conflicts(p: RelayPath, used: set<string>) returns (conflict: bool)
    ensures conflict <==> !(Relays(p) !! used)
  {
    conflict := false;
    for i := 0 to |p.relayChain|
      invariant forall j | 0 <= j < i :: p.relayChain[j] !in used
    {
      if p.relayChain[i] in used {
        assert p.relayChain[i] in Relays(p);
        return true;
      }
    }
  }

  // ----- What is chosen, for chains of any length -----

  ghost predicate PairwiseDisjoint(s: Ranked) {
    forall i, j | 0 <= i < j < |s| :: Relays(s[i].item) !! Relays(s[j].item)
  }

  ghost predicate Avoids(s: Ranked, used: set<string>) {
    forall i | 0 <= i < |s| :: Relays(s[i].item) !! used
  }

  /** `p` was left out for a returned path with which it shares a relay and which scores at least as high. */
  ghost predicate BlockedBy(p: Scored<RelayPath>, chosen: Ranked, used: set<string>) {
    !(Relays(p.item) !! used) || exists q :: q in chosen && q.score >= p.score && !(Relays(q.item) !! Relays(p.item))
  }

  ghost predicate OutrankedBy(p: Scored<RelayPath>, chosen: Ranked, n: int) {
    |chosen| >= n && forall q | q in chosen :: q.score >= p.score
  }

  /** Everything in `r` is returned, or left out for a reason. */
  ghost predicate Justified(r: Ranked, chosen: Ranked, used: set<string>, n: int) {
    forall p | p in r :: p in chosen || BlockedBy(p, chosen, used) || OutrankedBy(p, chosen, n)
  }

  lemma {:induction false} GreedyChooses(r: Ranked, used: set<string>, n: int)
    ensures var g := Greedy(r, used, n);
            PairwiseDisjoint(g) && Avoids(g, used) && (n >= 0 ==> |g| <= n) && forall q | q in g :: q in r
    decreases |r|
  {
    hide Relays, PairwiseDisjoint, Avoids;
    if r == [] || n <= 0 {
      NothingChosen(used);
    } else {
      if !(Relays(r[0].item) !! used) {
        GreedyChooses(r[1..], used, n);
      } else {
        var g := Greedy(r[1..], used + Relays(r[0].item), n - 1);
        GreedyChooses(r[1..], used + Relays(r[0].item), n - 1);
        HeadJoins(r[0], g, used);
        assert Greedy(r, used, n) == [r[0]] + g;
      }
    }
  }

  lemma NothingChosen(used: set<string>)
    ensures PairwiseDisjoint([]) && Avoids([], used)
  {
  }

  lemma HeadJoins(h: Scored<RelayPath>, g: Ranked, used: set<string>)
    requires PairwiseDisjoint(g) && Avoids(g, used + Relays(h.item)) && Relays(h.item) !! used
    ensures PairwiseDisjoint([h] + g) && Avoids([h] + g, used)
  {
    hide Relays;
    forall i | 0 <= i < |g| ensures Relays(g[i].item) !! used && Relays(h.item) !! Relays(g[i].item) {
      assert Relays(g[i].item) !! used + Relays(h.item);
    }
  }

  lemma {:induction false} GreedyDescending(r: Ranked, used: set<string>, n: int)
    requires Descending(r)
    ensures Descending(Greedy(r, used, n)) && (n < 0 ==> Greedy(r, used, n) == [])
    decreases |r|
  {
    hide Relays;
    if r != [] && n > 0 {
      RestBelow(r);
      if !(Relays(r[0].item) !! used) {
        GreedyDescending(r[1..], used, n);
      } else {
        var g := Greedy(r[1..], used + Relays(r[0].item), n - 1);
        GreedyDescending(r[1..], used + Relays(r[0].item), n - 1);
        GreedyChooses(r[1..], used + Relays(r[0].item), n - 1);
        hide Greedy;
        forall i | 0 <= i < |g| ensures g[i].score <= r[0].score {
          assert g[i] in g;
        }
      }
    }
  }

  lemma RestBelow(r: Ranked)
    requires r != [] && Descending(r)
    ensures Descending(r[1..]) && forall e | e in r[1..] :: e.score <= r[0].score
  {
    forall e | e in r[1..] ensures e.score <= r[0].score {
      var k :| 0 <= k < |r[1..]| && r[1..][k] == e;
      assert r[k + 1] == e;
    }
  }

  lemma {:induction false} GreedyJustified(r: Ranked, used: set<string>, n: int)
    requires Descending(r)
    ensures Justified(r, Greedy(r, used, n), used, n)
    decreases |r|
  {
    hide Relays;
    if r != [] && n > 0 {
      var h := r[0];
      if !(Relays(h.item) !! used) {
        GreedyJustified(r[1..], used, n);
        assert Greedy(r, used, n) == Greedy(r[1..], used, n);
      } else {
        GreedyJustified(r[1..], used + Relays(h.item), n - 1);
        JustifiedBehind(r, Greedy(r[1..], used + Relays(h.item), n - 1), used, n);
      }
    }
  }

  lemma JustifiedBehind(r: Ranked, g: Ranked, used: set<string>, n: int)
    requires r != [] && Descending(r) && Justified(r[1..], g, used + Relays(r[0].item), n - 1)
    ensures Justified(r, [r[0]] + g, used, n)
  {
    hide Relays, BlockedBy, OutrankedBy;
    forall p | p in r && p !in [r[0]] + g ensures BlockedBy(p, [r[0]] + g, used) || OutrankedBy(p, [r[0]] + g, n) {
      var i :| 0 <= i < |r| && r[i] == p;
      assert r[1..][i - 1] == p;
      StillLeftOut(p, r[0], g, used, n);
    }
  }

  lemma StillLeftOut(p: Scored<RelayPath>, h: Scored<RelayPath>, g: Ranked, used: set<string>, n: int)
    requires h.score >= p.score
    requires BlockedBy(p, g, used + Relays(h.item)) || OutrankedBy(p, g, n - 1)
    ensures BlockedBy(p, [h] + g, used) || OutrankedBy(p, [h] + g, n)
  {
    hide Relays;
    if BlockedBy(p, g, used + Relays(h.item)) {
      assert h in [h] + g;
      assert forall q | q in g :: q in [h] + g;
    }
  }

  lemma {:induction false} ProbedMembers(all: seq<RelayPath>, score: RelayPath -> real)
    ensures forall e :: e in Probed(all, score) <==> e.item in all && e.item.samples > 0 && e.score == score(e.item)
    decreases |all|
  {
    if all != [] {
      ProbedMembers(all[..|all| - 1], score);
      assert all == all[..|all| - 1] + [all[|all| - 1]];
    }
  }

  /**
   * The returned paths share no relay. Every probed path left out shares a relay with a returned path scored at
   * least as high, unless `n` paths, all scored at least as high, were returned.
   */
  lemma SelectionJustified(all: seq<RelayPath>, score: RelayPath -> real, n: int)
    ensures var chosen := Chosen(all, score, n);
            && PairwiseDisjoint(chosen) && Descending(chosen) && (if n >= 0 then |chosen| <= n else chosen == [])
            && (forall q | q in chosen :: q.item in all && q.item.samples > 0 && q.score == score(q.item))
            && (forall p | p in all && p.samples > 0 ::
                  || Scored(p, score(p)) in chosen
                  || (exists q :: q in chosen && q.score >= score(p) && !(Relays(q.item) !! Relays(p)))
                  || OutrankedBy(Scored(p, score(p)), chosen, n))
  {
    hide Relays, SortDesc, Probed, Greedy, PairwiseDisjoint, Descending;
    var r := SortDesc(Probed(all, score));
    Sorted(all, score);
    GreedyChooses(r, {}, n);
    GreedyJustified(r, {}, n);
    GreedyDescending(r, {}, n);
    forall p | p in all && p.samples > 0
      ensures var chosen, e := Chosen(all, score, n), Scored(p, score(p));
              e in chosen || BlockedBy(e, chosen, {}) || OutrankedBy(e, chosen, n)
    {
      assert Scored(p, score(p)) in r;
    }
  }

  // ----- When the choice is optimal -----

  /** Two paths meet exactly when some relay is in the chains of both; a direct path meets none. */
  lemma MeetsExactlyWhen(p: RelayPath, q: RelayPath)
    ensures Meets(p, q) <==> exists x :: x in p.relayChain && x in q.relayChain
  {
    if exists x :: x in p.relayChain && x in q.relayChain {
      var x :| x in p.relayChain && x in q.relayChain;
      assert x in Relays(p) && x in Relays(q);
    }
  }

  /** No relay serves two of the chosen paths. */
  lemma NoRelayTwice(all: seq<RelayPath>, score: RelayPath -> real, n: int, i: nat, j: nat, x: string)
    requires i < j < |Chosen(all, score, n)|
    ensures !(x in Chosen(all, score, n)[i].item.relayChain && x in Chosen(all, score, n)[j].item.relayChain)
  {
    hide Chosen;
    SelectionJustified(all, score, n);
    var chosen := Chosen(all, score, n);
    MeetsExactlyWhen(chosen[i].item, chosen[j].item);
  }

  predicate Meets(p: RelayPath, q: RelayPath) {
    !(Relays(p) !! Relays(q))
  }

  /** Among the listed paths, two that share a relay with a third share one with each other. */
  ghost predicate SharingTransitive(r: Ranked) {
    forall e, f, g | e in r && f in r && g in r && Meets(e.item, f.item) && Meets(f.item, g.item) ::
      Meets(e.item, g.item)
  }

  function Total(s: Ranked): real {
    if s == [] then 0.0 else s[0].score + Total(s[1..])
  }

  /** A set the caller could have asked for instead: drawn from `r`, relay-disjoint, at most `n` paths. */
  ghost predicate Alternative(s: Ranked, r: Ranked, used: set<string>, n: int) {
    && |s| <= n && Distinct(s) && PairwiseDisjoint(s) && Avoids(s, used)
    && forall i | 0 <= i < |s| :: s[i] in r
  }

  lemma {:induction false} TotalWithout(s: Ranked, k: nat)
    requires k < |s|
    ensures Total(s) == s[k].score + Total(Without(s, k))
    decreases |s|
  {
    if k == 0 {
      assert Without(s, 0) == s[1..];
    } else {
      TotalWithout(s[1..], k - 1);
      assert Without(s, k)[1..] == Without(s[1..], k - 1);
    }
  }

  lemma {:induction false} TotalNonnegative(s: Ranked)
    requires forall e | e in s :: e.score >= 0.0
    ensures Total(s) >= 0.0
  {
    if s != [] {
      assert s[0] in s;
      TotalNonnegative(s[1..]);
    }
  }

  /** Giving up element `k` makes room for the head of the ranking. */
  lemma MakesWay(s: Ranked, r: Ranked, used: set<string>, n: int, k: nat)
    requires r != [] && k < |s| && Alternative(s, r, used, n)
    requires forall i | 0 <= i < |s| && i != k :: s[i] != r[0] && Relays(s[i].item) !! Relays(r[0].item)
    ensures Alternative(Without(s, k), r[1..], used + Relays(r[0].item), n - 1)
  {
    hide Relays;
    WithoutFrom(s, k);
    var t := Without(s, k);
    assert forall i, j | 0 <= i < j < |t| :: t[i] != t[j] && Relays(t[i].item) !! Relays(t[j].item) by {
      forall i, j | 0 <= i < j < |t| ensures t[i] != t[j] && Relays(t[i].item) !! Relays(t[j].item) {
        assert s[Origin(i, k)] != s[Origin(j, k)];
      }
    }
    forall i | 0 <= i < |t| ensures t[i] in r[1..] && Relays(t[i].item) !! used + Relays(r[0].item) {
      assert t[i] == s[Origin(i, k)] && s[Origin(i, k)] in r;
    }
  }

  /** Which element to give up for the head `h`: `h` itself, else one sharing its relay, else any. */
  lemma Dispensable(s: Ranked, r: Ranked, used: set<string>, n: int) returns (k: nat)
    requires r != [] && s != [] && Alternative(s, r, used, n) && Descending(r)
    requires SharingTransitive(r)
    ensures k < |s| && s[k].score <= r[0].score
    ensures forall i | 0 <= i < |s| && i != k :: s[i] != r[0] && Relays(s[i].item) !! Relays(r[0].item)
  {
    var h := r[0];
    if i :| 0 <= i < |s| && s[i] == h {
      k := i;
      OthersDiffer(s, k);
    } else if i :| 0 <= i < |s| && !(Relays(s[i].item) !! Relays(h.item)) {
      k := i;
      OthersDiffer(s, k);
      forall j | 0 <= j < |s| && j != k ensures Relays(s[j].item) !! Relays(h.item) {
        SharingCarries(r, s[j], h, s[k]);
      }
    } else {
      k := 0;
      hide Relays;
    }
    assert s[k] in r;
  }

  lemma SharingCarries(r: Ranked, e: Scored<RelayPath>, f: Scored<RelayPath>, g: Scored<RelayPath>)
    requires SharingTransitive(r) && e in r && f in r && g in r && Meets(f.item, g.item)
    ensures Meets(e.item, f.item) ==> Meets(e.item, g.item)
  {
  }

  lemma OthersDiffer(s: Ranked, k: nat)
    requires k < |s| && Distinct(s) && PairwiseDisjoint(s)
    ensures forall i | 0 <= i < |s| && i != k :: s[i] != s[k] && Relays(s[i].item) !! Relays(s[k].item)
  {
    hide Relays;
    forall i | 0 <= i < |s| && i != k ensures s[i] != s[k] && Relays(s[i].item) !! Relays(s[k].item) {
      if k < i {
        assert s[k] != s[i] && Relays(s[k].item) !! Relays(s[i].item);
      }
    }
  }

  /** What `GreedyOptimal` asks of a ranking holds of the rest of it. */
  lemma RankingRest(r: Ranked)
    requires r != [] && Descending(r) && Distinct(r)
    requires SharingTransitive(r) && forall e | e in r :: e.score >= 0.0
    ensures SharingTransitive(r[1..]) && Descending(r[1..]) && Distinct(r[1..]) && r[0].score >= 0.0
    ensures forall e | e in r[1..] :: e.score >= 0.0
  {
    hide Meets;
    assert r[0] in r;
    forall e | e in r[1..] ensures e in r {
    }
  }

  lemma TotalGreedy(r: Ranked, used: set<string>, n: int)
    requires r != [] && n > 0
    ensures !(Relays(r[0].item) !! used) ==> Total(Greedy(r, used, n)) == Total(Greedy(r[1..], used, n))
    ensures Relays(r[0].item) !! used
        ==> Total(Greedy(r, used, n)) == r[0].score + Total(Greedy(r[1..], used + Relays(r[0].item), n - 1))
  {
    hide Relays;
    if Relays(r[0].item) !! used {
      var g := Greedy(r[1..], used + Relays(r[0].item), n - 1);
      assert Greedy(r, used, n) == [r[0]] + g && ([r[0]] + g)[1..] == g;
    }
  }

  lemma HeadUnusable(s: Ranked, r: Ranked, used: set<string>, n: int)
    requires r != [] && Alternative(s, r, used, n) && !(Relays(r[0].item) !! used)
    ensures Alternative(s, r[1..], used, n)
  {
    hide Relays;
    forall i | 0 <= i < |s| ensures s[i] in r[1..] {
      assert s[i] in r && s[i] != r[0];
    }
  }

  /** Where sharing is transitive, giving up one element that scores no more makes way for the head. */
  lemma OneForHead(s: Ranked, r: Ranked, used: set<string>, n: int) returns (t: Ranked)
    requires r != [] && s != [] && Alternative(s, r, used, n) && Descending(r) && SharingTransitive(r)
    ensures Alternative(t, r[1..], used + Relays(r[0].item), n - 1)
    ensures Total(s) <= Total(t) + r[0].score
  {
    hide Relays, SharingTransitive, Alternative, Descending, Total;
    var k := Dispensable(s, r, used, n);
    MakesWay(s, r, used, n, k);
    TotalWithout(s, k);
    t := Without(s, k);
  }

  lemma DrawnFrom(s: Ranked, r: Ranked, used: set<string>, n: int)
    requires s != [] && Alternative(s, r, used, n)
    ensures r != [] && n > 0
  {
    assert s[0] in r;
  }

  lemma {:induction false} GreedyOptimal(s: Ranked, r: Ranked, used: set<string>, n: int)
    requires Alternative(s, r, used, n) && Descending(r) && Distinct(r)
    requires SharingTransitive(r) && forall e | e in r :: e.score >= 0.0
    ensures Total(s) <= Total(Greedy(r, used, n))
    decreases |r|
  {
    hide Relays, SharingTransitive, Alternative, Descending, Distinct, Greedy;
    GreedyNonnegative(r, used, n);
    if s != [] {
      DrawnFrom(s, r, used, n);
      RankingRest(r);
      TotalGreedy(r, used, n);
      if !(Relays(r[0].item) !! used) {
        HeadUnusable(s, r, used, n);
        GreedyOptimal(s, r[1..], used, n);
      } else {
        var t := OneForHead(s, r, used, n);
        GreedyOptimal(t, r[1..], used + Relays(r[0].item), n - 1);
      }
    }
  }

  lemma {:induction false} ProbedNoRepeats(all: seq<RelayPath>, score: RelayPath -> real)
    requires forall i, j | 0 <= i < j < |all| :: all[i] != all[j]
    ensures Distinct(Probed(all, score))
    decreases |all|
  {
    if all != [] {
      var f := all[..|all| - 1];
      ProbedNoRepeats(f, score);
      ProbedMembers(f, score);
      assert forall p | p in f :: p != all[|all| - 1];
      assert forall i | 0 <= i < |Probed(f, score)| :: Probed(f, score)[i] in Probed(f, score);
    }
  }

  lemma {:induction false} NoRepeatsByCount(s: Ranked)
    ensures Distinct(s) <==> forall e | e in multiset(s) :: multiset(s)[e] == 1
    decreases |s|
  {
    if s != [] {
      var f, l := s[..|s| - 1], s[|s| - 1];
      NoRepeatsByCount(f);
      assert s == f + [l];
      assert l in f <==> l in multiset(f);
      if Distinct(s) {
        assert l !in f;
      } else if Distinct(f) {
        assert l in f;
        assert multiset(s)[l] == multiset(f)[l] + 1;
      } else {
        var e :| e in multiset(f) && multiset(f)[e] != 1;
        assert multiset(s)[e] >= multiset(f)[e] > 1;
      }
    }
  }

  /** A relay-disjoint set of at most `n` probed paths. */
  ghost predicate Allowed(all: seq<RelayPath>, score: RelayPath -> real, n: int, s: Ranked) {
    && |s| <= n && Distinct(s) && PairwiseDisjoint(s)
    && forall i | 0 <= i < |s| :: s[i].item in all && s[i].item.samples > 0 && s[i].score == score(s[i].item)
  }

  /** Among the probed paths, two that share a relay with a third share one with each other. */
  ghost predicate ProbedSharingTransitive(all: seq<RelayPath>) {
    forall p, q, t | p in all && q in all && t in all && p.samples > 0 && q.samples > 0 && t.samples > 0 ::
      Meets(p, q) && Meets(q, t) ==> Meets(p, t)
  }

  lemma Sorted(all: seq<RelayPath>, score: RelayPath -> real)
    ensures Descending(SortDesc(Probed(all, score)))
    ensures forall e :: e in SortDesc(Probed(all, score))
                        <==> e.item in all && e.item.samples > 0 && e.score == score(e.item)
    ensures Distinct(all) ==> Distinct(SortDesc(Probed(all, score)))
  {
    var p := Probed(all, score);
    var r := SortDesc(p);
    ProbedMembers(all, score);
    SortSorts(p);
    assert forall e :: e in r <==> e in multiset(r);
    assert forall e :: e in p <==> e in multiset(p);
    if Distinct(all) {
      ProbedNoRepeats(all, score);
      NoRepeatsByCount(p);
      NoRepeatsByCount(r);
    }
  }

  /** Where sharing is transitive, no other choice has a higher total score. */
  lemma TransitiveOptimal(all: seq<RelayPath>, score: RelayPath -> real, n: int, s: Ranked)
    requires Distinct(all) && ProbedSharingTransitive(all) && forall p | p in all :: score(p) >= 0.0
    requires Allowed(all, score, n, s)
    ensures Total(s) <= Total(Chosen(all, score, n))
  {
    hide Meets, Relays;
    Sorted(all, score);
    GreedyOptimal(s, SortDesc(Probed(all, score)), {}, n);
  }

  /** The scores under which two paths outweigh the one they both meet. */
  function Lopsided(p: RelayPath, q: RelayPath, t: RelayPath): RelayPath -> real {
    (x: RelayPath) => if x == q then 3.0 else if x == p || x == t then 2.0 else 0.0
  }

  lemma {:induction false} TotalZero(s: Ranked)
    requires forall e | e in s :: e.score == 0.0
    ensures Total(s) == 0.0
  {
    if s != [] {
      assert s[0] in s;
      TotalZero(s[1..]);
    }
  }

  lemma LopsidedHead(all: seq<RelayPath>, p: RelayPath, q: RelayPath, t: RelayPath)
    requires q in all && q.samples > 0
    ensures var r := SortDesc(Probed(all, Lopsided(p, q, t))); r != [] && r[0] == Scored(q, 3.0)
  {
    hide Relays, SortDesc, Probed;
    var score := Lopsided(p, q, t);
    var r := SortDesc(Probed(all, score));
    Sorted(all, score);
    var e := Scored(q, 3.0);
    assert score(q) == 3.0 && e in r;
    var k :| 0 <= k < |r| && r[k] == e;
    assert r[0] in r && r[0].score >= e.score;
  }

  /** What does not meet `q` is neither of the three. */
  lemma ApartFromAll(p: RelayPath, q: RelayPath, t: RelayPath, x: RelayPath)
    requires Meets(p, q) && Meets(q, t) && Relays(x) !! Relays(q)
    ensures Lopsided(p, q, t)(x) == 0.0
  {
    hide Relays;
  }

  lemma LopsidedTotal(all: seq<RelayPath>, p: RelayPath, q: RelayPath, t: RelayPath)
    requires q in all && q.samples > 0 && Meets(p, q) && Meets(q, t)
    ensures Total(Chosen(all, Lopsided(p, q, t), 2)) == 3.0
  {
    hide Relays, Meets, SortDesc, Probed, Descending, Greedy, Total, PairwiseDisjoint, Lopsided;
    var score := Lopsided(p, q, t);
    var r := SortDesc(Probed(all, score));
    Sorted(all, score);
    LopsidedHead(all, p, q, t);
    var rest := Greedy(r[1..], Relays(q), 1);
    GreedyChooses(r[1..], Relays(q), 1);
    TotalGreedy(r, {}, 2);
    assert {} + Relays(q) == Relays(q);
    forall x | x in rest ensures x.score == 0.0 {
      var i :| 0 <= i < |rest| && rest[i] == x;
      assert x in r;
      ApartFromAll(p, q, t, x.item);
    }
    TotalZero(rest);
  }

  /** Where sharing is not transitive, some scores make the choice lose: 3 is taken, and 2 + 2 could have been. */
  lemma IntransitiveNotOptimal(all: seq<RelayPath>, p: RelayPath, q: RelayPath, t: RelayPath)
    requires p in all && q in all && t in all && p.samples > 0 && q.samples > 0 && t.samples > 0
    requires Meets(p, q) && Meets(q, t) && !Meets(p, t)
    ensures var score := Lopsided(p, q, t);
            var s := [Scored(p, 2.0), Scored(t, 2.0)];
            && (forall x :: score(x) >= 0.0) && Allowed(all, score, 2, s)
            && Total(Chosen(all, score, 2)) == 3.0 && Total(s) == 4.0
  {
    LopsidedTotal(all, p, q, t);
    assert p != t && p != q && q != t;
    var s := [Scored(p, 2.0), Scored(t, 2.0)];
    assert s[1..] == [Scored(t, 2.0)] && s[1..][1..] == [];
    assert Total(s[1..]) == 2.0;
  }

  /** The choice beats every other under all scores that are never negative, and for every number of paths. */
  ghost predicate AlwaysOptimal(all: seq<RelayPath>) {
    forall score: RelayPath -> real, n: int, s: Ranked ::
      (forall p | p in all :: score(p) >= 0.0) && Allowed(all, score, n, s) ==> Total(s) <= Total(Chosen(all, score, n))
  }

  /** The choice is optimal whatever the scores exactly when sharing a relay is transitive on the probed paths. */
  lemma OptimalExactlyWhen(all: seq<RelayPath>)
    requires Distinct(all)
    ensures AlwaysOptimal(all) <==> ProbedSharingTransitive(all)
  {
    hide Meets, Total, Chosen, Allowed;
    if ProbedSharingTransitive(all) {
      forall score: RelayPath -> real, n: int, s: Ranked
        | (forall p | p in all :: score(p) >= 0.0) && Allowed(all, score, n, s)
        ensures Total(s) <= Total(Chosen(all, score, n))
      {
        TransitiveOptimal(all, score, n, s);
      }
    } else {
      var p, q, t :| p in all && q in all && t in all && p.samples > 0 && q.samples > 0 && t.samples > 0
                     && Meets(p, q) && Meets(q, t) && !Meets(p, t);
      IntransitiveNotOptimal(all, p, q, t);
      assert !(Total([Scored(p, 2.0), Scored(t, 2.0)]) <= Total(Chosen(all, Lopsided(p, q, t), 2)));
    }
  }

  lemma SingleRelays(all: seq<RelayPath>)
    requires forall p | p in all :: |p.relayChain| <= 1
    ensures ProbedSharingTransitive(all)
  {
    forall p, q, t | p in all && q in all && t in all && Meets(p, q) && Meets(q, t) ensures Meets(p, t) {
      var x :| x in Relays(p) && x in Relays(q);
      var y :| y in Relays(q) && y in Relays(t);
      assert p.relayChain == [x] && q.relayChain == [x] && t.relayChain == [y] && x == y;
    }
  }

  /** So it is with at most one relay per chain, as probing builds them. */
  lemma SelectionOptimal(all: seq<RelayPath>, score: RelayPath -> real, n: int, s: Ranked)
    requires Distinct(all) && forall p | p in all :: |p.relayChain| <= 1 && score(p) >= 0.0
    requires Allowed(all, score, n, s)
    ensures Total(s) <= Total(Chosen(all, score, n))
  {
    SingleRelays(all);
    TransitiveOptimal(all, score, n, s);
  }

  // ----- How much the choice can lose -----

  /** The elements that meet no relay of `rs`. */
  function Apart(s: Ranked, rs: set<string>): Ranked {
    if s == [] then [] else (if Relays(s[0].item) !! rs then [s[0]] else []) + Apart(s[1..], rs)
  }

  lemma {:induction false} ApartKeeps(s: Ranked, rs: set<string>)
    ensures forall e :: e in Apart(s, rs) <==> e in s && Relays(e.item) !! rs
    ensures |Apart(s, rs)| <= |s|
    ensures (exists e :: e in s && !(Relays(e.item) !! rs)) ==> |Apart(s, rs)| < |s|
  {
    hide Relays;
    if s != [] {
      ApartKeeps(s[1..], rs);
      assert forall e :: e in s <==> e == s[0] || e in s[1..];
    }
  }

  lemma {:induction false} ApartDisjoint(s: Ranked, rs: set<string>)
    requires Distinct(s) && PairwiseDisjoint(s)
    ensures Distinct(Apart(s, rs)) && PairwiseDisjoint(Apart(s, rs))
  {
    hide Relays;
    if s != [] {
      TailDisjoint(s);
      ApartDisjoint(s[1..], rs);
      ApartKeeps(s[1..], rs);
      InFront(s[0], Apart(s[1..], rs), s[1..]);
    }
  }

  lemma TailDisjoint(s: Ranked)
    requires s != [] && Distinct(s) && PairwiseDisjoint(s)
    ensures Distinct(s[1..]) && PairwiseDisjoint(s[1..])
    ensures forall e | e in s[1..] :: e != s[0] && Relays(s[0].item) !! Relays(e.item)
  {
    hide Relays;
    forall e | e in s[1..] ensures e != s[0] && Relays(s[0].item) !! Relays(e.item) {
      var k :| 0 <= k < |s[1..]| && s[1..][k] == e;
      assert s[k + 1] == e;
    }
  }

  lemma InFront(h: Scored<RelayPath>, t: Ranked, all: Ranked)
    requires Distinct(t) && PairwiseDisjoint(t) && forall e | e in t :: e in all
    requires forall e | e in all :: e != h && Relays(h.item) !! Relays(e.item)
    ensures Distinct([h] + t) && PairwiseDisjoint([h] + t)
  {
    hide Relays;
    assert forall i | 0 <= i < |t| :: t[i] in t;
  }

  /** For elements that are all apart from `gone`, relays in `gone` make no difference. */
  lemma {:induction false} ApartSame(s: Ranked, rs: set<string>, gone: set<string>)
    requires forall i | 0 <= i < |s| :: Relays(s[i].item) !! gone
    ensures Apart(s, rs) == Apart(s, rs - gone)
  {
    hide Relays;
    if s != [] {
      assert Relays(s[0].item) !! gone;
      assert Relays(s[0].item) !! rs <==> Relays(s[0].item) !! rs - gone;
      ApartSame(s[1..], rs, gone);
    }
  }

  /** Disjoint elements that meet `rs` are no more than its relays, so dropping them costs `top` for each at most. */
  lemma {:induction false} ApartTotal(s: Ranked, rs: set<string>, top: real)
    requires PairwiseDisjoint(s) && top >= 0.0 && forall i | 0 <= i < |s| :: s[i].score <= top
    ensures Total(s) <= Total(Apart(s, rs)) + Times(|rs| as real, top)
  {
    hide Relays, Times;
    if s == [] {
      TimesGrows(0, |rs|, top);
    } else if Relays(s[0].item) !! rs {
      ApartTotal(s[1..], rs, top);
      assert ([s[0]] + Apart(s[1..], rs))[1..] == Apart(s[1..], rs);
    } else {
      var gone := Relays(s[0].item);
      ApartSame(s[1..], rs, gone);
      ApartTotal(s[1..], rs - gone, top);
      FewerRelays(rs, gone);
      TimesGrows(|rs - gone| + 1, |rs|, top);
      OneMoreTime(|rs - gone|, top);
      assert Apart(s, rs) == Apart(s[1..], rs) == Apart(s[1..], rs - gone);
    }
  }

  lemma FewerRelays(rs: set<string>, gone: set<string>)
    requires !(gone !! rs)
    ensures |rs - gone| + 1 <= |rs|
  {
    var x :| x in gone && x in rs;
    assert rs - gone <= rs - {x};
    FewerOrEqual(rs - gone, rs - {x});
  }

  lemma {:induction false} FewerOrEqual(a: set<string>, b: set<string>)
    requires a <= b
    ensures |a| <= |b|
    decreases a
  {
    if a != {} {
      var x :| x in a;
      FewerOrEqual(a - {x}, b - {x});
    }
  }

  lemma TimesGrows(n: nat, m: nat, x: real)
    requires n <= m && x >= 0.0
    ensures 0.0 <= Times(n as real, x) <= Times(m as real, x)
  {
    assert (m - n) as real * x >= 0.0;
    assert m as real * x == n as real * x + (m - n) as real * x;
  }

  lemma OneMoreTime(n: nat, x: real)
    ensures Times((n + 1) as real, x) == Times(n as real, x) + x
  {
  }

  lemma TimesAdds(k: real, x: real, y: real)
    ensures Times(k, x + y) == Times(k, x) + Times(k, y)
  {
  }

  /** The alternative that is left once the head is taken, and what making way for the head cost. */
  lemma WayMade(s: Ranked, r: Ranked, used: set<string>, n: int, most: nat) returns (t: Ranked)
    requires r != [] && s != [] && Alternative(s, r, used, n) && Descending(r) && r[0].score >= 0.0
    requires 1 <= most && |Relays(r[0].item)| <= most
    ensures Alternative(t, r[1..], used + Relays(r[0].item), n - 1)
    ensures Total(s) <= Total(t) + Times(most as real, r[0].score)
  {
    hide Relays;
    var h, rs := r[0], Relays(r[0].item);
    forall i | 0 <= i < |s| ensures s[i].score <= h.score {
      assert s[i] in r;
    }
    if exists e :: e in s && !(Relays(e.item) !! rs) {
      t := Apart(s, rs);
      ApartKeeps(s, rs);
      ApartDisjoint(s, rs);
      ApartTotal(s, rs, h.score);
      TimesGrows(|rs|, most, h.score);
      NotTheHead(s, r, t, used);
    } else {
      var k := if i :| 0 <= i < |s| && s[i] == h then i else 0;
      forall i | 0 <= i < |s| && i != k ensures s[i] != h && Relays(s[i].item) !! rs {
        assert s[i] in s;
        assert i < k ==> s[i] != s[k];
        assert k < i ==> s[k] != s[i];
      }
      MakesWay(s, r, used, n, k);
      TotalWithout(s, k);
      t := Without(s, k);
      OneMoreTime(0, h.score);
      TimesGrows(1, most, h.score);
    }
  }

  lemma NotTheHead(s: Ranked, r: Ranked, t: Ranked, used: set<string>)
    requires r != [] && Avoids(s, used) && forall i | 0 <= i < |s| :: s[i] in r
    requires exists e :: e in s && !(Relays(e.item) !! Relays(r[0].item))
    requires forall e :: e in t <==> e in s && Relays(e.item) !! Relays(r[0].item)
    ensures Avoids(t, used + Relays(r[0].item)) && forall i | 0 <= i < |t| :: t[i] in r[1..]
  {
    hide Relays;
    var e :| e in s && !(Relays(e.item) !! Relays(r[0].item));
    assert Relays(r[0].item) != {};
    forall i | 0 <= i < |t| ensures Relays(t[i].item) !! used + Relays(r[0].item) && t[i] in r[1..] {
      assert t[i] in t;
      var k :| 0 <= k < |s| && s[k] == t[i];
      assert s[k] in r && t[i] != r[0];
    }
  }

  lemma {:induction false} GreedyWithin(s: Ranked, r: Ranked, used: set<string>, n: int, most: nat)
    requires Alternative(s, r, used, n) && Descending(r) && Distinct(r) && most >= 1
    requires forall e | e in r :: e.score >= 0.0 && |Relays(e.item)| <= most
    ensures Total(s) <= Times(most as real, Total(Greedy(r, used, n)))
    decreases |r|
  {
    hide Relays, Times, Avoids, PairwiseDisjoint;
    if s == [] {
      GreedyNonnegative(r, used, n);
      TimesGrows(0, most, Total(Greedy(r, used, n)));
    } else {
      assert s[0] in r;
      RestWithin(r, most);
      hide Greedy, Descending, Distinct;
      TotalGreedy(r, used, n);
      if !(Relays(r[0].item) !! used) {
        HeadUnusable(s, r, used, n);
        GreedyWithin(s, r[1..], used, n, most);
      } else {
        var t := WayMade(s, r, used, n, most);
        GreedyWithin(t, r[1..], used + Relays(r[0].item), n - 1, most);
        TimesAdds(most as real, r[0].score, Total(Greedy(r[1..], used + Relays(r[0].item), n - 1)));
      }
    }
  }

  lemma GreedyNonnegative(r: Ranked, used: set<string>, n: int)
    requires forall e | e in r :: e.score >= 0.0
    ensures Total(Greedy(r, used, n)) >= 0.0
  {
    hide Greedy;
    GreedyChooses(r, used, n);
    TotalNonnegative(Greedy(r, used, n));
  }

  lemma RestWithin(r: Ranked, most: nat)
    requires r != [] && Descending(r) && Distinct(r)
    requires forall e | e in r :: e.score >= 0.0 && |Relays(e.item)| <= most
    ensures Descending(r[1..]) && Distinct(r[1..]) && r[0].score >= 0.0 && |Relays(r[0].item)| <= most
    ensures forall e | e in r[1..] :: e.score >= 0.0 && |Relays(e.item)| <= most
  {
    hide Relays;
    assert r[0] in r;
    forall e | e in r[1..] ensures e in r {
    }
  }

  lemma {:induction false} RelaysCount(chain: seq<string>)
    ensures |set r | r in chain| <= |chain|
  {
    if chain != [] {
      RelaysCount(chain[1..]);
      assert (set r | r in chain) == {chain[0]} + (set r | r in chain[1..]);
    }
  }

  /**
   * For chains of any length the loss is bounded: with scores that are never negative and at most `most` relays in a
   * chain, no other choice of at most `n` probed paths scores more than max(1, `most`) times as much.
   */
  lemma SelectionWithin(all: seq<RelayPath>, score: RelayPath -> real, n: int, s: Ranked, most: nat)
    requires Distinct(all) && forall p | p in all :: |p.relayChain| <= most && score(p) >= 0.0
    requires Allowed(all, score, n, s)
    ensures Total(s) <= Times((if most == 0 then 1 else most) as real, Total(Chosen(all, score, n)))
  {
    hide Relays;
    Sorted(all, score);
    var r, k := SortDesc(Probed(all, score)), if most == 0 then 1 else most;
    forall e | e in r ensures e.score >= 0.0 && |Relays(e.item)| <= k {
      RelaysFew(e.item);
    }
    GreedyWithin(s, r, {}, n, k);
  }

  lemma RelaysFew(p: RelayPath)
    ensures |Relays(p)| <= |p.relayChain|
  {
    RelaysCount(p.relayChain);
  }
}
