/** Spreading erasure-coded fragments over peers (internal/node/node.go, `replicateWithErasure`). */
module Placement {
  import opened Arithmetic
  import opened Seqs

  /** The connected peers other than the node itself. */
  function Eligible(peers: seq<string>, self: string): seq<string> {
    if peers == [] then []
    else Eligible(peers[..|peers| - 1], self) + (if peers[|peers| - 1] != self then [peers[|peers| - 1]] else [])
  }

  function OtherAt(peers: seq<string>, self: string): int -> bool {
    k => 0 <= k < |peers| && peers[k] != self
  }

  lemma EligibleStep(peers: seq<string>, self: string, n: nat)
    requires n < |peers|
    ensures Eligible(peers[..n + 1], self)
         == if OtherAt(peers, self)(n) then Eligible(peers[..n], self) + [peers[n]] else Eligible(peers[..n], self)
  {
    assert peers[..n + 1][..n] == peers[..n];
  }

  /** Eligible are all connected peers but the node itself, in their order. */
  lemma {:induction false} EligiblePositions(peers: seq<string>, self: string, n: nat) returns (ps: seq<nat>)
    requires n <= |peers|
    ensures Positions(ps, n, OtherAt(peers, self)) && PickedBy(Eligible(peers[..n], self), peers, ps)
  {
    hide Positions, PickedBy, Eligible, OtherAt;
    ps := [];
    if n == 0 {
      NoneEligible(self);
      NoPositions(peers, OtherAt(peers, self));
    } else {
      ps := EligiblePositions(peers, self, n - 1);
      PositionsGrow(ps, n - 1, OtherAt(peers, self));
      EligibleStep(peers, self, n - 1);
      if OtherAt(peers, self)(n - 1) {
        PickedGrows(Eligible(peers[..n - 1], self), peers, ps, n - 1);
        ps := ps + [n - 1];
      }
    }
  }

  lemma NoneEligible(self: string)
    ensures Eligible([], self) == []
  {
  }

  /** No fragment is placed on the node itself. */
  lemma {:induction false} SelfNotEligible(peers: seq<string>, self: string)
    ensures self !in Eligible(peers, self)
  {
    if peers != [] {
      SelfNotEligible(peers[..|peers| - 1], self);
    }
  }

  /** The placement loop: fragment `i` goes to peer `i mod p`. Without another peer nothing is placed. */
  method Place(fragments: nat, peers: seq<string>, self: string) returns (targets: seq<string>)
    ensures Eligible(peers, self) == [] ==> targets == []
    ensures self !in targets
    ensures Eligible(peers, self) != [] ==> RoundRobin(targets, fragments, Eligible(peers, self))
  {
    var eligible: seq<string> := [];
    for i := 0 to |peers|
      invariant eligible == Eligible(peers[..i], self)
    {
      assert peers[..i + 1][..i] == peers[..i];
      if peers[i] != self {
        eligible := eligible + [peers[i]];
      }
    }
    assert peers[..|peers|] == peers;
    SelfNotEligible(peers, self);
    targets := [];
    if |eligible| == 0 {
      return;
    }
    for i := 0 to fragments
      invariant RoundRobin(targets, i, eligible) && self !in targets
    {
      targets := targets + [eligible[i % |eligible|]];
    }
  }

  ghost predicate RoundRobin(targets: seq<string>, fragments: nat, peers: seq<string>)
    requires peers != []
  {
    |targets| == fragments && forall i | 0 <= i < fragments :: targets[i] == peers[i % |peers|]
  }

  /** Fragments that sat on lost peers. */
  function Lost(targets: seq<string>, lost: set<string>): nat {
    if targets == [] then 0
    else Lost(targets[..|targets| - 1], lost) + (if targets[|targets| - 1] in lost then 1 else 0)
  }

  /** The number of positions whose fragment sat on a lost peer. */
  lemma {:induction false} LostIsCount(targets: seq<string>, lost: set<string>)
    ensures Lost(targets, lost) == |set i | 0 <= i < |targets| && targets[i] in lost|
  {
    if targets != [] {
      var n := |targets| - 1;
      LostIsCount(targets[..n], lost);
      var all, front := set i | 0 <= i < |targets| && targets[i] in lost, set i | 0 <= i < n && targets[i] in lost;
      assert front == set i | 0 <= i < |targets[..n]| && targets[..n][i] in lost;
      assert all == if targets[n] in lost then front + {n} else front;
    }
  }

  /** The lost among the first `r` peers. */
  function Hit(peers: seq<string>, r: nat, lost: set<string>): nat
    requires r <= |peers|
  {
    if r == 0 then 0 else Hit(peers, r - 1, lost) + (if peers[r - 1] in lost then 1 else 0)
  }

  lemma {:induction false} HitsAreLost(peers: seq<string>, r: nat, lost: set<string>)
    requires r <= |peers| && Distinct(peers)
    ensures Hit(peers, r, lost) == |lost * First(peers, r)|
  {
    hide Distinct, First;
    if r == 0 {
      NoneFirst(peers);
    } else {
      var before := First(peers, r - 1);
      HitsAreLost(peers, r - 1, lost);
      FirstGrow(peers, r);
      MeetGrows(lost, before, peers[r - 1]);
    }
  }

  lemma MeetGrows(lost: set<string>, before: set<string>, x: string)
    requires x !in before
    ensures |lost * (before + {x})| == |lost * before| + (if x in lost then 1 else 0)
  {
    assert lost * (before + {x}) == if x in lost then lost * before + {x} else lost * before;
  }

  function First(peers: seq<string>, r: nat): set<string>
    requires r <= |peers|
  {
    set i | 0 <= i < r :: peers[i]
  }

  lemma NoneFirst(peers: seq<string>)
    ensures First(peers, 0) == {}
  {
  }

  lemma FirstGrow(peers: seq<string>, r: nat)
    requires 0 < r <= |peers| && Distinct(peers)
    ensures First(peers, r) == First(peers, r - 1) + {peers[r - 1]} && peers[r - 1] !in First(peers, r - 1)
  {
  }

  lemma OneMore(h: nat, q: nat)
    ensures h * (q + 1) == h * q + h
  {
  }

  /** Losing `lost` costs a full share per lost peer, and one more per lost peer among the first n mod p. */
  lemma LostFragments(targets: seq<string>, n: nat, peers: seq<string>, lost: set<string>)
    requires peers != [] && RoundRobin(targets, n, peers)
    ensures Lost(targets, lost) == Hit(peers, |peers|, lost) * (n / |peers|) + Hit(peers, n % |peers|, lost)
  {
    LostInRounds(targets, n, peers, lost, n / |peers|, n % |peers|);
  }

  lemma {:induction false} LostInRounds(targets: seq<string>, n: nat, peers: seq<string>, lost: set<string>,
                                        q: nat, r: nat)
    requires peers != [] && RoundRobin(targets, n, peers) && n == q * |peers| + r && r < |peers|
    ensures Lost(targets, lost) == Hit(peers, |peers|, lost) * q + Hit(peers, r, lost)
    decreases n
  {
    var p := |peers|;
    if r > 0 {
      DivModUnique(n - 1, p, q, r - 1);
      LostInRounds(targets[..n - 1], n - 1, peers, lost, q, r - 1);
    } else if q > 0 {
      OneMore(p, q - 1);
      DivModUnique(n - 1, p, q - 1, p - 1);
      LostInRounds(targets[..n - 1], n - 1, peers, lost, q - 1, p - 1);
      OneMore(Hit(peers, p, lost), q - 1);
    }
  }

  lemma HitBounds(peers: seq<string>, r: nat, lost: set<string>)
    requires r <= |peers|
    ensures Hit(peers, r, lost) <= r && Hit(peers, r, lost) <= Hit(peers, |peers|, lost)
    decreases |peers| - r, r
  {
    if r > 0 {
      HitUpTo(peers, r, lost);
    }
    HitRest(peers, r, |peers|, lost);
  }

  lemma {:induction false} HitUpTo(peers: seq<string>, r: nat, lost: set<string>)
    requires r <= |peers|
    ensures Hit(peers, r, lost) <= r
  {
    if r > 0 {
      HitUpTo(peers, r - 1, lost);
    }
  }

  lemma {:induction false} HitRest(peers: seq<string>, r: nat, s: nat, lost: set<string>)
    requires r <= s <= |peers|
    ensures Hit(peers, r, lost) <= Hit(peers, s, lost)
    decreases s
  {
    if r < s {
      HitRest(peers, r, s - 1, lost);
    }
  }

  /** Each peer holds the floor or the ceiling of n/p fragments: one more for the first n mod p of them. */
  lemma Balanced(targets: seq<string>, n: nat, peers: seq<string>, t: nat)
    requires Distinct(peers) && t < |peers| && RoundRobin(targets, n, peers)
    ensures Lost(targets, {peers[t]}) == n / |peers| + (if t < n % |peers| then 1 else 0)
  {
    LostFragments(targets, n, peers, {peers[t]});
    OnePeer(peers, |peers|, t);
    OnePeer(peers, n % |peers|, t);
  }

  lemma {:induction false} OnePeer(peers: seq<string>, r: nat, t: nat)
    requires Distinct(peers) && t < |peers| && r <= |peers|
    ensures Hit(peers, r, {peers[t]}) == if t < r then 1 else 0
  {
    if r > 0 {
      OnePeer(peers, r - 1, t);
    }
  }

  /** The most fragments any `f` peers can hold together. */
  function WorstLoss(n: nat, p: nat, f: nat): nat
    requires p > 0
  {
    f * (n / p) + (if f < n % p then f else n % p)
  }

  ghost predicate Subset(lost: set<string>, peers: seq<string>) {
    forall x | x in lost :: x in peers
  }

  lemma AllHit(peers: seq<string>, lost: set<string>)
    requires Distinct(peers) && Subset(lost, peers)
    ensures Hit(peers, |peers|, lost) == |lost|
  {
    HitsAreLost(peers, |peers|, lost);
    assert lost * First(peers, |peers|) == lost;
  }

  lemma LossAtMostWorst(targets: seq<string>, n: nat, peers: seq<string>, lost: set<string>)
    requires peers != [] && Distinct(peers) && RoundRobin(targets, n, peers) && Subset(lost, peers)
    ensures Lost(targets, lost) <= WorstLoss(n, |peers|, |lost|)
  {
    LostFragments(targets, n, peers, lost);
    AllHit(peers, lost);
    HitBounds(peers, n % |peers|, lost);
  }

  /** The first `f` peers reach the worst case. */
  lemma WorstReached(targets: seq<string>, n: nat, peers: seq<string>, f: nat) returns (lost: set<string>)
    requires peers != [] && Distinct(peers) && RoundRobin(targets, n, peers) && f <= |peers|
    ensures Subset(lost, peers) && |lost| == f && Lost(targets, lost) == WorstLoss(n, |peers|, f)
  {
    lost := First(peers, f);
    FirstHits(peers, f, |peers|);
    FirstHits(peers, f, n % |peers|);
    AllHit(peers, lost);
    LostFragments(targets, n, peers, lost);
  }

  lemma {:induction false} FirstHits(peers: seq<string>, f: nat, r: nat)
    requires Distinct(peers) && f <= |peers| && r <= |peers|
    ensures Hit(peers, r, First(peers, f)) == if f < r then f else r
  {
    if r > 0 {
      FirstHits(peers, f, r - 1);
      assert peers[r - 1] in First(peers, f) <==> r - 1 < f;
    }
  }

  /**
   * With k data and m parity fragments placed on distinct peers, at least k fragments survive the loss of any `f`
   * peers if and only if f·⌊(k+m)/p⌋ + min(f, (k+m) mod p) is at most m.
   */
  lemma SurvivesExactlyWhen(targets: seq<string>, k: nat, m: nat, peers: seq<string>, f: nat)
    requires peers != [] && Distinct(peers) && RoundRobin(targets, k + m, peers) && f <= |peers|
    ensures (forall lost | Subset(lost, peers) && |lost| == f :: |targets| - Lost(targets, lost) >= k)
            <==> WorstLoss(k + m, |peers|, f) <= m
  {
    forall lost | Subset(lost, peers) && |lost| == f ensures Lost(targets, lost) <= WorstLoss(k + m, |peers|, f) {
      LossAtMostWorst(targets, k + m, peers, lost);
    }
    var worst := WorstReached(targets, k + m, peers, f);
  }
}
