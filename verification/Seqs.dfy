/** Sequences without repetition, and removing and moving single positions. */
module Seqs {
  function Min(x: nat, y: nat): nat {
    if x < y then x else y
  }

  ghost predicate Distinct<T>(s: seq<T>) {
    forall i, j | 0 <= i < j < |s| :: s[i] != s[j]
  }

  function Last<T>(s: seq<T>): T
    requires s != []
  {
    s[|s| - 1]
  }

  function Front<T>(s: seq<T>): (f: seq<T>)
    requires s != []
    ensures |f| == |s| - 1
  {
    s[..|s| - 1]
  }

  function Without<T>(s: seq<T>, i: nat): seq<T>
    requires i < |s|
  {
    s[..i] + s[i + 1..]
  }

  function ToFront<T>(s: seq<T>, i: nat): seq<T>
    requires i < |s|
  {
    [s[i]] + Without(s, i)
  }

  /** Position of survivor `j` after `v` left. */
  function Shift(j: int, v: int): int {
    if j < v then j else j - 1
  }

  /** Where the element now at `k` was before position `v` left. */
  function Origin(k: int, v: int): int {
    if k < v then k else k + 1
  }

  lemma WithoutFrom<T>(s: seq<T>, v: nat)
    requires v < |s|
    ensures forall k | 0 <= k < |s| - 1 :: Without(s, v)[k] == s[Origin(k, v)]
  {
  }

  lemma WithoutAt<T>(s: seq<T>, v: nat)
    requires v < |s|
    ensures forall j | 0 <= j < |s| && j != v :: Without(s, v)[Shift(j, v)] == s[j]
  {
  }

  lemma WithoutCounts<T>(s: seq<T>, v: nat)
    requires v < |s|
    ensures multiset(Without(s, v)) == multiset(s) - multiset{s[v]}
  {
    assert s == s[..v] + [s[v]] + s[v + 1..];
  }

  lemma ToFrontMembers<T>(s: seq<T>, i: nat)
    requires i < |s|
    ensures forall e :: e in ToFront(s, i) <==> e in s
  {
    assert s == s[..i] + [s[i]] + s[i + 1..];
  }

  /** `ps` lists, in increasing order, exactly the numbers below `n` that are to be kept. */
  ghost predicate Positions(ps: seq<nat>, n: nat, keep: int -> bool) {
    && (forall i | 0 <= i < |ps| :: ps[i] < n && keep(ps[i]))
    && (forall i, j | 0 <= i < j < |ps| :: ps[i] < ps[j])
    && (forall k: nat | k < n && keep(k) :: k in ps)
  }

  /** The elements at the listed positions. */
  ghost predicate PickedBy<T>(r: seq<T>, s: seq<T>, ps: seq<nat>) {
    |r| == |ps| && forall i | 0 <= i < |ps| :: ps[i] < |s| && r[i] == s[ps[i]]
  }

  lemma NoPositions<T>(s: seq<T>, keep: int -> bool)
    ensures Positions([], 0, keep) && PickedBy([], s, [])
  {
  }

  lemma PositionsGrow(ps: seq<nat>, n: nat, keep: int -> bool)
    requires Positions(ps, n, keep)
    ensures Positions(if keep(n) then ps + [n] else ps, n + 1, keep)
  {
  }

  lemma PickedGrows<T>(r: seq<T>, s: seq<T>, ps: seq<nat>, n: nat)
    requires PickedBy(r, s, ps) && n < |s|
    ensures PickedBy(r + [s[n]], s, ps + [n])
  {
  }
}
