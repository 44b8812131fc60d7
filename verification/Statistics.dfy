/** The statistics of the benchmark (internal/bench/bench.go). Floats are reals. */
module Statistics {
  import opened Arithmetic
  import opened Seqs

  /** Σ f(x). */
  function Sum<T>(s: seq<T>, f: T -> real): real {
    if s == [] then 0.0 else Sum(s[..|s| - 1], f) + f(s[|s| - 1])
  }

  lemma EmptySum<T>(f: T -> real)
    ensures Sum([], f) == 0.0
  {
  }

  lemma SumAppend<T>(s: seq<T>, x: T, f: T -> real)
    ensures Sum(s + [x], f) == Sum(s, f) + f(x)
  {
    assert (s + [x])[..|s|] == s;
  }

  lemma {:induction false} SumConcat<T>(s: seq<T>, t: seq<T>, f: T -> real)
    ensures Sum(s + t, f) == Sum(s, f) + Sum(t, f)
    decreases |t|
  {
    if t == [] {
      assert s + t == s;
    } else {
      SumConcat(s, t[..|t| - 1], f);
      assert (s + t)[..|s + t| - 1] == s + t[..|t| - 1];
    }
  }

  lemma {:induction false} SumSame<T>(s: seq<T>, f: T -> real, g: T -> real)
    requires forall x | x in s :: f(x) == g(x)
    ensures Sum(s, f) == Sum(s, g)
  {
    if s != [] {
      assert forall x | x in s[..|s| - 1] :: x in s;
      SumSame(s[..|s| - 1], f, g);
    }
  }

  lemma {:induction false} SumConstant<T>(s: seq<T>, f: T -> real, c: real)
    requires forall x | x in s :: f(x) == c
    ensures Sum(s, f) == Times(|s| as real, c)
  {
    if s != [] {
      assert forall x | x in s[..|s| - 1] :: x in s;
      SumConstant(s[..|s| - 1], f, c);
      assert |s| as real * c == (|s| - 1) as real * c + c;
    }
  }

  lemma {:induction false} SumAdds<T>(s: seq<T>, f: T -> real, g: T -> real, h: T -> real)
    requires forall x | x in s :: h(x) == f(x) + g(x)
    ensures Sum(s, h) == Sum(s, f) + Sum(s, g)
  {
    if s != [] {
      assert forall x | x in s[..|s| - 1] :: x in s;
      SumAdds(s[..|s| - 1], f, g, h);
    }
  }

  lemma {:induction false} SumPermutes<T>(s: seq<T>, t: seq<T>, f: T -> real)
    requires multiset(s) == multiset(t)
    ensures Sum(s, f) == Sum(t, f)
    decreases |s|
  {
    assert |s| == |multiset(s)| == |multiset(t)| == |t|;
    if s != [] {
      var k := |s| - 1;
      assert s[k] in multiset(t);
      var i :| 0 <= i < |t| && t[i] == s[k];
      WithoutCounts(s, k);
      WithoutCounts(t, i);
      SumPermutes(Without(s, k), Without(t, i), f);
      SumWithout(s, k, f);
      SumWithout(t, i, f);
    }
  }

  lemma SumWithout<T>(s: seq<T>, i: nat, f: T -> real)
    requires i < |s|
    ensures Sum(s, f) == Sum(Without(s, i), f) + f(s[i])
  {
    hide Sum;
    var front, back := s[..i], s[i + 1..];
    SumInserted(front, s[i], back, f);
    assert s == front + [s[i]] + back;
  }

  lemma SumInserted<T>(front: seq<T>, x: T, back: seq<T>, f: T -> real)
    ensures Sum(front + [x] + back, f) == Sum(front + back, f) + f(x)
  {
    hide Sum;
    SumConcat(front, back, f);
    SumConcat(front + [x], back, f);
    SumAppend(front, x, f);
  }

  // ----- Wilcoxon signed ranks -----

  /** A difference that is not zero: its size and its sign. */
  datatype Diff = Diff(size: real, positive: bool)

  /** The nonzero differences of the two samples, over their common length. */
  function Diffs(a: seq<real>, b: seq<real>, n: nat): seq<Diff>
    requires n <= |a| && n <= |b|
  {
    if n == 0 then []
    else
      var d := a[n - 1] - b[n - 1];
      Diffs(a, b, n - 1) + (if d == 0.0 then [] else [Diff(if d < 0.0 then -d else d, d > 0.0)])
  }

  function DiffersAt(a: seq<real>, b: seq<real>): int -> bool {
    k => 0 <= k < |a| && k < |b| && a[k] != b[k]
  }

  /** `d` is the difference of `x` and `y`: how far apart they are, and positive exactly when `x` is greater. */
  ghost predicate IsDiff(d: Diff, x: real, y: real) {
    (d.positive <==> x > y) && d.size == if x > y then x - y else y - x
  }

  ghost predicate DiffsAt(ds: seq<Diff>, a: seq<real>, b: seq<real>, ps: seq<nat>) {
    |ds| == |ps| && forall i | 0 <= i < |ps| :: ps[i] < |a| && ps[i] < |b| && IsDiff(ds[i], a[ps[i]], b[ps[i]])
  }

  lemma DiffsStep(a: seq<real>, b: seq<real>, n: nat)
    requires n < |a| && n < |b|
    ensures !DiffersAt(a, b)(n) ==> Diffs(a, b, n + 1) == Diffs(a, b, n)
    ensures DiffersAt(a, b)(n) ==> exists d :: Diffs(a, b, n + 1) == Diffs(a, b, n) + [d] && IsDiff(d, a[n], b[n])
  {
    var d := a[n] - b[n];
    if d != 0.0 {
      assert Diffs(a, b, n + 1) == Diffs(a, b, n) + [Diff(if d < 0.0 then -d else d, d > 0.0)];
    }
  }

  lemma DiffsAtGrow(ds: seq<Diff>, a: seq<real>, b: seq<real>, ps: seq<nat>, n: nat, d: Diff)
    requires DiffsAt(ds, a, b, ps) && n < |a| && n < |b| && IsDiff(d, a[n], b[n])
    ensures DiffsAt(ds + [d], a, b, ps + [n])
  {
  }

  /** The differences are those of the positions at which the samples differ, in order. */
  lemma {:induction false} DiffPositions(a: seq<real>, b: seq<real>, n: nat) returns (ps: seq<nat>)
    requires n <= |a| && n <= |b|
    ensures Positions(ps, n, DiffersAt(a, b)) && DiffsAt(Diffs(a, b, n), a, b, ps)
  {
    hide Positions, DiffsAt, Diffs, DiffersAt, IsDiff;
    ps := [];
    if n == 0 {
      NoDiffs(a, b);
    } else {
      ps := DiffPositions(a, b, n - 1);
      PositionsGrow(ps, n - 1, DiffersAt(a, b));
      DiffsStep(a, b, n - 1);
      if DiffersAt(a, b)(n - 1) {
        var d :| Diffs(a, b, n) == Diffs(a, b, n - 1) + [d] && IsDiff(d, a[n - 1], b[n - 1]);
        DiffsAtGrow(Diffs(a, b, n - 1), a, b, ps, n - 1, d);
        ps := ps + [n - 1];
      }
    }
  }

  lemma NoDiffs(a: seq<real>, b: seq<real>)
    ensures Positions([], 0, DiffersAt(a, b)) && DiffsAt(Diffs(a, b, 0), a, b, [])
  {
  }

  lemma {:induction false} AllDiffs(a: seq<real>, b: seq<real>, n: nat)
    requires n <= |a| && n <= |b| && forall i | 0 <= i < n :: a[i] > b[i]
    ensures |Diffs(a, b, n)| == n && forall d | d in Diffs(a, b, n) :: d.positive
  {
    if n > 0 {
      AllDiffs(a, b, n - 1);
    }
  }

  /** If the first sample is greater throughout, W+ is all there is. */
  lemma GreaterThroughout(a: seq<real>, b: seq<real>, n: nat)
    requires n <= |a| && n <= |b| && forall i | 0 <= i < n :: a[i] > b[i]
    ensures W(Diffs(a, b, n), true) == (n * (n + 1)) as real / 2.0 && W(Diffs(a, b, n), false) == 0.0
  {
    hide Diffs, Sum, MidRank;
    var ds := Diffs(a, b, n);
    AllDiffs(a, b, n);
    WsComplement(ds);
    SumConstant(ds, RankIn(ds, false), 0.0);
    assert Times(|ds| as real, 0.0) == 0.0;
  }

  function Smaller(x: real): Diff -> real {
    (d: Diff) => if d.size < x then 1.0 else 0.0
  }

  function Equal(x: real): Diff -> real {
    (d: Diff) => if d.size == x then 1.0 else 0.0
  }

  function Larger(x: real): Diff -> real {
    (d: Diff) => if d.size > x then 1.0 else 0.0
  }

  /** The midrank of a size, without any ordering: the number below it, and half of one plus its equals. */
  function MidRank(ds: seq<Diff>, x: real): real {
    Sum(ds, Smaller(x)) + (1.0 + Sum(ds, Equal(x))) / 2.0
  }

  function RankAmong(ds: seq<Diff>): Diff -> real {
    (d: Diff) => MidRank(ds, d.size)
  }

  /** The rank a difference adds to the sum of its sign. */
  function RankIn(ds: seq<Diff>, positive: bool): Diff -> real {
    (d: Diff) => if d.positive == positive then MidRank(ds, d.size) else 0.0
  }

  /** W+ and W-, by definition. */
  function W(ds: seq<Diff>, positive: bool): real {
    Sum(ds, RankIn(ds, positive))
  }

  ghost predicate Sorted(ds: seq<Diff>) {
    forall i, j | 0 <= i < j < |ds| :: ds[i].size <= ds[j].size
  }

  /** In sorted order, the group of ties at i..j has the midrank the loop gives it. */
  lemma TiesShareMidRank(ds: seq<Diff>, i: nat, j: nat)
    requires i < j <= |ds|
    requires forall k | 0 <= k < i :: ds[k].size < ds[i].size
    requires forall k | i <= k < j :: ds[k].size == ds[i].size
    requires forall k | j <= k < |ds| :: ds[k].size > ds[i].size
    ensures MidRank(ds, ds[i].size) == (i + j + 1) as real / 2.0
  {
    var x := ds[i].size;
    CountThree(ds, i, j, Smaller(x), 1.0, 0.0, 0.0);
    CountThree(ds, i, j, Equal(x), 0.0, 1.0, 0.0);
  }

  lemma CountThree(ds: seq<Diff>, i: nat, j: nat, f: Diff -> real, a: real, b: real, c: real)
    requires i <= j <= |ds|
    requires forall k | 0 <= k < i :: f(ds[k]) == a
    requires forall k | i <= k < j :: f(ds[k]) == b
    requires forall k | j <= k < |ds| :: f(ds[k]) == c
    ensures Sum(ds, f) == Times(i as real, a) + Times((j - i) as real, b) + Times((|ds| - j) as real, c)
  {
    hide Times, Sum;
    assert ds == ds[..i] + ds[i..j] + ds[j..];
    SumConcat(ds[..i] + ds[i..j], ds[j..], f);
    SumConcat(ds[..i], ds[i..j], f);
    SumConstant(ds[..i], f, a);
    SumConstant(ds[i..j], f, b);
    SumConstant(ds[j..], f, c);
  }

  /** The rank loop: groups of ties share the average of their ranks. */
  method RankSums(ds: seq<Diff>) returns (wPlus: real, wMinus: real)
    requires Sorted(ds)
    ensures wPlus == W(ds, true) && wMinus == W(ds, false)
  {
    hide MidRank, Sum;
    EmptySum(RankIn(ds, true));
    EmptySum(RankIn(ds, false));
    wPlus, wMinus := 0.0, 0.0;
    var i := 0;
    while i < |ds|
      invariant 0 <= i <= |ds|
      invariant 0 < i < |ds| ==> ds[i - 1].size < ds[i].size
      invariant wPlus == Sum(ds[..i], RankIn(ds, true)) && wMinus == Sum(ds[..i], RankIn(ds, false))
    {
      var j := i;
      while j < |ds| && ds[j].size == ds[i].size
        invariant i <= j <= |ds| && forall k | i <= k < j :: ds[k].size == ds[i].size
      {
        j := j + 1;
      }
      var avgRank := (i + j + 1) as real / 2.0;
      TiesShareMidRank(ds, i, j);
      for k := i to j
        invariant wPlus == Sum(ds[..k], RankIn(ds, true)) && wMinus == Sum(ds[..k], RankIn(ds, false))
      {
        assert ds[..k + 1] == ds[..k] + [ds[k]];
        SumAppend(ds[..k], ds[k], RankIn(ds, true));
        SumAppend(ds[..k], ds[k], RankIn(ds, false));
        if ds[k].positive {
          wPlus := wPlus + avgRank;
        } else {
          wMinus := wMinus + avgRank;
        }
      }
      i := j;
    }
    assert ds[..|ds|] == ds;
  }

  /** Any sort at all: unstable sorting may order ties as it likes. */
  ghost predicate SortsBySize(sort: seq<Diff> -> seq<Diff>) {
    forall ds :: Sorted(sort(ds)) && multiset(sort(ds)) == multiset(ds)
  }

  /** `WilcoxonSignedRank` up to its p-value; fewer than five pairs give zero. */
  method SignedRanks(a: seq<real>, b: seq<real>, sort: seq<Diff> -> seq<Diff>) returns (wPlus: real, wMinus: real)
    requires SortsBySize(sort)
    ensures var n := Min(|a|, |b|);
            if n < 5 then wPlus == wMinus == 0.0
            else wPlus == W(Diffs(a, b, n), true) && wMinus == W(Diffs(a, b, n), false)
  {
    var n := Min(|a|, |b|);
    if n < 5 {
      return 0.0, 0.0;
    }
    var pairs: seq<Diff> := [];
    for i := 0 to n
      invariant pairs == Diffs(a, b, i)
    {
      var diff := a[i] - b[i];
      if diff == 0.0 {
        continue;
      }
      pairs := pairs + [Diff(if diff < 0.0 then -diff else diff, diff > 0.0)];
    }
    if |pairs| == 0 {
      return 0.0, 0.0;
    }
    var sorted := sort(pairs);
    WPermutes(sorted, pairs, true);
    WPermutes(sorted, pairs, false);
    wPlus, wMinus := RankSums(sorted);
  }

  /** W+ and W- do not depend on the order of the differences. */
  lemma WPermutes(s: seq<Diff>, t: seq<Diff>, positive: bool)
    requires multiset(s) == multiset(t)
    ensures W(s, positive) == W(t, positive)
  {
    SumPermutes(s, t, RankIn(s, positive));
    forall d | d in t ensures RankIn(s, positive)(d) == RankIn(t, positive)(d) {
      SumPermutes(s, t, Smaller(d.size));
      SumPermutes(s, t, Equal(d.size));
    }
    SumSame(t, RankIn(s, positive), RankIn(t, positive));
  }

  /** The midranks of all differences, of either sign. */
  function AllRanks(ds: seq<Diff>): real {
    Sum(ds, RankAmong(ds))
  }

  lemma {:induction false} EveryDiffCompares(ds: seq<Diff>, x: real)
    ensures Sum(ds, Smaller(x)) + Sum(ds, Equal(x)) + Sum(ds, Larger(x)) == |ds| as real
  {
    if ds != [] {
      EveryDiffCompares(ds[..|ds| - 1], x);
    }
  }

  /** One more difference raises the rank of every larger one by 1 and of every equal one by a half. */
  lemma {:induction false} RanksShift(part: seq<Diff>, ds: seq<Diff>, x: Diff)
    ensures Sum(part, RankAmong(ds + [x]))
         == Sum(part, RankAmong(ds)) + Sum(part, Larger(x.size)) + Sum(part, Equal(x.size)) / 2.0
    decreases |part|
  {
    if part != [] {
      var f, d := part[..|part| - 1], part[|part| - 1];
      RanksShift(f, ds, x);
      SumAppend(ds, x, Smaller(d.size));
      SumAppend(ds, x, Equal(d.size));
    }
  }

  lemma {:induction false} RanksTotal(ds: seq<Diff>)
    ensures AllRanks(ds) == (|ds| * (|ds| + 1)) as real / 2.0
  {
    if ds != [] {
      var f, x := ds[..|ds| - 1], ds[|ds| - 1];
      RanksTotal(f);
      RanksShift(f, f, x);
      assert f + [x] == ds;
      SumAppend(f, x, RankAmong(ds));
      SumAppend(f, x, Smaller(x.size));
      SumAppend(f, x, Equal(x.size));
      EveryDiffCompares(f, x.size);
      Triangular(|f|);
    }
  }

  lemma Triangular(n: nat)
    ensures ((n + 1) * (n + 2)) as real / 2.0 == (n * (n + 1)) as real / 2.0 + (n + 1) as real
  {
    assert (n + 1) * (n + 2) == n * (n + 1) + 2 * (n + 1);
  }

  /** W+ + W- = m(m+1)/2 for m nonzero differences. */
  lemma WsComplement(ds: seq<Diff>)
    ensures W(ds, true) + W(ds, false) == (|ds| * (|ds| + 1)) as real / 2.0
  {
    RanksTotal(ds);
    SumAdds(ds, RankIn(ds, true), RankIn(ds, false), RankAmong(ds));
  }

  function Flip(ds: seq<Diff>): (r: seq<Diff>)
    ensures |r| == |ds|
  {
    if ds == [] then [] else Flip(ds[..|ds| - 1]) + [Diff(ds[|ds| - 1].size, !ds[|ds| - 1].positive)]
  }

  lemma {:induction false} DiffsSwap(a: seq<real>, b: seq<real>, n: nat)
    requires n <= |a| && n <= |b|
    ensures Diffs(b, a, n) == Flip(Diffs(a, b, n))
  {
    if n > 0 {
      DiffsSwap(a, b, n - 1);
      var d := a[n - 1] - b[n - 1];
      assert b[n - 1] - a[n - 1] == -d;
      if d != 0.0 {
        var ds := Diffs(a, b, n);
        assert ds[..|ds| - 1] == Diffs(a, b, n - 1);
        assert Flip(ds) == Flip(Diffs(a, b, n - 1)) + [Diff(if d < 0.0 then -d else d, !(d > 0.0))];
        assert Diffs(b, a, n) == Diffs(b, a, n - 1) + [Diff(if -d < 0.0 then -(-d) else -d, -d > 0.0)];
      } else {
        assert Diffs(a, b, n) == Diffs(a, b, n - 1) && Diffs(b, a, n) == Diffs(b, a, n - 1);
      }
    }
  }

  lemma {:induction false} FlipSums(part: seq<Diff>, ds: seq<Diff>, positive: bool)
    ensures Sum(Flip(part), RankIn(Flip(ds), positive)) == Sum(part, RankIn(ds, !positive))
    decreases |part|
  {
    if part != [] {
      var f, d := part[..|part| - 1], part[|part| - 1];
      FlipSums(f, ds, positive);
      SumAppend(Flip(f), Diff(d.size, !d.positive), RankIn(Flip(ds), positive));
      FlipCounts(ds, d.size);
    }
  }

  lemma {:induction false} FlipCounts(ds: seq<Diff>, x: real)
    ensures Sum(Flip(ds), Smaller(x)) == Sum(ds, Smaller(x)) && Sum(Flip(ds), Equal(x)) == Sum(ds, Equal(x))
  {
    if ds != [] {
      var f, d := ds[..|ds| - 1], ds[|ds| - 1];
      FlipCounts(f, x);
      SumAppend(Flip(f), Diff(d.size, !d.positive), Smaller(x));
      SumAppend(Flip(f), Diff(d.size, !d.positive), Equal(x));
    }
  }

  /** Swapping the two samples swaps W+ and W-. */
  lemma SamplesSwap(a: seq<real>, b: seq<real>)
    ensures var n := Min(|a|, |b|);
            W(Diffs(b, a, n), true) == W(Diffs(a, b, n), false) && W(Diffs(b, a, n), false) == W(Diffs(a, b, n), true)
  {
    var n := Min(|a|, |b|);
    DiffsSwap(a, b, n);
    FlipSums(Diffs(a, b, n), Diffs(a, b, n), true);
    FlipSums(Diffs(a, b, n), Diffs(a, b, n), false);
  }

  // ----- Jain's fairness index -----

  function Id(): real -> real {
    (x: real) => x
  }

  function Square(): real -> real {
    (x: real) => Times(x, x)
  }

  method JainFairness(vals: seq<real>) returns (j: real)
    ensures vals == [] ==> j == 0.0
    ensures vals != [] && Sum(vals, Square()) == 0.0 ==> j == 1.0
    ensures vals != [] && Sum(vals, Square()) != 0.0 ==> j == Jain(vals)
  {
    if |vals| == 0 {
      return 0.0;
    }
    var sum, sumSq := Sums(vals);
    if sumSq == 0.0 {
      return 1.0;
    }
    return sum * sum / (|vals| as real * sumSq);
  }

  method Sums(vals: seq<real>) returns (sum: real, sumSq: real)
    ensures sum == Sum(vals, Id()) && sumSq == Sum(vals, Square())
  {
    sum, sumSq := 0.0, 0.0;
    for i := 0 to |vals|
      invariant sum == Sum(vals[..i], Id()) && sumSq == Sum(vals[..i], Square())
    {
      assert vals[..i + 1][..i] == vals[..i];
      sum, sumSq := sum + vals[i], sumSq + vals[i] * vals[i];
    }
    assert vals[..|vals|] == vals;
  }

  /** (Σv)² / (n·Σv²). */
  function Jain(vals: seq<real>): real
    requires vals != [] && Sum(vals, Square()) != 0.0
  {
    Times(Sum(vals, Id()), Sum(vals, Id())) / Times(|vals| as real, Sum(vals, Square()))
  }

  lemma SumOfTwo(x: real, y: real, f: real -> real)
    ensures Sum([x, y], f) == f(x) + f(y)
  {
    assert [x, y] == [x] + [y] && [x] == [] + [x];
    SumAppend([x], y, f);
    SumAppend([], x, f);
  }

  /** For two values, written out. */
  lemma JainOfTwo(x: real, y: real)
    requires x != 0.0 || y != 0.0
    ensures Sum([x, y], Square()) != 0.0
    ensures Jain([x, y]) * (2.0 * (x * x + y * y)) == (x + y) * (x + y)
  {
    SumOfTwo(x, y, Square());
    SumOfTwo(x, y, Id());
    SquareParts(x);
    SquareParts(y);
    hide Sum;
    Divides((x + y) * (x + y), 2.0 * (x * x + y * y));
  }

  lemma Divides(p: real, q: real)
    requires q != 0.0
    ensures p / q * q == p
  {
  }

  /** n·Σv² - (Σv)². */
  function Spread(vals: seq<real>): real {
    Times(|vals| as real, Sum(vals, Square())) - Times(Sum(vals, Id()), Sum(vals, Id()))
  }

  function Distance(x: real): real -> real {
    (v: real) => Times(v - x, v - x)
  }

  lemma SquareParts(x: real)
    ensures Times(x, x) >= 0.0 && (Times(x, x) == 0.0 <==> x == 0.0)
  {
    if x != 0.0 {
      assert (x * x) / x == x;
    }
  }

  lemma DistanceStep(x: real, v: real, s: real, n: nat)
    ensures Times(v - x, v - x) == Times(v, v) - 2.0 * Times(x, v) + Times(x, x)
    ensures Times(x, s + v) == Times(x, s) + Times(x, v)
    ensures Times((n + 1) as real, Times(x, x)) == Times(n as real, Times(x, x)) + Times(x, x)
  {
  }

  /** Σ(v - x)² = Σv² - 2x·Σv + n·x². */
  lemma {:induction false} DistanceExpands(vals: seq<real>, x: real)
    ensures Sum(vals, Distance(x))
         == Sum(vals, Square()) - 2.0 * Times(x, Sum(vals, Id())) + Times(|vals| as real, Times(x, x))
  {
    if vals == [] {
      assert Times(x, 0.0) == 0.0 == Times(0.0, Times(x, x));
    } else {
      hide Times;
      var f, v := vals[..|vals| - 1], vals[|vals| - 1];
      DistanceExpands(f, x);
      DistanceStep(x, v, Sum(f, Id()), |f|);
    }
  }

  lemma LastOrFront(vals: seq<real>)
    requires vals != []
    ensures vals[|vals| - 1] in vals
    ensures forall v :: v in vals <==> v == vals[|vals| - 1] || v in vals[..|vals| - 1]
  {
    assert vals == vals[..|vals| - 1] + [vals[|vals| - 1]];
  }

  /** All values are the same. */
  ghost predicate AllEqual(vals: seq<real>) {
    forall v, w | v in vals && w in vals :: v == w
  }

  lemma AllEqualStep(vals: seq<real>)
    requires vals != []
    ensures var f, x := vals[..|vals| - 1], vals[|vals| - 1];
            AllEqual(vals) <==> AllEqual(f) && forall v | v in f :: v == x
  {
    LastOrFront(vals);
    var f, x := vals[..|vals| - 1], vals[|vals| - 1];
    if AllEqual(vals) {
      assert forall v | v in f :: v in vals;
    }
  }

  lemma {:induction false} DistanceNonnegative(vals: seq<real>, x: real)
    ensures Sum(vals, Distance(x)) >= 0.0
    ensures Sum(vals, Distance(x)) == 0.0 <==> forall v | v in vals :: v == x
  {
    hide Times;
    if vals != [] {
      var f, v := vals[..|vals| - 1], vals[|vals| - 1];
      DistanceNonnegative(f, x);
      SquareParts(v - x);
      LastOrFront(vals);
      assert forall w | w in f :: w in vals;
      assert Times(v - x, v - x) == 0.0 <==> v == x;
      assert (forall w | w in vals :: w == x) <==> v == x && forall w | w in f :: w == x;
    }
  }

  lemma SpreadStep(n: nat, q: real, s: real, x: real)
    ensures Times((n + 1) as real, q + Times(x, x)) - Times(s + x, s + x)
         == (Times(n as real, q) - Times(s, s)) + (q - 2.0 * Times(x, s) + Times(n as real, Times(x, x)))
  {
    var m := n as real;
    assert (s + x) * (s + x) == s * s + 2.0 * (x * s) + x * x;
    assert (m + 1.0) * (q + x * x) == m * q + q + m * (x * x) + x * x;
  }

  /** Cauchy and Schwarz: the spread is never negative, and zero exactly for equal values. */
  lemma {:induction false} SpreadNonnegative(vals: seq<real>)
    ensures Spread(vals) >= 0.0
    ensures Spread(vals) == 0.0 <==> AllEqual(vals)
  {
    if vals == [] {
      assert Times(0.0, 0.0) == 0.0;
    } else {
      hide Times, AllEqual;
      var f, x := vals[..|vals| - 1], vals[|vals| - 1];
      SpreadNonnegative(f);
      DistanceExpands(f, x);
      DistanceNonnegative(f, x);
      SpreadStep(|f|, Sum(f, Square()), Sum(f, Id()), x);
      AllEqualStep(vals);
    }
  }

  /** At most one position holds a value other than zero. */
  ghost predicate OneNonzero(vals: seq<real>) {
    forall i, j | 0 <= i < j < |vals| :: vals[i] == 0.0 || vals[j] == 0.0
  }

  lemma OneNonzeroStep(vals: seq<real>)
    requires vals != []
    ensures var f, x := vals[..|vals| - 1], vals[|vals| - 1];
            OneNonzero(vals) <==> OneNonzero(f) && (x == 0.0 || forall v | v in f :: v == 0.0)
  {
    var f, x := vals[..|vals| - 1], vals[|vals| - 1];
    if OneNonzero(vals) && x != 0.0 {
      forall v | v in f ensures v == 0.0 {
        var i :| 0 <= i < |f| && f[i] == v;
        assert vals[i] == f[i];
      }
    }
    if OneNonzero(f) && (x == 0.0 || forall v | v in f :: v == 0.0) {
      forall i, j | 0 <= i < j < |vals| ensures vals[i] == 0.0 || vals[j] == 0.0 {
        assert vals[i] == f[i] && f[i] in f;
        if j < |f| {
          assert vals[j] == f[j];
        }
      }
    }
  }

  lemma {:induction false} SumZero(vals: seq<real>)
    requires forall v | v in vals :: v >= 0.0
    ensures Sum(vals, Id()) >= 0.0
    ensures Sum(vals, Id()) == 0.0 <==> forall v | v in vals :: v == 0.0
  {
    if vals != [] {
      var f, x := vals[..|vals| - 1], vals[|vals| - 1];
      LastOrFront(vals);
      assert forall v | v in f :: v in vals;
      assert x in vals;
      SumZero(f);
      assert Sum(vals, Id()) == Sum(f, Id()) + x;
    }
  }

  /** The squared sum is at least the sum of squares, and equal to it exactly for at most one nonzero value. */
  lemma {:induction false} SumsOfNonnegative(vals: seq<real>)
    requires forall v | v in vals :: v >= 0.0
    ensures Sum(vals, Id()) >= 0.0 && Times(Sum(vals, Id()), Sum(vals, Id())) >= Sum(vals, Square()) >= 0.0
    ensures Times(Sum(vals, Id()), Sum(vals, Id())) == Sum(vals, Square()) <==> OneNonzero(vals)
  {
    if vals != [] {
      hide Times, OneNonzero;
      var f, x := vals[..|vals| - 1], vals[|vals| - 1];
      assert forall v | v in f :: v in vals;
      assert x in vals;
      SumsOfNonnegative(f);
      CrossTerm(Sum(f, Id()), x);
      SumZero(f);
      OneNonzeroStep(vals);
    }
  }

  lemma CrossTerm(s: real, x: real)
    requires s >= 0.0 && x >= 0.0
    ensures Times(s + x, s + x) >= Times(s, s) + Times(x, x) && Times(x, x) >= 0.0
    ensures Times(s + x, s + x) == Times(s, s) + Times(x, x) <==> s == 0.0 || x == 0.0
  {
    NonnegativeProduct(s, x);
    assert (s + x) * (s + x) == s * s + 2.0 * (s * x) + x * x;
  }

  lemma NonnegativeProduct(s: real, x: real)
    requires s >= 0.0 && x >= 0.0
    ensures s * x >= 0.0 && (s * x == 0.0 <==> s == 0.0 || x == 0.0)
  {
    if s != 0.0 {
      assert (s * x) / s == x;
    }
  }

  /**
   * For nonnegative values, not all zero, the index lies between 1/n and 1. It is 1 exactly if all values are equal,
   * and 1/n exactly if only one is not zero.
   */
  lemma JainBounds(vals: seq<real>)
    requires vals != [] && Sum(vals, Square()) != 0.0 && forall v | v in vals :: v >= 0.0
    ensures 1.0 / |vals| as real <= Jain(vals) <= 1.0
    ensures Jain(vals) == 1.0 <==> AllEqual(vals)
    ensures Jain(vals) == 1.0 / |vals| as real <==> OneNonzero(vals)
  {
    hide Times, AllEqual, OneNonzero;
    SumsOfNonnegative(vals);
    SpreadNonnegative(vals);
    Ratio(Times(Sum(vals, Id()), Sum(vals, Id())), |vals| as real, Sum(vals, Square()));
  }

  lemma Ratio(p: real, n: real, q: real)
    requires n > 0.0 && q > 0.0 && p >= q && Times(n, q) >= p
    ensures Times(n, q) > 0.0 && 1.0 / n <= p / Times(n, q) <= 1.0
    ensures p / Times(n, q) == 1.0 <==> Times(n, q) - p == 0.0
    ensures p / Times(n, q) == 1.0 / n <==> p == q
  {
    var d := Times(n, q);
    assert d == n * q > 0.0;
    var j := p / d;
    assert j * d == p;
    CancelFactor(1.0, j, d);
    assert (1.0 / n) * d == q;
    CancelFactor(j, 1.0 / n, d);
  }
}
