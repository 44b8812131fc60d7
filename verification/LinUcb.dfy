/** LinUCB path selection (internal/pathpolicy/policy.go). Floats are reals, matrix inversion and sqrt are exact. */
module LinUcb {
  import opened Bytes
  import opened Arithmetic
  import opened Seqs
  import opened LinAlg
  import opened Ucb

  const DIM := 5

  datatype PathContext = PathContext(peerCount: int, contentSizeKB: int, hourOfDay: int, avgNetworkRTT: real)

  function FeatureVector(c: PathContext): (x: Vec)
    ensures |x| == DIM
  {
    [c.peerCount as real / 100.0, c.contentSizeKB as real / 1024.0, c.hourOfDay as real / 24.0,
     c.avgNetworkRTT / 1000.0, 1.0]
  }

  /** The features are the peers in hundreds, the size in MB, the hour as part of a day, the RTT in seconds, and 1. */
  lemma FeaturesAre(c: PathContext)
    ensures var x := FeatureVector(c);
            && x[0] * 100.0 == c.peerCount as real && x[1] * 1024.0 == c.contentSizeKB as real
            && x[2] * 24.0 == c.hourOfDay as real && x[3] * 1000.0 == c.avgNetworkRTT && x[4] == 1.0
  {
  }

  /** The features lie in [0,1] exactly when the context keeps within the ranges they are normalised by. */
  lemma FeaturesScaledExactlyWhen(c: PathContext)
    ensures (forall i | 0 <= i < DIM :: 0.0 <= FeatureVector(c)[i] <= 1.0)
            <==> && 0 <= c.peerCount <= 100 && 0 <= c.contentSizeKB <= 1024 && 0 <= c.hourOfDay <= 24
                 && 0.0 <= c.avgNetworkRTT <= 1000.0
  {
    var x := FeatureVector(c);
    if forall i | 0 <= i < DIM :: 0.0 <= x[i] <= 1.0 {
      assert 0.0 <= x[0] <= 1.0 && 0.0 <= x[1] <= 1.0 && 0.0 <= x[2] <= 1.0 && 0.0 <= x[3] <= 1.0;
    }
  }

  /** With 101 peers the first feature is above 1. */
  lemma FeatureAboveOne()
    ensures FeatureVector(PathContext(101, 0, 0, 0.0))[0] > 1.0
  {
  }

  /** A context and the reward seen there. */
  datatype Sample = Sample(x: Vec, r: real)

  datatype Update = Update(id: string, sample: Sample)

  ghost predicate Sized(ss: seq<Sample>) {
    forall i | 0 <= i < |ss| :: |ss[i].x| == DIM
  }

  ghost predicate AllSized(h: seq<Update>) {
    forall i | 0 <= i < |h| :: |h[i].sample.x| == DIM
  }

  /** The samples of one path, in order. */
  function Own(h: seq<Update>, id: string): (ss: seq<Sample>)
    ensures AllSized(h) ==> Sized(ss)
  {
    if h == [] then []
    else Own(h[..|h| - 1], id) + (if h[|h| - 1].id == id then [h[|h| - 1].sample] else [])
  }

  function Contexts(ss: seq<Sample>): (xs: seq<Vec>)
    ensures |xs| == |ss|
    ensures Sized(ss) ==> Dim(xs, DIM)
  {
    seq(|ss|, i requires 0 <= i < |ss| => ss[i].x)
  }

  /** Σ r·x. */
  function RewardSum(ss: seq<Sample>): (b: Vec)
    requires Sized(ss)
    ensures |b| == DIM
  {
    if ss == [] then Zero(DIM) else Axpy(RewardSum(ss[..|ss| - 1]), ss[|ss| - 1].r, ss[|ss| - 1].x)
  }

  // ----- Matrices by their entries -----

  type Matrix = seq<Vec>

  ghost predicate Square(a: Matrix) {
    |a| == DIM && forall i | 0 <= i < DIM :: |a[i]| == DIM
  }

  function Identity(): (a: Matrix)
    ensures Square(a)
  {
    seq(DIM, i requires 0 <= i < DIM => Unit(i, DIM))
  }

  function Unit(i: nat, n: nat): (e: Vec)
    ensures |e| == n
  {
    seq(n, j => if i == j then 1.0 else 0.0)
  }

  /** a + xxᵀ. */
  function AddOuter(a: Matrix, x: Vec): (r: Matrix)
    requires Square(a) && |x| == DIM
    ensures Square(r)
  {
    seq(DIM, i requires 0 <= i < DIM => Axpy(a[i], x[i], x))
  }

  /** I + Σxxᵀ. */
  function DesignMatrix(xs: seq<Vec>): (a: Matrix)
    requires Dim(xs, DIM)
    ensures Square(a)
  {
    if xs == [] then Identity() else AddOuter(DesignMatrix(Front(xs)), Last(xs))
  }

  function MatVec(a: Matrix, y: Vec): (r: Vec)
    requires Square(a) && |y| == DIM
    ensures |r| == DIM
  {
    seq(DIM, i requires 0 <= i < DIM => Dot(a[i], y))
  }

  lemma {:induction false} DotUnit(i: nat, y: Vec)
    requires i < |y|
    ensures Dot(Unit(i, |y|), y) == y[i]
  {
    var e := Unit(i, |y|);
    if i == 0 {
      assert e[1..] == Zero(|y| - 1);
      DotZero(y[1..]);
      DotComm(y[1..], Zero(|y| - 1));
    } else {
      assert e[1..] == Unit(i - 1, |y| - 1);
      DotUnit(i - 1, y[1..]);
    }
  }

  lemma IdentityActs(y: Vec)
    requires |y| == DIM
    ensures MatVec(Identity(), y) == y
  {
    hide Dot;
    var r := MatVec(Identity(), y);
    forall i | 0 <= i < DIM ensures r[i] == y[i] {
      DotUnit(i, y);
    }
  }

  lemma {:induction false} OuterActs(a: Matrix, x: Vec, y: Vec)
    requires Square(a) && |x| == |y| == DIM
    ensures MatVec(AddOuter(a, x), y) == Axpy(MatVec(a, y), Dot(x, y), x)
  {
    hide Dot;
    var r, t := MatVec(AddOuter(a, x), y), Axpy(MatVec(a, y), Dot(x, y), x);
    forall i | 0 <= i < DIM ensures r[i] == t[i] {
      DotAxpy(y, a[i], x[i], x);
      Commutes(x[i], Dot(x, y));
    }
  }

  /** Multiplying by the entries I + Σxxᵀ is the action the linear algebra is about. */
  lemma {:induction false} MatrixActs(xs: seq<Vec>, y: Vec)
    requires Dim(xs, DIM) && |y| == DIM
    ensures MatVec(DesignMatrix(xs), y) == Apply(xs, y)
  {
    hide Dot, Axpy, Identity;
    if xs == [] {
      IdentityActs(y);
    } else {
      var x, a := Last(xs), DesignMatrix(Front(xs));
      MatrixActs(Front(xs), y);
      OuterActs(a, x, y);
      ApplyStep(xs, y);
    }
  }

  lemma Commutes(x: real, y: real)
    ensures Times(x, y) == y * x
  {
  }

  ghost predicate IsInverse(a: Matrix, b: Matrix) {
    Square(a) && Square(b) && forall y: Vec | |y| == DIM :: MatVec(a, MatVec(b, y)) == y
  }

  function InverseOf(xs: seq<Vec>): (b: Matrix)
    requires Dim(xs, DIM)
    ensures Square(b)
  {
    seq(DIM, i requires 0 <= i < DIM => Solve(xs, Unit(i, DIM)))
  }

  /** Every reachable A is invertible. */
  lemma DesignMatrixInvertible(xs: seq<Vec>)
    requires Dim(xs, DIM)
    ensures IsInverse(DesignMatrix(xs), InverseOf(xs))
  {
    hide Dot, Solve, Apply, DesignMatrix;
    var b := InverseOf(xs);
    forall y: Vec | |y| == DIM ensures MatVec(DesignMatrix(xs), MatVec(b, y)) == y {
      var z := Solve(xs, y);
      forall i | 0 <= i < DIM ensures MatVec(b, y)[i] == z[i] {
        ApplySymmetric(xs, b[i], z);
        DotUnit(i, z);
      }
      assert MatVec(b, y) == z;
      MatrixActs(xs, z);
    }
  }

  // ----- What is learnt is the ridge regression -----

  /** |θ|² + Σ (r - xᵀθ)². */
  function Loss(ss: seq<Sample>, theta: Vec): real
    requires Sized(ss) && |theta| == DIM
  {
    if ss == [] then Dot(theta, theta)
    else
      var s := ss[|ss| - 1];
      Loss(ss[..|ss| - 1], theta) + Times(s.r - Dot(s.x, theta), s.r - Dot(s.x, theta))
  }

  function SquaredRewards(ss: seq<Sample>): real {
    if ss == [] then 0.0 else SquaredRewards(ss[..|ss| - 1]) + Times(ss[|ss| - 1].r, ss[|ss| - 1].r)
  }

  lemma SquareOfDifference(r: real, p: real)
    ensures Times(r - p, r - p) == Times(r, r) - 2.0 * Times(r, p) + Times(p, p)
  {
  }

  lemma {:induction false} LossExpands(ss: seq<Sample>, theta: Vec)
    requires Sized(ss) && |theta| == DIM
    ensures Loss(ss, theta)
         == Dot(theta, Apply(Contexts(ss), theta)) - 2.0 * Dot(RewardSum(ss), theta) + SquaredRewards(ss)
  {
    hide Dot, Axpy, Times;
    if ss == [] {
      DotZero(theta);
      DotComm(theta, Zero(DIM));
    } else {
      var f, s := ss[..|ss| - 1], ss[|ss| - 1];
      LossExpands(f, theta);
      assert Front(Contexts(ss)) == Contexts(f) && Last(Contexts(ss)) == s.x;
      var p := Dot(s.x, theta);
      SquareOfDifference(s.r, p);
      DotAxpy(theta, Apply(Contexts(f), theta), p, s.x);
      DotAxpy(theta, RewardSum(f), s.r, s.x);
      DotComm(theta, s.x);
    }
  }

  /**
   * θ = A⁻¹b is the one weight vector with the least regularised squared error over the path's rewards; any other
   * is worse by at least its squared distance.
   */
  lemma ThetaIsRidgeOptimum(ss: seq<Sample>, theta: Vec, other: Vec)
    requires Sized(ss) && |theta| == |other| == DIM && Apply(Contexts(ss), theta) == RewardSum(ss)
    ensures var d := Axpy(other, -1.0, theta); Loss(ss, other) >= Loss(ss, theta) + Dot(d, d)
    ensures other != theta ==> Loss(ss, other) > Loss(ss, theta)
  {
    hide Dot, Times, Loss, Apply, RewardSum;
    var xs, d := Contexts(ss), Axpy(other, -1.0, theta);
    LossExpands(ss, theta);
    LossExpands(ss, other);
    PositiveDefinite(xs, d);
    Completed(xs, theta, other);
    DotComm(theta, Apply(xs, theta));
    DotSelf(d);
    if Dot(d, d) == 0.0 {
      ZeroDifference(other, theta);
    }
  }

  lemma ZeroDifference(a: Vec, b: Vec)
    requires |a| == |b| && Axpy(a, -1.0, b) == Zero(|a|)
    ensures a == b
  {
    forall i | 0 <= i < |a| ensures a[i] == b[i] {
      assert Axpy(a, -1.0, b)[i] == Zero(|a|)[i];
    }
  }

  /** (o-t)ᵀA(o-t) = oᵀAo - 2tᵀAo + tᵀAt. */
  lemma Completed(xs: seq<Vec>, t: Vec, o: Vec)
    requires Dim(xs, DIM) && |t| == |o| == DIM
    ensures var d := Axpy(o, -1.0, t);
            Dot(d, Apply(xs, d)) == Dot(o, Apply(xs, o)) - 2.0 * Dot(Apply(xs, t), o) + Dot(Apply(xs, t), t)
  {
    hide Dot, Axpy, Apply;
    var d := Axpy(o, -1.0, t);
    ApplyLinear(xs, o, -1.0, t);
    DotAxpy(d, Apply(xs, o), -1.0, Apply(xs, t));
    DotAxpy(Apply(xs, o), o, -1.0, t);
    DotAxpy(Apply(xs, t), o, -1.0, t);
    DotComm(o, Apply(xs, t));
    DotComm(t, Apply(xs, t));
    DotComm(t, Apply(xs, o));
    ApplySymmetric(xs, t, o);
  }

  // ----- The policy -----

  /** The library's inversion: some inverse of every invertible matrix. */
  ghost predicate Exact(inverse: Matrix -> Option<Matrix>) {
    forall a, b | IsInverse(a, b) :: inverse(a).Some? && IsInverse(a, inverse(a).value)
  }

  /** θᵀx + α√(xᵀA⁻¹x) with θ = A⁻¹b. */
  function LinBound(alpha: real, sqrt: real -> real, ss: seq<Sample>, x: Vec): real
    requires Sized(ss) && |x| == DIM
  {
    var xs := Contexts(ss);
    Dot(Solve(xs, RewardSum(ss)), x) + alpha * sqrt(Dot(x, Solve(xs, x)))
  }

  /** The bound, by whatever solves the two systems: the predicted reward, and alpha times the confidence width. */
  lemma {:induction false} BoundByAnySolution(alpha: real, sqrt: real -> real, ss: seq<Sample>, x: Vec,
                                              theta: Vec, z: Vec)
    requires Sized(ss) && |x| == |theta| == |z| == DIM
    requires Apply(Contexts(ss), theta) == RewardSum(ss) && Apply(Contexts(ss), z) == x
    ensures LinBound(alpha, sqrt, ss, x) == Dot(theta, x) + alpha * sqrt(Dot(x, z))
  {
    hide Dot, Apply, Solve, RewardSum;
    SolutionUnique(Contexts(ss), theta, Solve(Contexts(ss), RewardSum(ss)));
    SolutionUnique(Contexts(ss), z, Solve(Contexts(ss), x));
  }

  lemma {:induction false} DotSelfAtLeast(a: Vec, i: nat)
    requires i < |a|
    ensures Dot(a, a) >= a[i] * a[i]
  {
    SquareNonnegative(a[0]);
    DotSelf(a[1..]);
    if i > 0 {
      DotSelfAtLeast(a[1..], i - 1);
    }
  }

  lemma OneSampleLearnt(x: Vec, r: real)
    requires |x| == DIM
    ensures Contexts([Sample(x, r)]) == [x] && RewardSum([Sample(x, r)]) == Scaled(r, x)
  {
    var s := Sample(x, r);
    assert [s][..0] == [];
    ScaledAxpy(r, x);
  }

  /**
   * One sample of reward `r` at any context, and the same context again: the prediction is r·u/(1+u), the squared
   * width u/(1+u), where u = xᵀx is at least 1.
   */
  lemma OneSampleBound(alpha: real, sqrt: real -> real, c: PathContext, r: real)
    ensures var x := FeatureVector(c);
            var u := Dot(x, x);
            && u >= 1.0
            && LinBound(alpha, sqrt, [Sample(x, r)], x) == Times(r, u / (1.0 + u)) + alpha * sqrt(u / (1.0 + u))
  {
    hide Dot, Apply, Solve, Scaled, LinBound, RewardSum, FeatureVector;
    var x := FeatureVector(c);
    FeaturesAre(c);
    DotSelfAtLeast(x, 4);
    OneSampleLearnt(x, r);
    var z := Solve([x], x);
    ApplyNothing(x);
    assert [] + [x] == [x];
    WidthAtUpdate([], x, x, z);
    ApplyScaled([x], r, z);
    DotScaled(x, r, z);
    DotComm(x, Scaled(r, z));
    BoundByAnySolution(alpha, sqrt, [Sample(x, r)], x, Scaled(r, z), z);
  }

  lemma ApplyNothing(x: Vec)
    ensures Apply([], x) == x
  {
  }

  class ContextualBanditPolicy {
    const alpha: real
    const inverse: Matrix -> Option<Matrix>
    const sqrt: real -> real
    var pathA: map<string, Matrix>
    var pathB: map<string, Vec>
    ghost var history: seq<Update>

    ghost predicate Valid()
      reads this
    {
      AllSized(history) && LearntAll(pathA, pathB, history)
    }

    constructor (alpha: real, inverse: Matrix -> Option<Matrix>, sqrt: real -> real)
      ensures Valid() && history == [] && pathA == map[]
      ensures this.alpha == alpha && this.inverse == inverse && this.sqrt == sqrt
    {
      this.alpha, this.inverse, this.sqrt := alpha, inverse, sqrt;
      pathA, pathB, history := map[], map[], [];
    }

    /** `initPath`. */
    method InitPath(id: string)
      requires Valid()
      modifies `pathA, `pathB
      ensures Valid() && pathA.Keys == old(pathA.Keys) + {id}
    {
      hide LearntAll;
      if id in pathA {
        return;
      }
      ghost var before := pathA;
      PartStep(0);
      pathA := pathA[id := seq(DIM, _ => Zero(DIM))];
      for i := 0 to DIM
        invariant pathA == before[id := PartIdentity(i)] && pathB == old(pathB)
      {
        PartStep(i);
        pathA := pathA[id := pathA[id][i := pathA[id][i][i := 1.0]]];
      }
      pathB := pathB[id := Zero(DIM)];
      InitLearnt(before, old(pathB), history, id);
    }

    /** `UpdateContext`: one more sample for one path, and for no other. */
    method UpdateContext(id: string, pctx: PathContext, reward: real)
      requires Valid()
      modifies this
      ensures Valid() && history == old(history) + [Update(id, Sample(FeatureVector(pctx), reward))]
      ensures pathA.Keys == old(pathA.Keys) + {id}
    {
      hide LearntAll, AddOuter, Axpy;
      InitPath(id);
      var x := FeatureVector(pctx);
      ghost var u := Update(id, Sample(x, reward));
      UpdateLearnt(pathA, pathB, history, u);
      pathA := pathA[id := AddOuter(pathA[id], x)];
      pathB := pathB[id := Axpy(pathB[id], reward, x)];
      history := history + [u];
    }

    /** One path's score in `SelectPathWithContext`. */
    method Score(id: string, x: Vec) returns (ucb: real)
      requires Valid() && Exact(inverse) && id in pathA && |x| == DIM
      ensures ucb == LinBound(alpha, sqrt, Own(history, id), x)
    {
      hide Own, Dot, DesignMatrix, LinBound, IsInverse, RewardSum;
      ghost var ss := Own(history, id);
      DesignMatrixInvertible(Contexts(ss));
      var found := inverse(pathA[id]);
      var aInv := if found.Some? then found.value else Identity();
      BoundComputed(alpha, sqrt, ss, aInv, x);
      var theta := MatVec(aInv, pathB[id]);
      var predicted := Dot(theta, x);
      var squared := Dot(x, MatVec(aInv, x));
      var uncertainty := sqrt(Abs(squared));
      return predicted + alpha * uncertainty;
    }

    /** `SelectPathWithContext`: the first viable path of highest confidence bound. */
    method SelectPathWithContext(paths: seq<Candidate>, pctx: PathContext) returns (r: Option<Candidate>)
      requires Valid() && Exact(inverse)
      modifies `pathA, `pathB
      ensures Valid()
      ensures paths == [] ==> r == None
      ensures paths != [] && Viable(paths) == [] ==> r == Some(paths[0])
      ensures Viable(paths) != [] ==>
                exists i :: HighestBound(alpha, sqrt, history, Viable(paths), FeatureVector(pctx), |Viable(paths)|, i)
                            && r == Some(Viable(paths)[i])
    {
      if |paths| == 0 {
        return None;
      }
      var viable := FilterViable(paths);
      if |viable| == 0 {
        return Some(paths[0]);
      }
      var best := FindHighest(viable, FeatureVector(pctx));
      return Some(viable[best]);
    }

    method FindHighest(viable: seq<Candidate>, x: Vec) returns (best: nat)
      requires Valid() && Exact(inverse) && |x| == DIM && |viable| > 0
      modifies `pathA, `pathB
      ensures Valid() && best < |viable| && HighestBound(alpha, sqrt, history, viable, x, |viable|, best)
    {
      hide Own, LinBound, LearntAll, HighestBound, Exact;
      InitPath(viable[0].id);
      var highest := Score(viable[0].id, x);
      best := 0;
      HighestOfOne(alpha, sqrt, history, viable, x);
      for i := 1 to |viable|
        invariant Valid()
        invariant best < i && highest == LinBound(alpha, sqrt, Own(history, viable[best].id), x)
        invariant HighestBound(alpha, sqrt, history, viable, x, i, best)
      {
        InitPath(viable[i].id);
        var ucb := Score(viable[i].id, x);
        HighestOfNext(alpha, sqrt, history, viable, x, i, best);
        if ucb > highest {
          highest, best := ucb, i;
        }
      }
    }
  }

  /** `rows` is I + Σxxᵀ and `data` is Σr·x, over exactly these samples. */
  ghost predicate Learnt(rows: Matrix, data: Vec, ss: seq<Sample>) {
    Sized(ss) && rows == DesignMatrix(Contexts(ss)) && data == RewardSum(ss)
  }

  /** Each path has learnt exactly its own samples; a path without state has none. */
  ghost predicate LearntAll(pathA: map<string, Matrix>, pathB: map<string, Vec>, h: seq<Update>) {
    && AllSized(h) && pathA.Keys == pathB.Keys
    && (forall id | id in pathA :: Learnt(pathA[id], pathB[id], Own(h, id)))
    && (forall id | id !in pathA :: Own(h, id) == [])
  }

  /** The identity as far as its first `n` rows; zero below. */
  function PartIdentity(n: nat): (a: Matrix)
    ensures Square(a)
  {
    seq(DIM, i requires 0 <= i < DIM => PartRow(n, i))
  }

  function PartRow(n: nat, i: nat): (row: Vec)
    ensures |row| == DIM
  {
    if i < n then Unit(i, DIM) else Zero(DIM)
  }

  lemma PartStep(n: nat)
    requires n < DIM
    ensures PartIdentity(0) == seq(DIM, _ => Zero(DIM)) && PartIdentity(DIM) == Identity()
    ensures PartIdentity(n + 1) == PartIdentity(n)[n := PartIdentity(n)[n][n := 1.0]]
  {
    assert Unit(n, DIM) == Zero(DIM)[n := 1.0];
  }

  lemma InitLearnt(pathA: map<string, Matrix>, pathB: map<string, Vec>, h: seq<Update>, id: string)
    requires LearntAll(pathA, pathB, h) && id !in pathA
    ensures LearntAll(pathA[id := PartIdentity(DIM)], pathB[id := Zero(DIM)], h)
  {
    hide Learnt, Own;
    PartStep(0);
    NothingLearnt();
  }

  lemma UpdateLearnt(pathA: map<string, Matrix>, pathB: map<string, Vec>, h: seq<Update>, u: Update)
    requires LearntAll(pathA, pathB, h) && u.id in pathA && |u.sample.x| == DIM
    ensures u.id in pathB && Square(pathA[u.id]) && |pathB[u.id]| == DIM
    ensures LearntAll(pathA[u.id := AddOuter(pathA[u.id], u.sample.x)],
                      pathB[u.id := Axpy(pathB[u.id], u.sample.r, u.sample.x)], h + [u])
  {
    hide Learnt, Own, AddOuter, Axpy;
    OwnAppends(h, u);
    OneMoreLearnt(pathA[u.id], pathB[u.id], Own(h, u.id), u.sample);
  }

  lemma NothingLearnt()
    ensures Learnt(Identity(), Zero(DIM), [])
  {
    assert Contexts([]) == [];
  }

  lemma OneMoreLearnt(rows: Matrix, data: Vec, ss: seq<Sample>, s: Sample)
    requires Learnt(rows, data, ss) && |s.x| == DIM
    ensures Square(rows) && |data| == DIM && Learnt(AddOuter(rows, s.x), Axpy(data, s.r, s.x), ss + [s])
  {
    var all := ss + [s];
    assert all[..|all| - 1] == ss && Front(Contexts(all)) == Contexts(ss);
  }

  lemma OwnAppends(h: seq<Update>, u: Update)
    ensures Own(h + [u], u.id) == Own(h, u.id) + [u.sample]
    ensures forall id | id != u.id :: Own(h + [u], id) == Own(h, id)
  {
    var all := h + [u];
    assert all[..|all| - 1] == h;
  }

  function Abs(x: real): real {
    if x < 0.0 then -x else x
  }

  /** What the code computes from the inverse; the absolute value changes nothing. */
  lemma {:induction false} BoundComputed(alpha: real, sqrt: real -> real, ss: seq<Sample>, aInv: Matrix, x: Vec)
    requires Sized(ss) && |x| == DIM && IsInverse(DesignMatrix(Contexts(ss)), aInv)
    ensures Square(aInv)
    ensures Dot(x, MatVec(aInv, x)) >= 0.0
    ensures Dot(MatVec(aInv, RewardSum(ss)), x) + alpha * sqrt(Abs(Dot(x, MatVec(aInv, x))))
         == LinBound(alpha, sqrt, ss, x)
  {
    hide Dot, DesignMatrix, Solve, RewardSum;
    InverseSolves(Contexts(ss), aInv, RewardSum(ss));
    InverseSolves(Contexts(ss), aInv, x);
    WidthBounds(Contexts(ss), x);
  }

  lemma InverseSolves(xs: seq<Vec>, b: Matrix, y: Vec)
    requires Dim(xs, DIM) && |y| == DIM && IsInverse(DesignMatrix(xs), b)
    ensures MatVec(b, y) == Solve(xs, y)
  {
    hide Dot, DesignMatrix, Solve, Apply;
    var z := MatVec(b, y);
    MatrixActs(xs, z);
    assert MatVec(DesignMatrix(xs), z) == y;
    SolutionUnique(xs, z, Solve(xs, y));
  }

  /** Among the first `n` positions, `i` has the highest bound, and is the first such. */
  ghost predicate HighestBound(alpha: real, sqrt: real -> real, h: seq<Update>, v: seq<Candidate>, x: Vec,
                               n: nat, i: int)
    requires |x| == DIM && AllSized(h) && n <= |v|
  {
    && 0 <= i < n
    && (forall j | 0 <= j < n :: LinBound(alpha, sqrt, Own(h, v[j].id), x) <= LinBound(alpha, sqrt, Own(h, v[i].id), x))
    && (forall j | 0 <= j < i :: LinBound(alpha, sqrt, Own(h, v[j].id), x) < LinBound(alpha, sqrt, Own(h, v[i].id), x))
  }

  lemma HighestOfOne(alpha: real, sqrt: real -> real, h: seq<Update>, v: seq<Candidate>, x: Vec)
    requires |x| == DIM && AllSized(h) && v != []
    ensures HighestBound(alpha, sqrt, h, v, x, 1, 0)
  {
  }

  lemma HighestOfNext(alpha: real, sqrt: real -> real, h: seq<Update>, v: seq<Candidate>, x: Vec, n: nat, i: nat)
    requires |x| == DIM && AllSized(h) && n < |v| && HighestBound(alpha, sqrt, h, v, x, n, i)
    ensures var better := LinBound(alpha, sqrt, Own(h, v[n].id), x) > LinBound(alpha, sqrt, Own(h, v[i].id), x);
            HighestBound(alpha, sqrt, h, v, x, n + 1, if better then n else i)
  {
    hide LinBound, Own;
  }

  /** The path selected is the first of the offered probed paths whose bound, by its own history, is highest. */
  lemma SelectedHasHighestBound(alpha: real, sqrt: real -> real, h: seq<Update>, paths: seq<Candidate>, x: Vec, i: int)
    returns (k: nat)
    requires |x| == DIM && AllSized(h) && HighestBound(alpha, sqrt, h, Viable(paths), x, |Viable(paths)|, i)
    ensures k < |paths| && paths[k] == Viable(paths)[i] && paths[k].samples > 0
    ensures forall j | 0 <= j < |paths| && paths[j].samples > 0 ::
              && LinBound(alpha, sqrt, Own(h, paths[j].id), x) <= LinBound(alpha, sqrt, Own(h, paths[k].id), x)
              && (j < k ==>
                    LinBound(alpha, sqrt, Own(h, paths[j].id), x) < LinBound(alpha, sqrt, Own(h, paths[k].id), x))
  {
    hide LinBound, Own, Viable;
    var ps := ViablePositions(paths, |paths|);
    assert paths[..|paths|] == paths;
    k := ps[i];
    forall j | 0 <= j < |paths| && paths[j].samples > 0
      ensures LinBound(alpha, sqrt, Own(h, paths[j].id), x) <= LinBound(alpha, sqrt, Own(h, paths[k].id), x)
      ensures j < k ==> LinBound(alpha, sqrt, Own(h, paths[j].id), x) < LinBound(alpha, sqrt, Own(h, paths[k].id), x)
    {
      var a := AtPosition(paths, ps, j);
    }
  }
}
