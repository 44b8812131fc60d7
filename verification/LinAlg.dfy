/**
 * The linear algebra behind LinUCB, over the reals. The matrix I + Σxxᵀ of a list of contexts is handled through
 * its action on vectors; MatrixActs connects that action with the entries.
 */
module LinAlg {
  import opened Arithmetic
  import opened Seqs

  type Vec = seq<real>

  function Axpy(a: Vec, k: real, b: Vec): (r: Vec)
    requires |a| == |b|
    ensures |r| == |a|
  {
    seq(|a|, i requires 0 <= i < |a| => a[i] + k * b[i])
  }

  function Zero(n: nat): (r: Vec)
    ensures |r| == n
  {
    seq(n, _ => 0.0)
  }

  function Dot(a: Vec, b: Vec): real
    requires |a| == |b|
  {
    if a == [] then 0.0 else a[0] * b[0] + Dot(a[1..], b[1..])
  }

  lemma {:induction false} DotComm(a: Vec, b: Vec)
    requires |a| == |b|
    ensures Dot(a, b) == Dot(b, a)
  {
    if a != [] {
      DotComm(a[1..], b[1..]);
    }
  }

  lemma Distribute(x: real, a: real, k: real, b: real, p: real, q: real)
    ensures x * (a + k * b) + (p + k * q) == (x * a + p) + k * (x * b + q)
  {
  }

  lemma AxpyTail(a: Vec, k: real, b: Vec)
    requires |a| == |b| > 0
    ensures Axpy(a, k, b)[1..] == Axpy(a[1..], k, b[1..])
  {
    var l, r := Axpy(a, k, b)[1..], Axpy(a[1..], k, b[1..]);
    forall i | 0 <= i < |a| - 1 ensures l[i] == r[i] {
      assert a[1..][i] == a[i + 1] && b[1..][i] == b[i + 1];
    }
  }

  lemma {:induction false} DotAxpy(w: Vec, a: Vec, k: real, b: Vec)
    requires |w| == |a| == |b|
    ensures Dot(w, Axpy(a, k, b)) == Dot(w, a) + Times(k, Dot(w, b))
    ensures Dot(Axpy(a, k, b), w) == Dot(a, w) + Times(k, Dot(b, w))
  {
    DotComm(w, Axpy(a, k, b));
    DotComm(w, a);
    DotComm(w, b);
    if w != [] {
      AxpyTail(a, k, b);
      DotAxpy(w[1..], a[1..], k, b[1..]);
      Distribute(w[0], a[0], k, b[0], Dot(w[1..], a[1..]), Dot(w[1..], b[1..]));
    }
  }

  lemma {:induction false} DotSelf(a: Vec)
    ensures Dot(a, a) >= 0.0
    ensures Dot(a, a) == 0.0 ==> a == Zero(|a|)
  {
    if a != [] {
      DotSelf(a[1..]);
      SquareNonnegative(a[0]);
      if Dot(a, a) == 0.0 {
        ZeroSquare(a[0]);
        assert a == [a[0]] + a[1..];
      }
    }
  }

  lemma ZeroSquare(x: real)
    ensures x * x == 0.0 ==> x == 0.0
  {
    if x != 0.0 {
      assert (x * x) / x == x;
    }
  }

  lemma {:induction false} DotZero(a: Vec)
    ensures Dot(a, Zero(|a|)) == 0.0
  {
    if a != [] {
      assert Zero(|a|)[1..] == Zero(|a| - 1);
      DotZero(a[1..]);
    }
  }

  ghost predicate Dim(xs: seq<Vec>, n: nat) {
    forall i | 0 <= i < |xs| :: |xs[i]| == n
  }

  /** (I + Σxxᵀ)·y. */
  function Apply(xs: seq<Vec>, y: Vec): (r: Vec)
    requires Dim(xs, |y|)
    ensures |r| == |y|
  {
    if xs == [] then y else Axpy(Apply(Front(xs), y), Dot(Last(xs), y), Last(xs))
  }

  lemma ApplyStep(xs: seq<Vec>, y: Vec)
    requires xs != [] && Dim(xs, |y|)
    ensures Apply(xs, y) == Axpy(Apply(Front(xs), y), Dot(Last(xs), y), Last(xs))
  {
  }

  lemma ApplyAppend(xs: seq<Vec>, x: Vec, y: Vec)
    requires |x| == |y| && Dim(xs, |y|)
    ensures Dim(xs + [x], |y|) && Apply(xs + [x], y) == Axpy(Apply(xs, y), Dot(x, y), x)
  {
    assert Front(xs + [x]) == xs && Last(xs + [x]) == x;
  }

  /** (a + kb) + l(c + kd) rearranged as (a + lc) + k(b + ld), coefficientwise. */
  lemma AxpySwap(a: Vec, k: real, b: Vec, l: real, m: real, x: Vec)
    requires |a| == |b| == |x|
    ensures Axpy(Axpy(a, k, b), l + Times(k, m), x) == Axpy(Axpy(a, l, x), k, Axpy(b, m, x))
  {
    var ab, ax, bx := Axpy(a, k, b), Axpy(a, l, x), Axpy(b, m, x);
    var r, t := Axpy(ab, l + Times(k, m), x), Axpy(ax, k, bx);
    forall i | 0 <= i < |a| ensures r[i] == t[i] {
      Expand(a[i], k, b[i], l, m, x[i]);
    }
  }

  lemma Expand(a: real, k: real, b: real, l: real, m: real, x: real)
    ensures (a + k * b) + (l + k * m) * x == (a + l * x) + k * (b + m * x)
  {
    assert (l + k * m) * x == l * x + k * (m * x);
  }

  lemma {:induction false} ApplyLinear(xs: seq<Vec>, y: Vec, k: real, z: Vec)
    requires |y| == |z| && Dim(xs, |y|)
    ensures Apply(xs, Axpy(y, k, z)) == Axpy(Apply(xs, y), k, Apply(xs, z))
  {
    hide Dot, Axpy, Times;
    if xs != [] {
      var x, f := Last(xs), Front(xs);
      ApplyLinear(f, y, k, z);
      DotAxpy(x, y, k, z);
      ApplyStep(xs, Axpy(y, k, z));
      AxpySwap(Apply(f, y), k, Apply(f, z), Dot(x, y), Dot(x, z), x);
    }
  }

  /** The matrix is symmetric. */
  lemma {:induction false} ApplySymmetric(xs: seq<Vec>, w: Vec, y: Vec)
    requires |w| == |y| && Dim(xs, |y|)
    ensures Dot(w, Apply(xs, y)) == Dot(Apply(xs, w), y)
  {
    hide Dot, Axpy;
    if xs != [] {
      var x, f := Last(xs), Front(xs);
      ApplySymmetric(f, w, y);
      DotAxpy(w, Apply(f, y), Dot(x, y), x);
      DotAxpy(y, Apply(f, w), Dot(x, w), x);
      DotComm(w, x);
      DotComm(y, x);
    }
  }

  /** yᵀAy ≥ yᵀy. */
  lemma {:induction false} PositiveDefinite(xs: seq<Vec>, y: Vec)
    requires Dim(xs, |y|)
    ensures Dot(y, Apply(xs, y)) >= Dot(y, y)
  {
    if xs != [] {
      var x, f := Last(xs), Front(xs);
      PositiveDefinite(f, y);
      DotAxpy(y, Apply(f, y), Dot(x, y), x);
      DotComm(x, y);
      SquareNonnegative(Dot(x, y));
    }
  }

  /** A has no kernel, so a linear system in A has at most one solution. */
  lemma SolutionUnique(xs: seq<Vec>, z: Vec, w: Vec)
    requires |z| == |w| && Dim(xs, |z|) && Apply(xs, z) == Apply(xs, w)
    ensures z == w
  {
    hide Dot, Apply;
    var d := Axpy(z, -1.0, w);
    ApplyLinear(xs, z, -1.0, w);
    DifferenceZero(Apply(xs, z));
    PositiveDefinite(xs, d);
    DotZero(d);
    DotSelf(d);
    forall i | 0 <= i < |d| ensures z[i] == w[i] {
      assert d[i] == 0.0;
    }
  }

  lemma DifferenceZero(y: Vec)
    ensures Axpy(y, -1.0, y) == Zero(|y|)
  {
  }

  /** A⁻¹y, by rank-one updates. */
  function Solve(xs: seq<Vec>, y: Vec): (z: Vec)
    requires Dim(xs, |y|)
    ensures |z| == |y| && Apply(xs, z) == y
  {
    if xs == [] then y else
      var x, f := Last(xs), Front(xs);
      var z, w := Solve(f, y), Solve(f, x);
      WidthNonnegative(f, w);
      DotComm(x, w);
      CancelCoefficient(Dot(x, z), Dot(x, w));
      RankOneSolves(xs, y, z, w, -Dot(x, z) / (1.0 + Dot(x, w)));
      Axpy(z, -Dot(x, z) / (1.0 + Dot(x, w)), w)
  }

  lemma WidthNonnegative(xs: seq<Vec>, z: Vec)
    requires Dim(xs, |z|)
    ensures Dot(z, Apply(xs, z)) >= 0.0
  {
    PositiveDefinite(xs, z);
    DotSelf(z);
  }

  lemma CancelCoefficient(p: real, u: real)
    requires u >= 0.0
    ensures -p / (1.0 + u) + (p + Times(-p / (1.0 + u), u)) == 0.0
  {
    var t := -p / (1.0 + u);
    assert t * (1.0 + u) == -p;
    assert t * (1.0 + u) == t + t * u;
  }

  lemma RankOneSolves(xs: seq<Vec>, y: Vec, z: Vec, w: Vec, t: real)
    requires xs != [] && Dim(xs, |y|) && |z| == |y| == |w|
    requires Apply(Front(xs), z) == y && Apply(Front(xs), w) == Last(xs)
    requires t + (Dot(Last(xs), z) + Times(t, Dot(Last(xs), w))) == 0.0
    ensures Apply(xs, Axpy(z, t, w)) == y
  {
    hide Dot, Axpy, Times;
    var x, f := Last(xs), Front(xs);
    ApplyLinear(f, z, t, w);
    DotAxpy(x, z, t, w);
    ApplyStep(xs, Axpy(z, t, w));
    AxpyCancels(y, t, Dot(x, z) + Times(t, Dot(x, w)), x);
  }

  lemma AxpyCancels(y: Vec, t: real, s: real, x: Vec)
    requires |y| == |x| && t + s == 0.0
    ensures Axpy(Axpy(y, t, x), s, x) == y
  {
    var r := Axpy(Axpy(y, t, x), s, x);
    forall i | 0 <= i < |y| ensures r[i] == y[i] {
      CoefficientsCancel(y[i], t, s, x[i]);
    }
  }

  lemma CoefficientsCancel(y: real, t: real, s: real, x: real)
    requires t + s == 0.0
    ensures (y + t * x) + s * x == y
  {
    assert t * x + s * x == (t + s) * x;
  }

  // ----- Confidence width -----

  /** The squared width yᵀA⁻¹y never grows when a context is added: whatever solves the two systems. */
  lemma WidthNeverGrows(xs: seq<Vec>, x: Vec, y: Vec, z: Vec, z': Vec)
    requires |x| == |y| == |z| == |z'| && Dim(xs, |y|)
    requires Apply(xs, z) == y && Apply(xs + [x], z') == y
    ensures Dot(y, z') <= Dot(y, z)
  {
    hide Dot, Axpy;
    ApplyAppend(xs, x, z');
    WidthShrinks(xs, x, z, z');
  }

  lemma {:induction false} WidthShrinks(xs: seq<Vec>, x: Vec, z: Vec, z': Vec)
    requires |x| == |z| == |z'| && Dim(xs, |x|)
    requires Axpy(Apply(xs, z'), Dot(x, z'), x) == Apply(xs, z)
    ensures Dot(Apply(xs, z), z') <= Dot(Apply(xs, z), z)
  {
    hide Dot, Axpy, Scaled, Times, Apply;
    var y, s, t := Apply(xs, z), Dot(x, z), Dot(x, z');
    var d := Axpy(z, -1.0, z');
    ApplyLinear(xs, z, -1.0, z');
    DifferenceScaled(Apply(xs, z'), t, x);
    DotScaled(d, t, x);
    DotScaled(z, t, x);
    DotComm(x, d);
    DotComm(x, z);
    DotComm(x, z');
    DotAxpy(x, z, -1.0, z');
    WidthNonnegative(xs, d);
    ApplySymmetric(xs, z, d);
    DotAxpy(y, z, -1.0, z');
    ProductsOrder(t, s, Dot(y, z'));
  }

  lemma DifferenceScaled(a: Vec, t: real, x: Vec)
    requires |a| == |x|
    ensures Axpy(Axpy(a, t, x), -1.0, a) == Scaled(t, x)
  {
    var l, r := Axpy(Axpy(a, t, x), -1.0, a), Scaled(t, x);
    forall i | 0 <= i < |a| ensures l[i] == r[i] {
    }
  }

  lemma ProductsOrder(t: real, s: real, v: real)
    requires Times(t, s + Times(-1.0, t)) >= 0.0
    ensures Times(t, s) >= 0.0 && Times(-1.0, v) == -v
  {
    SquareNonnegative(t);
    assert t * (s - t) == t * s - t * t;
  }

  function Scaled(k: real, b: Vec): (r: Vec)
    ensures |r| == |b|
  {
    seq(|b|, i requires 0 <= i < |b| => k * b[i])
  }

  lemma DotScaled(w: Vec, k: real, b: Vec)
    requires |w| == |b|
    ensures Dot(w, Scaled(k, b)) == Times(k, Dot(w, b))
  {
    ScaledAxpy(k, b);
    DotAxpy(w, Zero(|b|), k, b);
    DotZero(w);
  }

  /** At the context just added, u = xᵀA⁻¹x becomes exactly u/(1+u). */
  lemma {:induction false} WidthAtUpdate(xs: seq<Vec>, x: Vec, z: Vec, z': Vec)
    requires |x| == |z| == |z'| && Dim(xs, |x|)
    requires Apply(xs, z) == x && Apply(xs + [x], z') == x
    ensures Dot(x, z) >= 0.0 && Dot(x, z') == Dot(x, z) / (1.0 + Dot(x, z))
  {
    hide Dot, Axpy, Apply;
    ApplyAppend(xs, x, z');
    UpdateEquation(xs, x, z, z');
    FixedPoint(Dot(x, z'), Dot(x, z));
  }

  lemma {:induction false} UpdateEquation(xs: seq<Vec>, x: Vec, z: Vec, z': Vec)
    requires |x| == |z| == |z'| && Dim(xs, |x|)
    requires Apply(xs, z) == x && Axpy(Apply(xs, z'), Dot(x, z'), x) == x
    ensures Dot(x, z) >= 0.0 && Dot(x, z') == Times(1.0 - Dot(x, z'), Dot(x, z))
  {
    hide Dot, Axpy, Scaled, Zero, Times, Apply;
    WidthNonnegative(xs, z);
    DotComm(x, z);
    var t := Dot(x, z');
    RestScaled(Apply(xs, z'), t, x);
    ApplyScaled(xs, 1.0 - t, z);
    SolutionUnique(xs, z', Scaled(1.0 - t, z));
    DotScaled(x, 1.0 - t, z);
  }

  lemma ApplyScaled(xs: seq<Vec>, k: real, z: Vec)
    requires Dim(xs, |z|)
    ensures Apply(xs, Scaled(k, z)) == Scaled(k, Apply(xs, z))
  {
    hide Dot, Axpy, Scaled, Zero, Apply;
    ScaledAxpy(k, z);
    ScaledAxpy(k, Apply(xs, z));
    ApplyLinear(xs, Zero(|z|), k, z);
    ApplyZero(xs, |z|);
  }

  lemma ScaledAxpy(k: real, b: Vec)
    ensures Scaled(k, b) == Axpy(Zero(|b|), k, b)
  {
  }

  lemma RestScaled(a: Vec, t: real, x: Vec)
    requires |a| == |x| && Axpy(a, t, x) == x
    ensures a == Scaled(1.0 - t, x)
  {
    var s := Scaled(1.0 - t, x);
    forall i | 0 <= i < |a| ensures a[i] == s[i] {
      assert x[i] == a[i] + t * x[i];
    }
  }

  lemma FixedPoint(t: real, u: real)
    requires u >= 0.0 && t == Times(1.0 - t, u)
    ensures t == u / (1.0 + u)
  {
    assert t * (1.0 + u) == u;
  }

  lemma {:induction false} ApplyZero(xs: seq<Vec>, n: nat)
    requires Dim(xs, n)
    ensures Apply(xs, Zero(n)) == Zero(n)
  {
    if xs != [] {
      ApplyZero(Front(xs), n);
      DotZero(Last(xs));
    }
  }

  /** 0 ≤ yᵀA⁻¹y ≤ yᵀy. */
  lemma {:induction false} WidthBounds(xs: seq<Vec>, y: Vec)
    requires Dim(xs, |y|)
    ensures 0.0 <= Dot(y, Solve(xs, y)) <= Dot(y, y)
    decreases |xs|
  {
    var z := Solve(xs, y);
    WidthNonnegative(xs, z);
    DotComm(y, z);
    if xs != [] {
      WidthBounds(Front(xs), y);
      assert Front(xs) + [Last(xs)] == xs;
      WidthNeverGrows(Front(xs), Last(xs), y, Solve(Front(xs), y), z);
    }
  }
}
