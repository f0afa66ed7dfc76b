/**
 * build_factorization_expression: a polynomial built as the expansion of
 * a known product (or difference of squares, or sum of two multiples of
 * one variable), so that the pupil can factor it back.  The question's
 * answer is the expanded polynomial, shown bare.
 */
module Factoring {
  import opened Polynomials
  import opened Draws
  import opened Rendering
  import opened Display
  import opened Levels

  datatype Pattern =
    | Square | QuadraticPair | DiffSquare | Grouping | QuadraticTimesLinear | MultiVarQuadratic

  /** The patterns a tier draws from. */
  function Patterns(tier: Tier): (ps: seq<Pattern>)
    ensures |ps| == if tier == Basic then 4 else 6
    ensures tier == Basic ==> QuadraticTimesLinear !in ps && MultiVarQuadratic !in ps
  {
    if tier == Basic then [Square, QuadraticPair, DiffSquare, Grouping]
    else [Square, QuadraticPair, DiffSquare, Grouping, QuadraticTimesLinear, MultiVarQuadratic]
  }

  /** square: (a v + b)^2 with a in [1, 4] and b in [-6, 6]. */
  method SquareOf(r: Rng, n: nat) returns (value: Poly, r': Rng, i: nat, a: int, b: int)
    requires n >= 1
    ensures i < n && 1 <= a <= 4 && -6 <= b <= 6
    ensures value == Mul(Linear(a, i, n, b), Linear(a, i, n, b))
    ensures Valid(value, n) && value != [] && value[0] == Term(a * a, Power(i, n, 2))
    ensures Left(r') <= Left(r)
  {
    var d := RandInt(r, 0, n - 1);
    var da := RandInt(d.1, 1, 4);
    var db := RandInt(da.1, -6, 6);
    i, r', a, b := d.0, db.1, da.0, db.0;
    var f := Linear(a, i, n, b);
    value := Mul(f, f);
    LinearProductLeading(a, b, a, b, i, n);
  }

  /** quadratic: (p v + m)(q v + k) with p, q in [1, 4] and m, k in [-6, 6]. */
  method QuadraticOf(r: Rng, n: nat)
    returns (value: Poly, r': Rng, i: nat, p: int, q: int, m: int, k: int)
    requires n >= 1
    ensures i < n && 1 <= p <= 4 && 1 <= q <= 4 && -6 <= m <= 6 && -6 <= k <= 6
    ensures value == Mul(Linear(p, i, n, m), Linear(q, i, n, k))
    ensures Valid(value, n) && value != [] && value[0] == Term(p * q, Power(i, n, 2))
    ensures Left(r') <= Left(r)
  {
    var d := RandInt(r, 0, n - 1);
    var dp := RandInt(d.1, 1, 4);
    var dq := RandInt(dp.1, 1, 4);
    var dm := RandInt(dq.1, -6, 6);
    var dk := RandInt(dm.1, -6, 6);
    i, r', p, q, m, k := d.0, dk.1, dp.0, dq.0, dm.0, dk.0;
    value := Mul(Linear(p, i, n, m), Linear(q, i, n, k));
    LinearProductLeading(p, m, q, k, i, n);
  }

  /** (a v1)^2 - (b v2)^2, each square evaluated at once to a^2 v1^2 and b^2 v2^2. */
  function DiffOfSquares(a: int, i1: nat, b: int, i2: nat, n: nat): Poly
    requires i1 < n && i2 < n
  {
    Sub(VarPower(a * a, i1, n, 2), VarPower(b * b, i2, n, 2))
  }

  lemma SquarePositive(a: int)
    requires a > 0
    ensures a * a > 0
  {
  }

  lemma SquaresDiffer(a: int, b: int)
    requires a > 0 && b > 0 && a != b
    ensures a * a != b * b
  {
    if a < b {
      assert a * a < a * b < b * b;
    } else {
      assert b * b < b * a < a * a;
    }
  }

  /** The difference is a^2 v1^2 plus -b^2 v2^2, two single terms. */
  lemma DiffOfSquaresForm(a: int, i1: nat, b: int, i2: nat, n: nat)
    requires i1 < n && i2 < n && a > 0 && b > 0
    ensures DiffOfSquares(a, i1, b, i2, n) == Add(VarPower(a * a, i1, n, 2), VarPower(-(b * b), i2, n, 2))
    ensures VarPower(a * a, i1, n, 2) == [Term(a * a, Power(i1, n, 2))]
    ensures VarPower(-(b * b), i2, n, 2) == [Term(-(b * b), Power(i2, n, 2))]
  {
    var sa, sb := a * a, b * b;
    assert sa > 0 && sb > 0 by { SquarePositive(a); SquarePositive(b); }
    var q := VarPower(sb, i2, n, 2);
    assert q == [Term(sb, Power(i2, n, 2))];
    assert Scale(-1, q) == [Term(-sb, Power(i2, n, 2))];
  }

  lemma PowTwo(x: int)
    ensures Pow(x, 2) == x * x
  {
    assert Pow(x, 1) == x * Pow(x, 0);
  }

  lemma ProductSquare(a: int, x: int)
    ensures a * a * (x * x) == (a * x) * (a * x)
  {
  }

  lemma DiffProduct(u: int, w: int)
    ensures (u + w) * (u - w) == u * u - w * w
  {
  }

  lemma SquaresArith(e: int, e1: int, e2: int, a: int, b: int, x: int, y: int)
    requires e == e1 + e2 && e1 == a * a * Pow(x, 2) && e2 == -(b * b) * Pow(y, 2)
    ensures e == (a * x + b * y) * (a * x - b * y)
  {
    PowTwo(x);
    PowTwo(y);
    ProductSquare(a, x);
    ProductSquare(b, y);
    DiffProduct(a * x, b * y);
  }

  /** At every point the difference of squares is (a v1 + b v2)(a v1 - b v2). */
  lemma DiffOfSquaresEval(a: int, i1: nat, b: int, i2: nat, n: nat, pt: seq<int>)
    requires i1 < n && i2 < n && a > 0 && b > 0 && |pt| == n
    ensures Eval(DiffOfSquares(a, i1, b, i2, n), pt) == (a * pt[i1] + b * pt[i2]) * (a * pt[i1] - b * pt[i2])
  {
    var d, p, s := DiffOfSquares(a, i1, b, i2, n), VarPower(a * a, i1, n, 2), VarPower(-(b * b), i2, n, 2);
    DiffOfSquaresForm(a, i1, b, i2, n);
    AddEval(p, s, pt);
    VarPowerEval(a * a, i1, n, 2, pt);
    VarPowerEval(-(b * b), i2, n, 2, pt);
    var x, y := pt[i1], pt[i2];
    SquaresArith(Eval(d, pt), Eval(p, pt), Eval(s, pt), a, b, x, y);
  }

  /** The difference of squares is canonical and is zero only for a square minus itself. */
  lemma DiffOfSquaresZero(a: int, i1: nat, b: int, i2: nat, n: nat)
    requires i1 < n && i2 < n && a > 0 && b > 0
    ensures Valid(DiffOfSquares(a, i1, b, i2, n), n)
    ensures DiffOfSquares(a, i1, b, i2, n) == [] <==> i1 == i2 && a == b
  {
    var p, s := VarPower(a * a, i1, n, 2), VarPower(-(b * b), i2, n, 2);
    DiffOfSquaresForm(a, i1, b, i2, n);
    AddValid(p, s, n);
    if i1 == i2 {
      if a == b {
        LexIrreflexive(p[0].exps);
        assert Add(p, s) == Add(p[1..], s[1..]);
      } else {
        SquaresDiffer(a, b);
        AddHeadEqual(p, s);
      }
    } else {
      assert Power(i1, n, 2)[i1] != Power(i2, n, 2)[i1];
      LexTotal(Power(i1, n, 2), Power(i2, n, 2));
      if LexGt(Power(i1, n, 2), Power(i2, n, 2)) {
        AddHeadHigher(p, s);
      } else {
        AddHeadLower(p, s);
      }
    }
  }

  /**
   * diff_square: (a v1)^2 - (b v2)^2 with a in [2, 6], b in [1, 5]; with two
   * or more variables v2 is a different variable half of the time.  The
   * draw of a and b is repeated while the two squares are the same.
   */
  method DiffSquareOf(r: Rng, n: nat)
    returns (value: Poly, r': Rng, ghost i1: nat, ghost i2: nat, ghost a: int, ghost b: int)
    requires n >= 1
    ensures i1 < n && i2 < n && 2 <= a <= 6 && 1 <= b <= 5
    ensures n == 1 ==> i1 == i2
    ensures i1 == i2 ==> a != b
    ensures value == DiffOfSquares(a, i1, b, i2, n)
    ensures Valid(value, n) && value != []
    ensures Left(r') <= Left(r)
  {
    var d := RandInt(r, 0, n - 1);
    var v1, v2 := d.0, d.0;
    r' := d.1;
    if n >= 2 {
      var c := Chance(r', 1, 2);
      r' := c.1;
      if c.0 {
        var o := Choice(r', Others(n, v1));
        v2, r' := o.0, o.1;
      }
    }
    var x, y := 2, 1;
    while true
      invariant Left(r') <= Left(r)
      decreases Left(r')
    {
      var da := RandInt(r', 2, 6);
      var db := RandInt(da.1, 1, 5);
      x, y, r' := da.0, db.0, db.1;
      if !(v1 == v2 && x == y) {
        break;
      }
    }
    i1, i2, a, b := v1, v2, x, y;
    value := DiffOfSquares(x, v1, y, v2, n);
    DiffOfSquaresZero(x, v1, y, v2, n);
  }

  /** quadratic_times_linear: (a v^2 + b v + c)(d v + e) with a, d in [1, 3] and b, c, e in [-5, 5]. */
  method QuadraticTimesLinearOf(r: Rng, n: nat)
    returns (value: Poly, r': Rng, i: nat, a: int, b: int, c: int, d: int, e: int)
    requires n >= 1
    ensures i < n && 1 <= a <= 3 && -5 <= b <= 5 && -5 <= c <= 5 && 1 <= d <= 3 && -5 <= e <= 5
    ensures value == Mul(Quadratic(a, b, c, i, n), Linear(d, i, n, e))
    ensures Valid(value, n) && value != [] && value[0] == Term(a * d, Power(i, n, 3))
    ensures Left(r') <= Left(r)
  {
    var dv := RandInt(r, 0, n - 1);
    var da := RandInt(dv.1, 1, 3);
    var db := RandInt(da.1, -5, 5);
    var dc := RandInt(db.1, -5, 5);
    var dd := RandInt(dc.1, 1, 3);
    var de := RandInt(dd.1, -5, 5);
    i, r' := dv.0, de.1;
    a, b, c, d, e := da.0, db.0, dc.0, dd.0, de.0;
    value := Mul(Quadratic(a, b, c, i, n), Linear(d, i, n, e));
    CubicLeading(a, b, c, d, e, i, n);
  }

  /** A quadratic times a linear factor in v leads with the product of their leading coefficients times v^3. */
  lemma CubicLeading(a: int, b: int, c: int, d: int, e: int, i: nat, n: nat)
    requires a != 0 && d != 0 && i < n
    ensures var p := Mul(Quadratic(a, b, c, i, n), Linear(d, i, n, e));
      Valid(p, n) && p != [] && p[0] == Term(a * d, Power(i, n, 3))
  {
    var f1, f2 := Quadratic(a, b, c, i, n), Linear(d, i, n, e);
    MulValid(f1, f2, n);
    QuadraticLeading(a, b, c, i, n);
    LinearLeading(d, i, n, e);
    MulLeading(f1, f2, n);
    PlacedSum(i, n, 2, 1);
  }

  /** The product of two bilinear factors in the same two variables leads with the first-ordered variable squared. */
  lemma BilinearProductLeading(a1: int, b1: int, c1: int, a2: int, b2: int, c2: int, i: nat, j: nat, n: nat)
    requires a1 > 0 && b1 > 0 && a2 > 0 && b2 > 0 && i < n && j < n && i != j
    ensures var p := Mul(Bilinear(a1, i, b1, j, c1, n), Bilinear(a2, i, b2, j, c2, n));
      Valid(p, n) && p != [] && p[0] == if i < j then Term(a1 * a2, Power(i, n, 2)) else Term(b1 * b2, Power(j, n, 2))
  {
    var f1, f2 := Bilinear(a1, i, b1, j, c1, n), Bilinear(a2, i, b2, j, c2, n);
    MulValid(f1, f2, n);
    BilinearLeading(a1, i, b1, j, c1, n);
    BilinearLeading(a2, i, b2, j, c2, n);
    MulLeading(f1, f2, n);
    PlacedSum(i, n, 1, 1);
    PlacedSum(j, n, 1, 1);
  }

  /** random.sample(list(variables), 2): two distinct positions. */
  method DistinctPair(r: Rng, n: nat) returns (v1: nat, v2: nat, r': Rng)
    requires n >= 2
    ensures v1 < n && v2 < n && v1 != v2
    ensures Left(r') <= Left(r)
  {
    var s := Sample(r, Indices(n), 2);
    SampledPair(n, s.0);
    v1, v2, r' := s.0[0], s.0[1], s.1;
  }

  /**
   * multi_var_quadratic: (a1 v1 + b1 v2 + c1)(a2 v1 + b2 v2 + c2) over two
   * distinct sampled variables, slopes in [1, 4] and constants in [-5, 5].
   */
  method MultiVarQuadraticOf(r: Rng, n: nat)
    returns (value: Poly, r': Rng, v1: nat, v2: nat, a1: int, b1: int, c1: int, a2: int, b2: int, c2: int)
    requires n >= 2
    ensures v1 < n && v2 < n && v1 != v2
    ensures 1 <= a1 <= 4 && 1 <= b1 <= 4 && 1 <= a2 <= 4 && 1 <= b2 <= 4 && -5 <= c1 <= 5 && -5 <= c2 <= 5
    ensures value == Mul(Bilinear(a1, v1, b1, v2, c1, n), Bilinear(a2, v1, b2, v2, c2, n))
    ensures Valid(value, n) && value != []
    ensures value[0] == if v1 < v2 then Term(a1 * a2, Power(v1, n, 2)) else Term(b1 * b2, Power(v2, n, 2))
    ensures Left(r') <= Left(r)
  {
    var r0;
    v1, v2, r0 := DistinctPair(r, n);
    var da1 := RandInt(r0, 1, 4);
    var db1 := RandInt(da1.1, 1, 4);
    var da2 := RandInt(db1.1, 1, 4);
    var db2 := RandInt(da2.1, 1, 4);
    var dc1 := RandInt(db2.1, -5, 5);
    var dc2 := RandInt(dc1.1, -5, 5);
    r' := dc2.1;
    a1, b1, c1, a2, b2, c2 := da1.0, db1.0, dc1.0, da2.0, db2.0, dc2.0;
    value := Mul(Bilinear(a1, v1, b1, v2, c1, n), Bilinear(a2, v1, b2, v2, c2, n));
    BilinearProductLeading(a1, b1, c1, a2, b2, c2, v1, v2, n);
  }

  /** (a v + c) v + (b v + d) v, expanded. */
  function GroupingSum(a: int, b: int, c: int, d: int, i: nat, n: nat): Poly
    requires i < n
  {
    var v := VarPower(1, i, n, 1);
    Add(Mul(Linear(a, i, n, c), v), Mul(Linear(b, i, n, d), v))
  }

  /** The grouping sum is canonical and led by (a + b) v^2. */
  lemma GroupingLeading(a: int, b: int, c: int, d: int, i: nat, n: nat)
    requires a > 0 && b > 0 && i < n
    ensures var g := GroupingSum(a, b, c, d, i, n);
      Valid(g, n) && g != [] && g[0] == Term(a + b, Power(i, n, 2))
  {
    var v := VarPower(1, i, n, 1);
    var l1, l2 := Linear(a, i, n, c), Linear(b, i, n, d);
    MulValid(l1, v, n);
    MulValid(l2, v, n);
    AddValid(Mul(l1, v), Mul(l2, v), n);
    LinearLeading(a, i, n, c);
    LinearLeading(b, i, n, d);
    MulLeading(l1, v, n);
    MulLeading(l2, v, n);
    PlacedSum(i, n, 1, 1);
    AddHeadEqual(Mul(l1, v), Mul(l2, v));
  }

  /** grouping: (a v + c) v + (b v + d) v with a, b in [1, 5] and c, d in [-6, 6]. */
  method GroupingOf(r: Rng, n: nat) returns (value: Poly, r': Rng, i: nat, a: int, b: int, c: int, d: int)
    requires n >= 1
    ensures i < n && 1 <= a <= 5 && 1 <= b <= 5 && -6 <= c <= 6 && -6 <= d <= 6
    ensures value == GroupingSum(a, b, c, d, i, n)
    ensures Valid(value, n) && value != [] && value[0] == Term(a + b, Power(i, n, 2))
    ensures Left(r') <= Left(r)
  {
    var dv := RandInt(r, 0, n - 1);
    var da := RandInt(dv.1, 1, 5);
    var db := RandInt(da.1, 1, 5);
    var dc := RandInt(db.1, -6, 6);
    var dd := RandInt(dc.1, -6, 6);
    i, r', a, b, c, d := dv.0, dd.1, da.0, db.0, dc.0, dd.0;
    value := GroupingSum(a, b, c, d, i, n);
    GroupingLeading(a, b, c, d, i, n);
  }

  /**
   * build_factorization_expression: a pattern from the tier's list, then its
   * polynomial, shown bare.  multi_var_quadratic with a single variable
   * falls through to grouping.  The answer is never zero.
   */
  method BuildFactorization(r: Rng, vars: seq<nat>, tier: Tier)
    returns (b: Built, r': Rng, ghost pattern: Pattern)
    requires VarsFit(vars)
    ensures pattern in Patterns(tier)
    ensures pattern == MultiVarQuadratic ==> |vars| >= 2
    ensures Valid(b.value, |vars|) && b.value != []
    ensures b.text == Render(b.value, vars)
    ensures Left(r') <= Left(r)
  {
    var n := |vars|;
    var c := Choice(r, Patterns(tier));
    pattern := c.0;
    var value: Poly;
    match c.0 {
    case Square =>
      var i, s, t;
      value, r', i, s, t := SquareOf(c.1, n);
    case QuadraticPair =>
      var i, p, q, m, k;
      value, r', i, p, q, m, k := QuadraticOf(c.1, n);
    case DiffSquare =>
      ghost var i1, i2, a, b;
      value, r', i1, i2, a, b := DiffSquareOf(c.1, n);
    case QuadraticTimesLinear =>
      var i, s, t, u, w, z;
      value, r', i, s, t, u, w, z := QuadraticTimesLinearOf(c.1, n);
    case MultiVarQuadratic =>
      if n >= 2 {
        var v1, v2, a1, b1, c1, a2, b2, c2;
        value, r', v1, v2, a1, b1, c1, a2, b2, c2 := MultiVarQuadraticOf(c.1, n);
      } else {
        var i, s, t, u, w;
        value, r', i, s, t, u, w := GroupingOf(c.1, n);
        pattern := Grouping;
      }
    case Grouping =>
      var i, s, t, u, w;
      value, r', i, s, t, u, w := GroupingOf(c.1, n);
    }
    var text := Humanize(value, vars);
    b := Built(text, value);
  }
}
