/**
 * build_mul_div_expression: one of three multiplication or division
 * problems, each built so that the answer is again a polynomial.
 */
module MulDiv {
  import opened Polynomials
  import opened Draws
  import opened Rendering
  import opened Display
  import opened Synth
  import opened Levels

  /**
   * binomial_product: (a1 v + b1)(a2 v + b2) in one variable v, with a zero
   * slope replaced by 1 in the first factor and by -1 in the second, so
   * both factors are linear and the product leads with a1 a2 v^2.
   */
  method BinomialProduct(r: Rng, vars: seq<nat>)
    returns (b: Built, r': Rng, i: nat, a1: int, b1: int, a2: int, b2: int)
    requires VarsFit(vars)
    ensures i < |vars|
    ensures a1 != 0 && a2 != 0 && -5 <= a1 <= 5 && -5 <= b1 <= 5 && -5 <= a2 <= 5 && -5 <= b2 <= 5
    ensures var f1, f2 := Linear(a1, i, |vars|, b1), Linear(a2, i, |vars|, b2);
      && b.text == PieceText(Product(f1, f2), vars) && b.value == Mul(f1, f2)
      && b.value != [] && b.value[0] == Term(a1 * a2, Power(i, |vars|, 2))
    ensures Left(r') <= Left(r)
  {
    var n := |vars|;
    var d := RandInt(r, 0, n - 1);
    i := d.0;
    var d1 := RandInt(d.1, -5, 5);
    var d2 := RandInt(d1.1, -5, 5);
    var d3 := RandInt(d2.1, -5, 5);
    var d4 := RandInt(d3.1, -5, 5);
    r' := d4.1;
    a1, b1, a2, b2 := d1.0, d2.0, d3.0, d4.0;
    if a1 == 0 { a1 := 1; }
    if a2 == 0 { a2 := -1; }
    var f1 := Linear(a1, i, n, b1);
    var f2 := Linear(a2, i, n, b2);
    var t1 := Humanize(f1, vars);
    var t2 := Humanize(f2, vars);
    b := Built("(" + t1 + ")(" + t2 + ")", Mul(f1, f2));
    ProductText(f1, f2, vars, t1, t2);
    LinearProductLeading(a1, b1, a2, b2, i, n);
  }

  /** monomial_product: c v^k times a random polynomial of degree budget 2 or 3. */
  method MonomialProduct(r: Rng, vars: seq<nat>)
    returns (b: Built, r': Rng, i: nat, c: int, k: nat, poly: Poly)
    requires VarsFit(vars)
    ensures i < |vars| && 2 <= c <= 6 && 1 <= k <= 3 && Valid(poly, |vars|)
    ensures var mono := VarPower(c, i, |vars|, k);
      b.text == PieceText(Product(mono, poly), vars) && b.value == Mul(mono, poly)
    ensures Left(r') <= Left(r)
  {
    var n := |vars|;
    var d := RandInt(r, 0, n - 1);
    i := d.0;
    var dc := RandInt(d.1, 2, 6);
    var dk := RandInt(dc.1, 1, 3);
    c, k := dc.0, dk.0;
    var mono := VarPower(c, i, n, k);
    var deg := Choice(dk.1, [2, 3]);
    ghost var drawn, early, tries;
    poly, r', drawn, early, tries := RandomPolynomial(deg.1, n, deg.0, -6, 6, 1);
    var t1 := Humanize(mono, vars);
    var t2 := Humanize(poly, vars);
    b := Built("(" + t1 + ")(" + t2 + ")", Mul(mono, poly));
    ProductText(mono, poly, vars, t1, t2);
  }

  /**
   * polynomial_division: divisor and quotient are random polynomials in
   * one variable v, and the dividend is their product, all rendered in v
   * alone.  The answer is the quotient; a zero divisor (possible when all
   * twenty attempts of the divisor come out zero) makes 0 / 0, which is
   * not a polynomial.
   */
  method PolynomialDivision(r: Rng, vars: seq<nat>)
    returns (res: Result<Built>, r': Rng, i: nat, ghost dividend: Poly, ghost divisor: Poly)
    requires VarsFit(vars)
    ensures i < |vars| && Valid(dividend, |vars|) && Valid(divisor, |vars|)
    ensures res.Err? <==> divisor == []
    ensures res.Err? ==> res.error == NotAPolynomial
    ensures res.Ok? ==>
      && Denotes(Quotient(dividend, divisor), res.value.value)
      && Valid(res.value.value, |vars|)
      && res.value.text == PieceText(Quotient(dividend, divisor), vars)
    ensures forall k :: 0 <= k < |divisor| ==> divisor[k].exps == Power(i, |vars|, 1)
    ensures Left(r') <= Left(r)
  {
    var n := |vars|;
    var d := RandInt(r, 0, n - 1);
    i := d.0;
    var one := [vars[i]];
    var v1, r1;
    ghost var drawn1, early1, tries1;
    v1, r1, drawn1, early1, tries1 := RandomPolynomial(d.1, 1, 1, -6, 6, 1);
    var deg := Choice(r1, [1, 2]);
    var q1, r2;
    ghost var drawn2, early2, tries2;
    q1, r2, drawn2, early2, tries2 := RandomPolynomial(deg.1, 1, deg.0, -6, 6, 1);
    r' := r2;
    var d1 := Mul(v1, q1);
    MulValid(v1, q1, 1);
    var t1 := Humanize(d1, one);
    var t2 := Humanize(v1, one);
    var text := "(" + t1 + ") / (" + t2 + ")";
    dividend, divisor := Embed(d1, i, n), Embed(v1, i, n);
    assert Valid(dividend, n) && Valid(divisor, n) && Valid(Embed(q1, i, n), n)
      && dividend == Mul(divisor, Embed(q1, i, n))
      && text == PieceText(Quotient(dividend, divisor), vars) by {
      DivisionLifted(v1, q1, i, vars);
      QuotientText(dividend, divisor, vars, t1, t2);
    }
    assert forall k :: 0 <= k < |divisor| ==> divisor[k].exps == Power(i, n, 1) by {
      UnitDivisor(v1, i, n);
    }
    if v1 == [] {
      res := Err(NotAPolynomial);
    } else {
      res := Ok(Built(text, Embed(q1, i, n)));
    }
  }

  /**
   * Rendering in the one variable v is rendering the lifted polynomials in
   * all the variables, and the lifted dividend is the lifted divisor times
   * the lifted quotient.
   */
  lemma DivisionLifted(v: Poly, q: Poly, i: nat, vars: seq<nat>)
    requires Valid(v, 1) && Valid(q, 1) && i < |vars| && VarsOk(vars)
    ensures Valid(Mul(v, q), 1)
    ensures var n := |vars|;
      && Valid(Embed(v, i, n), n) && Valid(Embed(q, i, n), n) && Valid(Embed(Mul(v, q), i, n), n)
      && Embed(Mul(v, q), i, n) == Mul(Embed(v, i, n), Embed(q, i, n))
      && Render(Embed(Mul(v, q), i, n), vars) == Render(Mul(v, q), [vars[i]])
      && Render(Embed(v, i, n), vars) == Render(v, [vars[i]])
  {
    var n := |vars|;
    MulValid(v, q, 1);
    EmbedValid(v, i, n);
    EmbedValid(q, i, n);
    EmbedValid(Mul(v, q), i, n);
    EmbedMul(v, q, i, n);
    RenderEmbed(Mul(v, q), i, vars);
    RenderEmbed(v, i, vars);
  }

  /** A divisor drawn in one variable with degree budget 1 has only terms in v^1. */
  lemma UnitDivisor(v: Poly, i: nat, n: nat)
    requires Valid(v, 1) && i < n
    requires forall k :: 0 <= k < |v| ==> 1 <= Degree(v[k].exps) <= 1
    ensures forall k :: 0 <= k < |v| ==> Embed(v, i, n)[k].exps == Power(i, n, 1)
  {
    forall k | 0 <= k < |v| ensures Embed(v, i, n)[k].exps == Power(i, n, 1) {
      var e := v[k].exps;
      assert e == [e[0]] && e[1..] == [];
      assert Degree(e) == e[0] + Degree(e[1..]);
    }
  }

  /**
   * build_mul_div_expression: one of the three patterns, chosen at random.
   * A result is one displayed segment that denotes the answer.
   */
  method BuildMulDiv(r: Rng, vars: seq<nat>)
    returns (res: Result<Built>, r': Rng, ghost segs: seq<Segment>, ghost values: seq<Poly>)
    requires VarsFit(vars)
    ensures res.Err? ==> res.error == NotAPolynomial
    ensures res.Ok? ==>
      && |segs| == 1
      && SegmentsOk(segs, |vars|)
      && res.value.text == SegmentsText(segs, vars)
      && Shows(segs, values, res.value.value)
      && Valid(res.value.value, |vars|)
    ensures Left(r') <= Left(r)
  {
    var n := |vars|;
    var d := RandInt(r, 0, 2);
    ghost var piece: Piece;
    if d.0 == 0 {
      var b, r1, i, a1, b1, a2, b2 := BinomialProduct(d.1, vars);
      res, r' := Ok(b), r1;
      piece := Product(Linear(a1, i, n, b1), Linear(a2, i, n, b2));
      MulValid(Linear(a1, i, n, b1), Linear(a2, i, n, b2), n);
    } else if d.0 == 1 {
      var b, r1, i, c, k, poly := MonomialProduct(d.1, vars);
      res, r' := Ok(b), r1;
      piece := Product(VarPower(c, i, n, k), poly);
      MulValid(VarPower(c, i, n, k), poly, n);
    } else {
      ghost var dividend, divisor;
      var i;
      res, r', i, dividend, divisor := PolynomialDivision(d.1, vars);
      piece := Quotient(dividend, divisor);
    }
    segs := [Segment(1, piece)];
    if res.Ok? {
      values := [res.value.value];
      SingleSegment(piece, res.value.value, vars);
    } else {
      values := [];
    }
  }
}
