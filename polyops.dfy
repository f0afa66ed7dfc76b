/**
 * build_poly_ops_expression: a base polynomial in parentheses, then one of
 * the tier's patterns (a fraction and a product, two products, a nested
 * sum and a product, or two fractions), then a tail in parentheses.  Every
 * piece goes through _append, which adds sign * piece to the running
 * expression and pushes the prefixed text and LaTeX segments.
 */
module PolyOps {
  import opened Polynomials
  import opened Draws
  import opened Rendering
  import opened Display
  import opened Synth
  import opened Levels
  import opened Composing

  datatype Pattern = FracMul | DoubleMul | NestedMix | FractionDouble

  /** The patterns a tier draws from; fraction_double only above basic. */
  function Patterns(tier: Tier): (ps: seq<Pattern>)
    ensures FracMul in ps && DoubleMul in ps && NestedMix in ps
    ensures FractionDouble in ps <==> tier != Basic
  {
    if tier == Basic then [FracMul, DoubleMul, NestedMix] else [FracMul, DoubleMul, NestedMix, FractionDouble]
  }

  /** The coefficient bound of _poly: 6 at basic, 8 above. */
  function Bound(tier: Tier): int
  {
    if tier == Basic then 6 else 8
  }

  /** _poly(degree): random_polynomial with the tier's coefficient bound and at least two terms wanted. */
  method DrawPoly(r: Rng, n: nat, degree: int, tier: Tier) returns (p: Poly, r': Rng, ghost drawn: seq<Term>)
    requires n >= 1
    ensures Valid(p, n) && p == SumTerms(drawn) && |drawn| <= 4
    ensures forall i :: 0 <= i < |drawn| ==> TermOk(drawn[i], n, -Bound(tier), Bound(tier), degree)
    ensures Left(r') <= Left(r)
  {
    ghost var early, tries;
    p, r', drawn, early, tries := RandomPolynomial(r, n, degree, -Bound(tier), Bound(tier), 2);
  }

  /** randint(lo, hi) * random.choice(var_choices): a coefficient times one variable. */
  method DrawMonomial(r: Rng, n: nat, hi: int) returns (m: Poly, r': Rng, ghost c: int, ghost i: nat)
    requires n >= 1 && 2 <= hi
    ensures 2 <= c <= hi && i < n && m == VarPower(c, i, n, 1) && Valid(m, n)
    ensures Left(r') <= Left(r)
  {
    var dc := RandInt(r, 2, hi);
    var dv := RandInt(dc.1, 0, n - 1);
    c, i, r' := dc.0, dv.0, dv.1;
    m := VarPower(dc.0, dv.0, n, 1);
  }

  /**
   * A fraction over one variable v: the divisor is random_polynomial((v,), 1,
   * min_terms=1), or v itself when that comes out zero; the quotient is
   * random_polynomial((v,), d, min_terms=1) for d drawn from degrees; the
   * dividend is their product.  The piece shows dividend / divisor and
   * denotes the quotient.
   */
  method Fraction(r: Rng, n: nat, degrees: seq<int>)
    returns (piece: Piece, value: Poly, r': Rng, i: nat, ghost divisor: Poly)
    requires n >= 1 && |degrees| >= 1
    ensures i < n && Valid(divisor, 1) && divisor != []
    ensures piece == Quotient(Mul(Embed(divisor, i, n), value), Embed(divisor, i, n))
    ensures PieceOk(piece, n) && Denotes(piece, value) && Valid(value, n)
    ensures Left(r') <= Left(r)
  {
    var dv := RandInt(r, 0, n - 1);
    i := dv.0;
    var v, r1;
    ghost var drawn1, early1, tries1;
    v, r1, drawn1, early1, tries1 := RandomPolynomial(dv.1, 1, 1, -6, 6, 1);
    if v == [] {
      v := VarPower(1, 0, 1, 1);
    }
    var deg := degrees[0];
    if |degrees| > 1 {
      var d := Choice(r1, degrees);
      deg, r1 := d.0, d.1;
    }
    var q;
    ghost var drawn2, early2, tries2;
    q, r', drawn2, early2, tries2 := RandomPolynomial(r1, 1, deg, -6, 6, 1);
    divisor := v;
    var ev, eq := Embed(v, i, n), Embed(q, i, n);
    EmbedValid(v, i, n);
    EmbedValid(q, i, n);
    MulValid(ev, eq, n);
    value := eq;
    piece := Quotient(Mul(ev, eq), ev);
  }

  /** frac_mul: a fraction, then a monomial times a degree-2 polynomial. */
  method FracMulStep(c: Composer, r: Rng, vars: seq<nat>, tier: Tier)
    returns (r': Rng, ghost s1: Segment, ghost s2: Segment)
    requires Consistent(c, vars) && c.shown != [] && |vars| >= 1
    modifies c
    ensures Consistent(c, vars) && c.shown == old(c.shown) + [s1] + [s2]
    ensures Left(r') <= Left(r)
  {
    var n := |vars|;
    var frac, q, s;
    ghost var i, v;
    frac, q, r', i, v := Fraction(r, n, [1, 2]);
    s, r' := Sign(r').0, Sign(r').1;
    Push(c, q, frac, s, vars);
    s1 := Segment(s, frac);
    var mono, p;
    ghost var k, j;
    mono, r', k, j := DrawMonomial(r', n, 4);
    ghost var pTerms;
    p, r', pTerms := DrawPoly(r', n, 2, tier);
    MulValid(mono, p, n);
    s, r' := Sign(r').0, Sign(r').1;
    Push(c, Mul(mono, p), Product(mono, p), s, vars);
    s2 := Segment(s, Product(mono, p));
  }

  /** double_mul: two monomial-times-polynomial products. */
  method DoubleMulStep(c: Composer, r: Rng, vars: seq<nat>, tier: Tier)
    returns (r': Rng, ghost s1: Segment, ghost s2: Segment)
    requires Consistent(c, vars) && c.shown != [] && |vars| >= 1
    modifies c
    ensures Consistent(c, vars) && c.shown == old(c.shown) + [s1] + [s2]
    ensures Left(r') <= Left(r)
  {
    var n := |vars|;
    var mono1, mono2, p1, p2, s;
    ghost var k1, j1, k2, j2;
    mono1, r', k1, j1 := DrawMonomial(r, n, 5);
    mono2, r', k2, j2 := DrawMonomial(r', n, 4);
    ghost var p1Terms;
    p1, r', p1Terms := DrawPoly(r', n, 2, tier);
    ghost var p2Terms;
    p2, r', p2Terms := DrawPoly(r', n, 1, tier);
    MulValid(mono1, p1, n);
    MulValid(mono2, p2, n);
    s, r' := Sign(r').0, Sign(r').1;
    Push(c, Mul(mono1, p1), Product(mono1, p1), s, vars);
    s1 := Segment(s, Product(mono1, p1));
    s, r' := Sign(r').0, Sign(r').1;
    Push(c, Mul(mono2, p2), Product(mono2, p2), s, vars);
    s2 := Segment(s, Product(mono2, p2));
  }

  /** nested_mix: a sum of two polynomials in double parentheses, then a product. */
  method NestedMixStep(c: Composer, r: Rng, vars: seq<nat>, tier: Tier)
    returns (r': Rng, ghost s1: Segment, ghost s2: Segment)
    requires Consistent(c, vars) && c.shown != [] && |vars| >= 1
    modifies c
    ensures Consistent(c, vars) && c.shown == old(c.shown) + [s1] + [s2]
    ensures Left(r') <= Left(r)
  {
    var n := |vars|;
    var inner, outer, s;
    ghost var innerTerms;
    inner, r', innerTerms := DrawPoly(r, n, 1, tier);
    ghost var outerTerms;
    outer, r', outerTerms := DrawPoly(r', n, 2, tier);
    AddValid(inner, outer, n);
    s, r' := Sign(r').0, Sign(r').1;
    Push(c, Add(inner, outer), Nested(inner, outer), s, vars);
    s1 := Segment(s, Nested(inner, outer));
    var mono, bonus;
    ghost var k, j;
    mono, r', k, j := DrawMonomial(r', n, 4);
    ghost var bonusTerms;
    bonus, r', bonusTerms := DrawPoly(r', n, 2, tier);
    MulValid(mono, bonus, n);
    s, r' := Sign(r').0, Sign(r').1;
    Push(c, Mul(mono, bonus), Product(mono, bonus), s, vars);
    s2 := Segment(s, Product(mono, bonus));
  }

  /** fraction_double: two fractions, the second with a linear quotient. */
  method FractionDoubleStep(c: Composer, r: Rng, vars: seq<nat>)
    returns (r': Rng, ghost s1: Segment, ghost s2: Segment)
    requires Consistent(c, vars) && c.shown != [] && |vars| >= 1
    modifies c
    ensures Consistent(c, vars) && c.shown == old(c.shown) + [s1] + [s2]
    ensures Left(r') <= Left(r)
  {
    var n := |vars|;
    var frac1, q1, frac2, q2, s;
    ghost var i1, v1, i2, v2;
    frac1, q1, r', i1, v1 := Fraction(r, n, [1, 2]);
    s, r' := Sign(r').0, Sign(r').1;
    Push(c, q1, frac1, s, vars);
    s1 := Segment(s, frac1);
    frac2, q2, r', i2, v2 := Fraction(r', n, [1]);
    s, r' := Sign(r').0, Sign(r').1;
    Push(c, q2, frac2, s, vars);
    s2 := Segment(s, frac2);
  }

  /** The two middle segments the drawn pattern calls for. */
  method PatternStep(c: Composer, r: Rng, vars: seq<nat>, tier: Tier, pattern: Pattern)
   
    returns (r': Rng, ghost s1: Segment, ghost s2: Segment)
    requires Consistent(c, vars) && c.shown != [] && |vars| >= 1
    modifies c
    ensures Consistent(c, vars) && c.shown == old(c.shown) + [s1] + [s2]
    ensures Left(r') <= Left(r)
  {
    match pattern {
      case FracMul => r', s1, s2 := FracMulStep(c, r, vars, tier);
      case DoubleMul => r', s1, s2 := DoubleMulStep(c, r, vars, tier);
      case NestedMix => r', s1, s2 := NestedMixStep(c, r, vars, tier);
      case FractionDouble => r', s1, s2 := FractionDoubleStep(c, r, vars);
    }
  }

  /** The composer after the base polynomial, in parentheses, with a plus sign. */
  method Start(r: Rng, vars: seq<nat>, tier: Tier) returns (c: Composer, r': Rng)
    requires VarsFit(vars)
    ensures fresh(c)
    ensures Consistent(c, vars) && |c.shown| == 1 && c.shown[0].piece.Group?
    ensures Left(r') <= Left(r)
  {
    c := new Composer();
    var base;
    ghost var baseTerms;
    base, r', baseTerms := DrawPoly(r, |vars|, 2, tier);
    Push(c, base, Group(base), 1, vars);
  }

  /** The tail in parentheses with a random sign, then the joined, stripped text. */
  method Finish(c: Composer, r: Rng, vars: seq<nat>, tier: Tier)
    returns (b: Built, r': Rng, ghost segs: seq<Segment>, ghost values: seq<Poly>)
    requires Consistent(c, vars) && |c.shown| == 3 && c.shown[0].piece.Group? && |vars| >= 1
    modifies c
    ensures |segs| == 4 && segs[..3] == old(c.shown) && segs[3].piece.Group?
    ensures SegmentsOk(segs, |vars|) && Shows(segs, values, b.value)
    ensures b.text == SegmentsText(segs, vars)
    ensures Valid(b.value, |vars|)
    ensures Left(r') <= Left(r)
  {
    var tail, s;
    ghost var tailTerms;
    tail, r', tailTerms := DrawPoly(r, |vars|, 1, tier);
    s, r' := Sign(r').0, Sign(r').1;
    Push(c, tail, Group(tail), s, vars);
    segs, values := c.shown, c.parts;
    StripSegments(segs, vars);
    b := Built(Strip(Concat(c.segments)), c.expr);
  }

  /**
   * build_poly_ops_expression for the variables vars at a tier.  The row
   * has exactly four segments, the first positive; the text is the row's
   * text and the answer is what the row stands for.
   */
  method BuildPolyOps(r: Rng, vars: seq<nat>, tier: Tier)
    returns (b: Built, r': Rng, ghost pattern: Pattern, ghost segs: seq<Segment>, ghost values: seq<Poly>)
    requires VarsFit(vars)
    ensures pattern in Patterns(tier)
    ensures |segs| == 4 && segs[0].piece.Group? && segs[3].piece.Group?
    ensures SegmentsOk(segs, |vars|) && Shows(segs, values, b.value)
    ensures b.text == SegmentsText(segs, vars)
    ensures Valid(b.value, |vars|)
    ensures Left(r') <= Left(r)
  {
    var c;
    c, r' := Start(r, vars, tier);
    var pc := Choice(r', Patterns(tier));
    pattern, r' := pc.0, pc.1;
    ghost var s1, s2;
    r', s1, s2 := PatternStep(c, r', vars, tier, pc.0);
    b, r', segs, values := Finish(c, r', vars, tier);
  }
}
