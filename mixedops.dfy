/**
 * build_mixed_ops_expression: a row of three segments mixing sums,
 * products and exact quotients (add_mul, div_add, and multi_div_add when
 * there is more than one variable).  A zero divisor restarts the whole
 * builder, which is a recursive call in Python.
 *
 * Two of the rows as written do not read as the value returned with them:
 * add_mul prints a negative part's sign twice, and div_add and
 * multi_div_add print a bare polynomial after " - ", where the minus
 * reaches its leading term only.  Both are modelled as written beside the
 * corrected rows, which are the ones the builder uses.
 */
module MixedOps {
  import opened Polynomials
  import opened Draws
  import opened Rendering
  import opened Display
  import opened Synth
  import opened Levels

  datatype Pattern = AddMul | DivAdd | MultiDivAdd

  /** The patterns on offer; multi_div_add needs a second variable. */
  function Patterns(n: nat): (ps: seq<Pattern>)
    ensures AddMul in ps && DivAdd in ps
    ensures MultiDivAdd in ps <==> n != 1
  {
    if n == 1 then [AddMul, DivAdd] else [AddMul, DivAdd, MultiDivAdd]
  }

  // ---------------------------------------------------------------------
  // How a row is read
  // ---------------------------------------------------------------------

  /**
   * What a reader takes one segment to add.  A minus sign before a
   * parenthesised piece, a product or a quotient negates all of it; before
   * a bare polynomial "a + b + ..." it negates the leading term a only.
   */
  function ReadSegment(s: Segment, value: Poly): Poly
  {
    if s.sign == -1 && s.piece.Bare? && s.piece.p != [] then Add(Signed(-1, s.piece.p[..1]), s.piece.p[1..])
    else Signed(s.sign, value)
  }

  /** The value a reader takes the whole row to have. */
  function ReadSum(segs: seq<Segment>, values: seq<Poly>): Poly
    requires |values| == |segs|
  {
    if segs == [] then []
    else Add(ReadSum(segs[..|segs| - 1], values[..|segs| - 1]), ReadSegment(segs[|segs| - 1], values[|segs| - 1]))
  }

  /** No bare polynomial follows a minus sign. */
  predicate NoBareAfterMinus(segs: seq<Segment>)
  {
    forall i :: 0 <= i < |segs| && segs[i].sign == -1 ==> !segs[i].piece.Bare?
  }

  /** A row with no bare polynomial after a minus reads as the signed sum it shows. */
  lemma {:induction false} ReadAsShown(segs: seq<Segment>, values: seq<Poly>)
    requires |values| == |segs| && NoBareAfterMinus(segs)
    ensures ReadSum(segs, values) == SignedSum(segs, values)
  {
    if segs != [] {
      var k := |segs| - 1;
      assert NoBareAfterMinus(segs[..k]);
      ReadAsShown(segs[..k], values[..k]);
    }
  }

  /** A three-segment row as read, at a point. */
  lemma ReadThreeEval(a: Segment, b: Segment, c: Segment, va: Poly, vb: Poly, vc: Poly, pt: seq<int>)
    ensures Eval(ReadSum([a, b, c], [va, vb, vc]), pt)
      == Eval(ReadSegment(a, va), pt) + Eval(ReadSegment(b, vb), pt) + Eval(ReadSegment(c, vc), pt)
  {
    assert [a, b, c][..2] == [a, b] && [a, b][..1] == [a] && [a][..0] == [];
    assert [va, vb, vc][..2] == [va, vb] && [va, vb][..1] == [va] && [va][..0] == [];
    assert ReadSum([a], [va]) == Add([], ReadSegment(a, va));
    assert ReadSum([a, b], [va, vb]) == Add(ReadSum([a], [va]), ReadSegment(b, vb));
    assert ReadSum([a, b, c], [va, vb, vc]) == Add(ReadSum([a, b], [va, vb]), ReadSegment(c, vc));
    AddEval([], ReadSegment(a, va), pt);
    AddEval(ReadSum([a], [va]), ReadSegment(b, vb), pt);
    AddEval(ReadSum([a, b], [va, vb]), ReadSegment(c, vc), pt);
  }

  /** A three-segment row as shown, at a point. */
  lemma ShowThreeEval(a: Segment, b: Segment, c: Segment, va: Poly, vb: Poly, vc: Poly, pt: seq<int>)
    ensures Eval(SignedSum([a, b, c], [va, vb, vc]), pt)
      == Eval(Signed(a.sign, va), pt) + Eval(Signed(b.sign, vb), pt) + Eval(Signed(c.sign, vc), pt)
  {
    assert [a, b, c][..2] == [a, b] && [a, b][..1] == [a] && [a][..0] == [];
    assert [va, vb, vc][..2] == [va, vb] && [va, vb][..1] == [va] && [va][..0] == [];
    assert SignedSum([a], [va]) == Add([], Signed(a.sign, va));
    assert SignedSum([a, b], [va, vb]) == Add(SignedSum([a], [va]), Signed(b.sign, vb));
    assert SignedSum([a, b, c], [va, vb, vc]) == Add(SignedSum([a, b], [va, vb]), Signed(c.sign, vc));
    AddEval([], Signed(a.sign, va), pt);
    AddEval(SignedSum([a], [va]), Signed(b.sign, vb), pt);
    AddEval(SignedSum([a, b], [va, vb]), Signed(c.sign, vc), pt);
  }

  /** x + 1 in one variable, and in the first of two. */
  const XPlusOne: Poly := [Term(1, [1]), Term(1, [0])]
  const XPlusOneOfTwo: Poly := [Term(1, [1, 0]), Term(1, [0, 0])]

  /** Before a bare x + 1, a minus sign read as it is printed gives -x + 1, not -(x + 1). */
  lemma BareMinusMisread(p: Poly, pt: seq<int>)
    requires p == XPlusOne || p == XPlusOneOfTwo
    ensures Eval(ReadSegment(Segment(-1, Bare(p)), p), pt) == Eval(Signed(-1, p), pt) + 2
  {
    var head, tail := p[..1], p[1..];
    assert tail == [p[1]] && p[1].exps == Zeros(|p[1].exps|);
    ZerosEval(|p[1].exps|, pt);
    assert Eval(tail, pt) == 1;
    assert Eval(p, pt) == Eval(head, pt) + Eval(tail, pt);
    AddEval(Signed(-1, head), tail, pt);
    ScaleEval(-1, head, pt);
    ScaleEval(-1, p, pt);
  }

  // ---------------------------------------------------------------------
  // Rows
  // ---------------------------------------------------------------------

  /**
   * add_mul as written: the parts are [p1, s1 * m * p2, s2 * p3], each
   * printed in parentheses after the prefix of its own sign.
   */
  function AddMulRowAsWritten(p1: Poly, mp2: Poly, p3: Poly, s1: int, s2: int): seq<Segment>
  {
    [Segment(1, Group(p1)), Segment(s1, Group(Signed(s1, mp2))), Segment(s2, Group(Signed(s2, p3)))]
  }

  /** sum(parts): the value add_mul returns. */
  function AddMulValue(p1: Poly, mp2: Poly, p3: Poly, s1: int, s2: int): Poly
  {
    Add(Add(p1, Signed(s1, mp2)), Signed(s2, p3))
  }

  /** add_mul with each sign printed once, in the prefix. */
  function AddMulRow(p1: Poly, mp2: Poly, p3: Poly, s1: int, s2: int): seq<Segment>
  {
    [Segment(1, Group(p1)), Segment(s1, Group(mp2)), Segment(s2, Group(p3))]
  }

  /** A row of three segments, the first positive, shows its signed sum. */
  lemma ThreeShows(a: Segment, b: Segment, c: Segment, va: Poly, vb: Poly, vc: Poly, n: nat)
    requires PieceOk(a.piece, n) && PieceOk(b.piece, n) && PieceOk(c.piece, n)
    requires a.sign == -1 ==> !a.piece.Bare?
    requires b.sign == -1 ==> !b.piece.Bare?
    requires c.sign == -1 ==> !c.piece.Bare?
    requires Denotes(a.piece, va) && Denotes(b.piece, vb) && Denotes(c.piece, vc)
    requires a.sign == 1 && (b.sign == 1 || b.sign == -1) && (c.sign == 1 || c.sign == -1)
    ensures SegmentsOk([a, b, c], n) && NoBareAfterMinus([a, b, c])
    ensures Shows([a, b, c], [va, vb, vc], Add(Add(va, Signed(b.sign, vb)), Signed(c.sign, vc)))
  {
    assert [a, b, c][..2] == [a, b] && [a, b][..1] == [a] && [a][..0] == [];
    assert [va, vb, vc][..2] == [va, vb] && [va, vb][..1] == [va] && [va][..0] == [];
    assert SignedSum([a], [va]) == va;
    assert SignedSum([a, b], [va, vb]) == Add(va, Signed(b.sign, vb));
  }

  /** The corrected add_mul row shows sum(parts). */
  lemma AddMulRowShows(p1: Poly, mp2: Poly, p3: Poly, s1: int, s2: int, n: nat)
    requires Valid(p1, n) && Valid(mp2, n) && Valid(p3, n)
    requires (s1 == 1 || s1 == -1) && (s2 == 1 || s2 == -1)
    ensures var segs := AddMulRow(p1, mp2, p3, s1, s2);
      && SegmentsOk(segs, n) && NoBareAfterMinus(segs)
      && Shows(segs, [p1, mp2, p3], AddMulValue(p1, mp2, p3, s1, s2))
  {
    var segs, values := AddMulRow(p1, mp2, p3, s1, s2), [p1, mp2, p3];
    ThreeShows(segs[0], segs[1], segs[2], values[0], values[1], values[2], n);
  }

  /**
   * As written, the add_mul row shows p1 + m p2 + p3 whatever the signs:
   * a minus is printed in the prefix and again inside the part.
   */
  lemma AddMulAsWrittenShows(p1: Poly, mp2: Poly, p3: Poly, s1: int, s2: int, values: seq<Poly>, v: Poly, pt: seq<int>)
    requires (s1 == 1 || s1 == -1) && (s2 == 1 || s2 == -1)
    requires Shows(AddMulRowAsWritten(p1, mp2, p3, s1, s2), values, v)
    ensures Eval(v, pt) == Eval(p1, pt) + Eval(mp2, pt) + Eval(p3, pt)
  {
    var segs := AddMulRowAsWritten(p1, mp2, p3, s1, s2);
    assert Denotes(segs[0].piece, values[0]);
    assert Denotes(segs[1].piece, values[1]);
    assert Denotes(segs[2].piece, values[2]);
    assert values == [p1, Signed(s1, mp2), Signed(s2, p3)];
    var a, b, c := Eval(Signed(1, p1), pt), Eval(Signed(s1, Signed(s1, mp2)), pt), Eval(Signed(s2, Signed(s2, p3)), pt);
    assert segs == [segs[0], segs[1], segs[2]];
    ShowThreeEval(segs[0], segs[1], segs[2], p1, Signed(s1, mp2), Signed(s2, p3), pt);
    assert Eval(v, pt) == a + b + c;
    SignedTwice(s1, mp2, pt);
    SignedTwice(s2, p3, pt);
  }

  /** A sign applied twice cancels. */
  lemma SignedTwice(s: int, p: Poly, pt: seq<int>)
    requires s == 1 || s == -1
    ensures Eval(Signed(s, Signed(s, p)), pt) == Eval(p, pt)
  {
    SignedEval(s, p, pt);
    SignedEval(s, Signed(s, p), pt);
    if s == -1 {
      assert Eval(Signed(s, Signed(s, p)), pt) == -(-Eval(p, pt));
    }
  }

  /** sum(parts) at a point. */
  lemma AddMulValueEval(p1: Poly, mp2: Poly, p3: Poly, s1: int, s2: int, pt: seq<int>)
    requires (s1 == 1 || s1 == -1) && (s2 == 1 || s2 == -1)
    ensures Eval(AddMulValue(p1, mp2, p3, s1, s2), pt) == Eval(p1, pt) + s1 * Eval(mp2, pt) + s2 * Eval(p3, pt)
  {
    AddEval(Add(p1, Signed(s1, mp2)), Signed(s2, p3), pt);
    AddEval(p1, Signed(s1, mp2), pt);
    SignedEval(s1, mp2, pt);
    SignedEval(s2, p3, pt);
  }

  /**
   * p1 = x, m = 2x, p2 = x, p3 = x and signs (-1, 1): add_mul returns
   * x - 2x^2 + x, but its row "(x) - (- 2x^2) + (x)" shows x + 2x^2 + x.
   */
  lemma AddMulDoubleNegation()
    ensures var x, m := [Term(1, [1])], [Term(2, [1])];
      forall values, v :: Shows(AddMulRowAsWritten(x, Mul(m, x), x, -1, 1), values, v) ==>
        v != AddMulValue(x, Mul(m, x), x, -1, 1)
  {
    var x, m := [Term(1, [1])], [Term(2, [1])];
    var pt := [1];
    assert Eval(x, pt) == 1 && Eval(m, pt) == 2;
    MulEval(m, x, 1, pt);
    AddMulValueEval(x, Mul(m, x), x, -1, 1, pt);
    forall values, v | Shows(AddMulRowAsWritten(x, Mul(m, x), x, -1, 1), values, v)
      ensures v != AddMulValue(x, Mul(m, x), x, -1, 1)
    {
      AddMulAsWrittenShows(x, Mul(m, x), x, -1, 1, values, v, pt);
    }
  }

  /** div_add as written: the quotient, then p1 bare after its sign, then m(p2). */
  function DivAddRowAsWritten(d: Poly, v: Poly, p1: Poly, m: Poly, p2: Poly, s1: int, s2: int): seq<Segment>
  {
    [Segment(1, Quotient(d, v)), Segment(s1, Bare(p1)), Segment(s2, BareProduct(m, p2))]
  }

  /** div_add with p1 in parentheses after a minus and left bare after a plus. */
  function DivAddRow(d: Poly, v: Poly, p1: Poly, m: Poly, p2: Poly, s1: int, s2: int): seq<Segment>
  {
    [Segment(1, Quotient(d, v)), Segment(s1, if s1 == -1 then Group(p1) else Bare(p1)), Segment(s2, BareProduct(m, p2))]
  }

  /**
   * With p1 = x + 1 after a minus sign, the div_add row as written reads
   * 2 more than the value div_add returns, at every point.
   */
  lemma DivAddMisread(d: Poly, v: Poly, q: Poly, m: Poly, p2: Poly, s2: int, pt: seq<int>)
    ensures var segs, values := DivAddRowAsWritten(d, v, XPlusOne, m, p2, -1, s2), [q, XPlusOne, Mul(m, p2)];
      && Eval(ReadSum(segs, values), pt) == Eval(SignedSum(segs, values), pt) + 2
      && ReadSum(segs, values) != SignedSum(segs, values)
  {
    var segs := DivAddRowAsWritten(d, v, XPlusOne, m, p2, -1, s2);
    ReadThreeEval(segs[0], segs[1], segs[2], q, XPlusOne, Mul(m, p2), pt);
    ShowThreeEval(segs[0], segs[1], segs[2], q, XPlusOne, Mul(m, p2), pt);
    BareMinusMisread(XPlusOne, pt);
  }

  /** The corrected div_add row shows q + s1 p1 + s2 m p2. */
  lemma DivAddRowShows(d: Poly, v: Poly, q: Poly, p1: Poly, m: Poly, p2: Poly, s1: int, s2: int, n: nat)
    requires Valid(d, n) && Valid(v, n) && Valid(q, n) && Valid(p1, n) && Valid(m, n) && Valid(p2, n)
    requires Denotes(Quotient(d, v), q)
    requires (s1 == 1 || s1 == -1) && (s2 == 1 || s2 == -1)
    ensures var segs := DivAddRow(d, v, p1, m, p2, s1, s2);
      && SegmentsOk(segs, n) && NoBareAfterMinus(segs)
      && Shows(segs, [q, p1, Mul(m, p2)], Add(Add(q, Signed(s1, p1)), Signed(s2, Mul(m, p2))))
  {
    var segs, values := DivAddRow(d, v, p1, m, p2, s1, s2), [q, p1, Mul(m, p2)];
    ThreeShows(segs[0], segs[1], segs[2], values[0], values[1], values[2], n);
  }

  /** multi_div_add as written: two quotients, then p3 bare after its sign. */
  function MultiDivAddRowAsWritten(d1: Poly, v1: Poly, d2: Poly, v2: Poly, p3: Poly, s2: int, s3: int): seq<Segment>
  {
    [Segment(1, Quotient(d1, v1)), Segment(s2, Quotient(d2, v2)), Segment(s3, Bare(p3))]
  }

  /** multi_div_add with p3 in parentheses after a minus and left bare after a plus. */
  function MultiDivAddRow(d1: Poly, v1: Poly, d2: Poly, v2: Poly, p3: Poly, s2: int, s3: int): seq<Segment>
  {
    [Segment(1, Quotient(d1, v1)), Segment(s2, Quotient(d2, v2)), Segment(s3, if s3 == -1 then Group(p3) else Bare(p3))]
  }

  /** With p3 = x + 1 after a minus sign, the row as written reads 2 more than its value. */
  lemma MultiDivAddMisread(d1: Poly, v1: Poly, d2: Poly, v2: Poly, q1: Poly, q2: Poly, s2: int, pt: seq<int>)
    ensures var segs, values := MultiDivAddRowAsWritten(d1, v1, d2, v2, XPlusOneOfTwo, s2, -1), [q1, q2, XPlusOneOfTwo];
      && Eval(ReadSum(segs, values), pt) == Eval(SignedSum(segs, values), pt) + 2
      && ReadSum(segs, values) != SignedSum(segs, values)
  {
    var segs := MultiDivAddRowAsWritten(d1, v1, d2, v2, XPlusOneOfTwo, s2, -1);
    ReadThreeEval(segs[0], segs[1], segs[2], q1, q2, XPlusOneOfTwo, pt);
    ShowThreeEval(segs[0], segs[1], segs[2], q1, q2, XPlusOneOfTwo, pt);
    BareMinusMisread(XPlusOneOfTwo, pt);
  }

  /** The corrected multi_div_add row shows q1 + s2 q2 + s3 p3. */
  lemma MultiDivAddRowShows(d1: Poly, v1: Poly, q1: Poly, d2: Poly, v2: Poly, q2: Poly, p3: Poly, s2: int, s3: int, n: nat)
    requires Valid(d1, n) && Valid(v1, n) && Valid(q1, n) && Valid(d2, n) && Valid(v2, n) && Valid(q2, n) && Valid(p3, n)
    requires Denotes(Quotient(d1, v1), q1) && Denotes(Quotient(d2, v2), q2)
    requires (s2 == 1 || s2 == -1) && (s3 == 1 || s3 == -1)
    ensures var segs := MultiDivAddRow(d1, v1, d2, v2, p3, s2, s3);
      && SegmentsOk(segs, n) && NoBareAfterMinus(segs)
      && Shows(segs, [q1, q2, p3], Add(Add(q1, Signed(s2, q2)), Signed(s3, p3)))
  {
    var segs, values := MultiDivAddRow(d1, v1, d2, v2, p3, s2, s3), [q1, q2, p3];
    ThreeShows(segs[0], segs[1], segs[2], values[0], values[1], values[2], n);
  }

  // ---------------------------------------------------------------------
  // The builder
  // ---------------------------------------------------------------------

  /** A row the builder hands back: it shows value and reads as it shows. */
  ghost predicate RowOk(segs: seq<Segment>, values: seq<Poly>, value: Poly, n: nat)
  {
    && |segs| == 3 && SegmentsOk(segs, n) && NoBareAfterMinus(segs)
    && Shows(segs, values, value) && Valid(value, n)
  }

  /** a + s1 b + s2 c is canonical when a, b and c are. */
  lemma SumOfThreeValid(a: Poly, s1: int, b: Poly, s2: int, c: Poly, n: nat)
    requires Valid(a, n) && Valid(b, n) && Valid(c, n)
    ensures Valid(Add(Add(a, Signed(s1, b)), Signed(s2, c)), n)
  {
    SignedValid(s1, b, n);
    SignedValid(s2, c, n);
    AddValid(a, Signed(s1, b), n);
    AddValid(Add(a, Signed(s1, b)), Signed(s2, c), n);
  }

  /** random_polynomial(variables, degree) with the default bounds. */
  method RandomPoly(r: Rng, n: nat, degree: int) returns (p: Poly, r': Rng)
    requires n >= 1
    ensures Valid(p, n)
    ensures Left(r') <= Left(r)
  {
    ghost var drawn, early, tries;
    p, r', drawn, early, tries := RandomPolynomial(r, n, degree, -6, 6, 1);
  }

  /** random.choice(coeffs) * random.choice(variables): a monomial c v. */
  method Monomial(r: Rng, n: nat, coeffs: seq<int>) returns (m: Poly, r': Rng, ghost c: int, ghost i: nat)
    requires n >= 1 && |coeffs| >= 1
    ensures Valid(m, n)
    ensures c in coeffs && i < n && m == VarPower(c, i, n, 1)
    ensures Left(r') <= Left(r)
  {
    var mc := Choice(r, coeffs);
    var mv := RandInt(mc.1, 0, n - 1);
    c, i := mc.0, mv.0;
    m, r' := VarPower(mc.0, mv.0, n, 1), mv.1;
  }

  /** add_mul: p1 +/- m p2 +/- p3, with m = c v for c in {2, 3, 4}. */
  method AddMulParts(r: Rng, n: nat) returns (segs: seq<Segment>, values: seq<Poly>, value: Poly, r': Rng)
    requires n >= 1
    ensures RowOk(segs, values, value, n)
    ensures segs == AddMulRow(values[0], values[1], values[2], segs[1].sign, segs[2].sign)
    ensures value == AddMulValue(values[0], values[1], values[2], segs[1].sign, segs[2].sign)
    ensures Left(r') <= Left(r)
  {
    var d1 := Choice(r, [1, 2]);
    var p1, m, p2, p3;
    ghost var c, i;
    p1, r' := RandomPoly(d1.1, n, d1.0);
    m, r', c, i := Monomial(r', n, [2, 3, 4]);
    var d2 := Choice(r', [1, 2]);
    p2, r' := RandomPoly(d2.1, n, d2.0);
    p3, r' := RandomPoly(r', n, 1);
    var s1, s2;
    s1, r' := Sign(r').0, Sign(r').1;
    s2, r' := Sign(r').0, Sign(r').1;
    var mp2 := Mul(m, p2);
    MulValid(m, p2, n);
    segs, values, value := AddMulRow(p1, mp2, p3, s1, s2), [p1, mp2, p3], AddMulValue(p1, mp2, p3, s1, s2);
    AddMulRowShows(p1, mp2, p3, s1, s2, n);
    SumOfThreeValid(p1, s1, mp2, s2, p3, n);
  }

  /**
   * random_polynomial((v,), 1) for variable i, lifted to all n variables:
   * zero, or a non-zero multiple of v.
   */
  method Divisor(r: Rng, n: nat, i: nat) returns (v: Poly, r': Rng)
    requires i < n
    ensures Valid(v, n)
    ensures forall k :: 0 <= k < |v| ==> v[k].exps == Power(i, n, 1)
    ensures Left(r') <= Left(r)
  {
    var u;
    ghost var drawn, early, tries;
    u, r', drawn, early, tries := RandomPolynomial(r, 1, 1, -6, 6, 1);
    EmbedValid(u, i, n);
    v := Embed(u, i, n);
    forall k | 0 <= k < |v| ensures v[k].exps == Power(i, n, 1) {
      var e := u[k].exps;
      assert e == [e[0]] && e[1..] == [];
      assert Degree(e) == e[0] + Degree(e[1..]);
    }
  }

  /**
   * The exact quotient (divisor * q) / divisor with the divisor drawn in
   * variable i and q drawn by quotient; None when the divisor is zero.
   */
  method Fraction(r: Rng, n: nat, i: nat, inAll: bool)
    returns (piece: Option<(Piece, Poly)>, r': Rng, ghost divisor: Poly)
    requires i < n
    ensures piece.None? <==> divisor == []
    ensures piece.Some? ==> piece.value.0 == Quotient(Mul(divisor, piece.value.1), divisor)
    ensures piece.Some? ==> PieceOk(piece.value.0, n) && Denotes(piece.value.0, piece.value.1) && Valid(piece.value.1, n)
    ensures Left(r') <= Left(r)
  {
    var v;
    v, r' := Divisor(r, n, i);
    divisor := v;
    if v == [] {
      return None, r', divisor;
    }
    var q;
    if inAll {
      q, r' := RandomPoly(r', n, 1);
    } else {
      var deg := Choice(r', [1, 2]);
      var u;
      ghost var drawn, early, tries;
      u, r', drawn, early, tries := RandomPolynomial(deg.1, 1, deg.0, -6, 6, 1);
      EmbedValid(u, i, n);
      q := Embed(u, i, n);
    }
    MulValid(v, q, n);
    piece := Some((Quotient(Mul(v, q), v), q));
  }

  /**
   * div_add: (v q) / (v), then +/- p1, then +/- m(p2) with m = c w for c in
   * {2, 3}; v and q are in one variable.  None when v comes out zero.
   */
  method DivAddParts(r: Rng, n: nat) returns (row: Option<(seq<Segment>, seq<Poly>, Poly)>, r': Rng)
    requires n >= 1
    ensures row.Some? ==> RowOk(row.value.0, row.value.1, row.value.2, n) && row.value.0[0].piece.Quotient?
    ensures Left(r') <= Left(r)
  {
    var dv := RandInt(r, 0, n - 1);
    var f;
    ghost var divisor;
    f, r', divisor := Fraction(dv.1, n, dv.0, false);
    if f.None? {
      return None, r';
    }
    var (a, q) := f.value;
    var p1, m, p2, s1, s2;
    ghost var c, i;
    p1, r' := RandomPoly(r', n, 1);
    s1, r' := Sign(r').0, Sign(r').1;
    m, r', c, i := Monomial(r', n, [2, 3]);
    p2, r' := RandomPoly(r', n, 1);
    s2, r' := Sign(r').0, Sign(r').1;
    MulValid(m, p2, n);
    DivAddRowShows(a.dividend, a.divisor, q, p1, m, p2, s1, s2, n);
    SumOfThreeValid(q, s1, p1, s2, Mul(m, p2), n);
    var value := Add(Add(q, Signed(s1, p1)), Signed(s2, Mul(m, p2)));
    row := Some((DivAddRow(a.dividend, a.divisor, p1, m, p2, s1, s2), [q, p1, Mul(m, p2)], value));
  }

  /**
   * multi_div_add: (v1 q1) / (v1) +/- (v2 q2) / (v2) +/- p3, the divisors
   * in two different variables and the quotients in all of them.  None
   * when a divisor comes out zero.
   */
  method MultiDivAddParts(r: Rng, n: nat) returns (row: Option<(seq<Segment>, seq<Poly>, Poly)>, r': Rng)
    requires n >= 2
    ensures row.Some? ==> RowOk(row.value.0, row.value.1, row.value.2, n) && row.value.0[0].piece.Quotient?
    ensures Left(r') <= Left(r)
  {
    var d1 := RandInt(r, 0, n - 1);
    var f1, f2;
    ghost var v1, v2;
    f1, r', v1 := Fraction(d1.1, n, d1.0, true);
    if f1.None? {
      return None, r';
    }
    var d2 := Choice(r', Others(n, d1.0));
    f2, r', v2 := Fraction(d2.1, n, d2.0, true);
    if f2.None? {
      return None, r';
    }
    var s2, s3, p3;
    s2, r' := Sign(r').0, Sign(r').1;
    p3, r' := RandomPoly(r', n, 1);
    s3, r' := Sign(r').0, Sign(r').1;
    var (a, q1) := f1.value;
    var (b, q2) := f2.value;
    MultiDivAddRowShows(a.dividend, a.divisor, q1, b.dividend, b.divisor, q2, p3, s2, s3, n);
    SumOfThreeValid(q1, s2, q2, s3, p3, n);
    var value := Add(Add(q1, Signed(s2, q2)), Signed(s3, p3));
    row := Some((MultiDivAddRow(a.dividend, a.divisor, b.dividend, b.divisor, p3, s2, s3), [q1, q2, p3], value));
  }

  /** "".join(text_segments): each segment's prefix and piece text, in order. */
  method RowText(segs: seq<Segment>, vars: seq<nat>) returns (text: string)
    requires SegmentsOk(segs, |vars|) && VarsOk(vars)
    ensures text == SegmentsText(segs, vars)
  {
    text := "";
    var i := 0;
    while i < |segs|
      invariant 0 <= i <= |segs|
      invariant SegmentsOk(segs[..i], |vars|)
      invariant text == SegmentsText(segs[..i], vars)
    {
      var piece := ShowPiece(segs[i].piece, vars);
      TextStep(segs, i, vars);
      text := text + Prefix(i == 0, segs[i].sign) + piece;
      i := i + 1;
    }
    assert segs[..i] == segs;
  }

  lemma TextStep(segs: seq<Segment>, i: nat, vars: seq<nat>)
    requires SegmentsOk(segs, |vars|) && VarsOk(vars) && i < |segs|
    ensures SegmentsOk(segs[..i], |vars|) && SegmentsOk(segs[..i + 1], |vars|)
    ensures SegmentsText(segs[..i + 1], vars) == SegmentsText(segs[..i], vars) + Prefix(i == 0, segs[i].sign) + PieceText(segs[i].piece, vars)
  {
    var upto := segs[..i + 1];
    assert |upto| == i + 1 && upto[..i] == segs[..i] && upto[i] == segs[i];
  }

  /** The removal of a leading "+ " after the final strip. */
  function DropPlus(s: string): string
  {
    if |s| >= 2 && s[..2] == "+ " then s[2..] else s
  }

  /** A row that starts with a parenthesis loses nothing to the strip and the "+ " removal. */
  lemma FinishKeeps(segs: seq<Segment>, vars: seq<nat>)
    requires SegmentsOk(segs, |vars|) && VarsOk(vars) && segs != []
    requires segs[0].piece.Group? || segs[0].piece.Quotient?
    ensures DropPlus(Strip(SegmentsText(segs, vars))) == SegmentsText(segs, vars)
  {
    var t := SegmentsText(segs, vars);
    StripSegments(segs, vars);
    SegmentsTextEnds(segs, vars);
    FirstParen(segs[0].piece, vars);
    DropPlusKeeps(t);
  }

  lemma DropPlusKeeps(t: string)
    requires t != [] && t[0] != '+'
    ensures DropPlus(t) == t
  {
    if |t| >= 2 {
      assert t[..2][0] == t[0];
    }
  }

  lemma FirstParen(piece: Piece, vars: seq<nat>)
    requires PieceOk(piece, |vars|) && VarsOk(vars)
    requires piece.Group? || piece.Quotient?
    ensures var t := PieceText(piece, vars); t != [] && t[0] == '('
  {
    match piece
    case Group(p) => ParenEnds(p, vars);
    case Quotient(d, v) =>
      ParenEnds(d, vars);
      ParenEnds(v, vars);
      JoinEnds(Paren(d, vars), " / ", Paren(v, vars), PieceText(piece, vars));
  }

  /** The joined, stripped text of a row that starts with a parenthesis. */
  method Finish(segs: seq<Segment>, vars: seq<nat>) returns (text: string)
    requires SegmentsOk(segs, |vars|) && VarsOk(vars) && segs != []
    requires segs[0].piece.Group? || segs[0].piece.Quotient?
    ensures text == SegmentsText(segs, vars)
  {
    text := RowText(segs, vars);
    FinishKeeps(segs, vars);
    text := DropPlus(Strip(text));
  }

  /** One pattern's row, or None when a divisor came out zero. */
  method PatternParts(r: Rng, n: nat, pattern: Pattern) returns (row: Option<(seq<Segment>, seq<Poly>, Poly)>, r': Rng)
    requires n >= 1 && pattern in Patterns(n)
    ensures row.Some? ==> RowOk(row.value.0, row.value.1, row.value.2, n)
    ensures row.Some? ==> row.value.0[0].piece.Group? || row.value.0[0].piece.Quotient?
    ensures pattern == AddMul ==> row.Some?
    ensures Left(r') <= Left(r)
  {
    match pattern {
      case AddMul =>
        var s, v, value;
        s, v, value, r' := AddMulParts(r, n);
        row := Some((s, v, value));
      case DivAdd =>
        row, r' := DivAddParts(r, n);
      case MultiDivAdd =>
        row, r' := MultiDivAddParts(r, n);
    }
  }

  /**
   * build_mixed_ops_expression for the variables vars, with depth calls
   * left before Python's recursion limit.  A zero divisor restarts the
   * builder from the pattern choice.
   */
  method BuildMixedOps(r: Rng, vars: seq<nat>, depth: nat)
    returns (res: Result<Built>, r': Rng, ghost pattern: Pattern, ghost segs: seq<Segment>, ghost values: seq<Poly>)
    requires VarsFit(vars)
    ensures res.Err? ==> res.error == RecursionLimit
    ensures res.Ok? ==> pattern in Patterns(|vars|) && RowOk(segs, values, res.value.value, |vars|)
    ensures res.Ok? ==> res.value.text == SegmentsText(segs, vars)
    ensures res.Ok? ==> ReadSum(segs, values) == res.value.value
    ensures Left(r') <= Left(r)
    decreases depth
  {
    if depth == 0 {
      return Err(RecursionLimit), r, AddMul, [], [];
    }
    var pc := Choice(r, Patterns(|vars|));
    pattern := pc.0;
    var row;
    row, r' := PatternParts(pc.1, |vars|, pc.0);
    if row.None? {
      res, r', pattern, segs, values := BuildMixedOps(r', vars, depth - 1);
      return;
    }
    segs, values := row.value.0, row.value.1;
    var text := Finish(row.value.0, vars);
    ReadAsShown(segs, values);
    res := Ok(Built(text, row.value.2));
  }
}
