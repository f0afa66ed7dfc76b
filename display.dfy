/**
 * The shape of a displayed problem.  Every builder shows its expression
 * as a row of segments: the first without a prefix, each later one after
 * " + " or " - " by its sign.  A segment shows one piece: a polynomial in
 * parentheses, a product of two parenthesised polynomials, a quotient
 * "(dividend) / (divisor)", a nested sum of two parenthesised polynomials,
 * or a bare polynomial (alone or before a parenthesised factor).  A piece
 * denotes a polynomial; the row denotes the signed sum of its pieces.
 */
module Display {
  import opened Polynomials
  import opened Rendering

  datatype Piece =
    | Group(p: Poly)
    | Product(m: Poly, p: Poly)
    | Quotient(dividend: Poly, divisor: Poly)
    | Nested(inner: Poly, outer: Poly)
    | Bare(p: Poly)
    | BareProduct(m: Poly, p: Poly)

  datatype Segment = Segment(sign: int, piece: Piece)

  /** What a builder hands back: the display text and the expanded polynomial. */
  datatype Built = Built(text: string, value: Poly)

  /** The problem's variables: one to three distinct names from the pool. */
  predicate VarsFit(vars: seq<nat>)
  {
    1 <= |vars| <= 3 && VarsOk(vars) && forall i, j :: 0 <= i < j < |vars| ==> vars[i] != vars[j]
  }

  /** All polynomials of the piece are canonical in n variables. */
  predicate PieceOk(piece: Piece, n: nat)
  {
    match piece
    case Group(p) => Valid(p, n)
    case Product(m, p) => Valid(m, n) && Valid(p, n)
    case Quotient(d, v) => Valid(d, n) && Valid(v, n)
    case Nested(i, o) => Valid(i, n) && Valid(o, n)
    case Bare(p) => Valid(p, n)
    case BareProduct(m, p) => Valid(m, n) && Valid(p, n)
  }

  predicate SegmentsOk(segs: seq<Segment>, n: nat)
  {
    forall i :: 0 <= i < |segs| ==> PieceOk(segs[i].piece, n)
  }

  function Paren(p: Poly, vars: seq<nat>): string
    requires Uniform(p, |vars|) && VarsOk(vars)
  {
    "(" + Render(p, vars) + ")"
  }

  /** The text of a piece, each polynomial in it rendered as humanize_expression does. */
  function PieceText(piece: Piece, vars: seq<nat>): string
    requires PieceOk(piece, |vars|) && VarsOk(vars)
  {
    match piece
    case Group(p) => Paren(p, vars)
    case Product(m, p) => Paren(m, vars) + Paren(p, vars)
    case Quotient(d, v) => Paren(d, vars) + " / " + Paren(v, vars)
    case Nested(i, o) => "((" + Render(i, vars) + ") + (" + Render(o, vars) + "))"
    case Bare(p) => Render(p, vars)
    case BareProduct(m, p) => Render(m, vars) + Paren(p, vars)
  }

  /** No prefix on the first segment; " + " or " - " by the sign on every later one. */
  function Prefix(first: bool, sign: int): string
  {
    if first then "" else if sign > 0 then " + " else " - "
  }

  /** The joined segment texts. */
  function SegmentsText(segs: seq<Segment>, vars: seq<nat>): string
    requires SegmentsOk(segs, |vars|) && VarsOk(vars)
  {
    if segs == [] then ""
    else
      var last := segs[|segs| - 1];
      SegmentsText(segs[..|segs| - 1], vars) + Prefix(|segs| == 1, last.sign) + PieceText(last.piece, vars)
  }

  /** What a piece means, given the polynomial it is claimed to show. */
  predicate Denotes(piece: Piece, value: Poly)
  {
    match piece
    case Group(p) => value == p
    case Product(m, p) => value == Mul(m, p)
    case Quotient(d, v) => v != [] && d == Mul(v, value)
    case Nested(i, o) => value == Add(i, o)
    case Bare(p) => value == p
    case BareProduct(m, p) => value == Mul(m, p)
  }

  /** value_1 sign_2 value_2 ..., folded from the left as expr += sign * piece. */
  function SignedSum(segs: seq<Segment>, values: seq<Poly>): Poly
    requires |values| == |segs|
  {
    if segs == [] then []
    else Add(SignedSum(segs[..|segs| - 1], values[..|segs| - 1]), Signed(segs[|segs| - 1].sign, values[|segs| - 1]))
  }

  /**
   * The displayed row stands for value: each piece denotes the polynomial
   * listed beside it, and value is their sum, each taken with the sign its
   * prefix shows.
   */
  predicate Shows(segs: seq<Segment>, values: seq<Poly>, value: Poly)
  {
    && |values| == |segs|
    && (forall i :: 0 <= i < |segs| ==> Denotes(segs[i].piece, values[i]))
    && (forall i :: 0 <= i < |segs| ==> segs[i].sign == 1 || segs[i].sign == -1)
    && (segs != [] ==> segs[0].sign == 1)
    && value == SignedSum(segs, values)
  }

  /** The text of a product piece, given the two renderings. */
  lemma ProductText(m: Poly, p: Poly, vars: seq<nat>, a: string, b: string)
    requires Uniform(m, |vars|) && Uniform(p, |vars|) && VarsOk(vars)
    requires a == Render(m, vars) && b == Render(p, vars)
    ensures Paren(m, vars) + Paren(p, vars) == "(" + a + ")(" + b + ")"
  {
    ParensJoined(a, b, Paren(m, vars), Paren(p, vars));
  }

  /** The text of a quotient piece, given the two renderings. */
  lemma QuotientText(d: Poly, v: Poly, vars: seq<nat>, a: string, b: string)
    requires Uniform(d, |vars|) && Uniform(v, |vars|) && VarsOk(vars)
    requires a == Render(d, vars) && b == Render(v, vars)
    ensures Paren(d, vars) + " / " + Paren(v, vars) == "(" + a + ") / (" + b + ")"
  {
    ParensJoined(a, b, Paren(d, vars), Paren(v, vars));
  }

  lemma ParensJoined(a: string, b: string, x: string, y: string)
    requires x == "(" + a + ")" && y == "(" + b + ")"
    ensures x + y == "(" + a + ")(" + b + ")"
    ensures x + " / " + y == "(" + a + ") / (" + b + ")"
  {
    assert x + y == "(" + a + ")" + ("(" + b + ")");
    assert x + " / " + y == "(" + a + ")" + " / " + ("(" + b + ")");
  }

  // ---------------------------------------------------------------------
  // Facts about the row
  // ---------------------------------------------------------------------

  /** A row of one positive segment shows what its piece denotes. */
  lemma SingleSegment(piece: Piece, value: Poly, vars: seq<nat>)
    requires PieceOk(piece, |vars|) && VarsOk(vars) && Denotes(piece, value)
    ensures var segs := [Segment(1, piece)];
      && SegmentsOk(segs, |vars|)
      && SegmentsText(segs, vars) == PieceText(piece, vars)
      && Shows(segs, [value], value)
  {
    SingleText(piece, vars);
    SingleShows(piece, value);
  }

  lemma SingleText(piece: Piece, vars: seq<nat>)
    requires PieceOk(piece, |vars|) && VarsOk(vars)
    ensures SegmentsOk([Segment(1, piece)], |vars|)
    ensures SegmentsText([Segment(1, piece)], vars) == PieceText(piece, vars)
  {
    var segs := [Segment(1, piece)];
    assert segs[..0] == [];
    assert SegmentsText(segs, vars) == "" + "" + PieceText(piece, vars);
  }

  lemma SingleShows(piece: Piece, value: Poly)
    requires Denotes(piece, value)
    ensures Shows([Segment(1, piece)], [value], value)
  {
    var segs, values := [Segment(1, piece)], [value];
    assert segs[..0] == [] && values[..0] == [];
    assert SignedSum(segs, values) == Add([], value);
  }

  lemma SignedSumSnoc(segs: seq<Segment>, values: seq<Poly>, s: Segment, v: Poly)
    requires |values| == |segs|
    ensures SignedSum(segs + [s], values + [v]) == Add(SignedSum(segs, values), Signed(s.sign, v))
  {
    assert (segs + [s])[..|segs|] == segs;
    assert (values + [v])[..|segs|] == values;
  }

  lemma SegmentsTextSnoc(segs: seq<Segment>, s: Segment, vars: seq<nat>)
    requires SegmentsOk(segs, |vars|) && PieceOk(s.piece, |vars|) && VarsOk(vars)
    ensures SegmentsOk(segs + [s], |vars|)
    ensures SegmentsText(segs + [s], vars) == SegmentsText(segs, vars) + Prefix(segs == [], s.sign) + PieceText(s.piece, vars)
  {
    assert (segs + [s])[..|segs|] == segs;
  }

  lemma SignedValid(sign: int, p: Poly, n: nat)
    requires Valid(p, n)
    ensures Valid(Signed(sign, p), n)
  {
    if sign != 1 { ScaleValid(sign, p, n); }
  }

  lemma SignedEval(sign: int, p: Poly, pt: seq<int>)
    requires sign == 1 || sign == -1
    ensures Eval(Signed(sign, p), pt) == sign * Eval(p, pt)
  {
    if sign != 1 { ScaleEval(sign, p, pt); }
  }

  /** The meaning of the row at a point: the signed sum of the pieces' values there. */
  function ValuesAt(segs: seq<Segment>, values: seq<Poly>, pt: seq<int>): int
    requires |values| == |segs|
  {
    if segs == [] then 0
    else ValuesAt(segs[..|segs| - 1], values[..|segs| - 1], pt) + segs[|segs| - 1].sign * Eval(values[|segs| - 1], pt)
  }

  lemma {:induction false} SignedSumEval(segs: seq<Segment>, values: seq<Poly>, pt: seq<int>)
    requires |values| == |segs|
    requires forall i :: 0 <= i < |segs| ==> segs[i].sign == 1 || segs[i].sign == -1
    ensures Eval(SignedSum(segs, values), pt) == ValuesAt(segs, values, pt)
  {
    if segs != [] {
      var k := |segs| - 1;
      SignedSumEval(segs[..k], values[..k], pt);
      AddEval(SignedSum(segs[..k], values[..k]), Signed(segs[k].sign, values[k]), pt);
      SignedEval(segs[k].sign, values[k], pt);
    }
  }

  /** A row of canonical values sums to a canonical value. */
  lemma {:induction false} SignedSumValid(segs: seq<Segment>, values: seq<Poly>, n: nat)
    requires |values| == |segs|
    requires forall i :: 0 <= i < |values| ==> Valid(values[i], n)
    ensures Valid(SignedSum(segs, values), n)
  {
    if segs != [] {
      var k := |segs| - 1;
      SignedSumValid(segs[..k], values[..k], n);
      SignedValid(segs[k].sign, values[k], n);
      AddValid(SignedSum(segs[..k], values[..k]), Signed(segs[k].sign, values[k]), n);
    }
  }

  /** A quotient piece denotes its quotient at every point where the divisor does not vanish. */
  lemma QuotientEval(d: Poly, v: Poly, q: Poly, n: nat, pt: seq<int>)
    requires Uniform(d, n) && Uniform(v, n) && Uniform(q, n)
    requires Denotes(Quotient(d, v), q)
    ensures Eval(d, pt) == Eval(v, pt) * Eval(q, pt)
  {
    MulEval(v, q, n, pt);
  }

  /** Every piece starts with '(' or with the first character of a rendering, and ends likewise. */
  lemma PieceEnds(piece: Piece, vars: seq<nat>)
    requires PieceOk(piece, |vars|) && VarsOk(vars)
    ensures var t := PieceText(piece, vars);
      t != [] && !IsSpace(t[0]) && !IsSpace(t[|t| - 1])
  {
    var t := PieceText(piece, vars);
    match piece
    case Group(p) =>
      ParenEnds(p, vars);
    case Product(m, p) =>
      ParenEnds(m, vars);
      ParenEnds(p, vars);
      JoinTwoEnds(Paren(m, vars), Paren(p, vars), t);
    case Quotient(d, v) =>
      ParenEnds(d, vars);
      ParenEnds(v, vars);
      JoinEnds(Paren(d, vars), " / ", Paren(v, vars), t);
    case Nested(i, o) =>
      JoinTwoEnds("((" + Render(i, vars) + ") + (" + Render(o, vars), "))", t);
    case Bare(p) =>
      RenderNoLeadingPlus(p, vars);
    case BareProduct(m, p) =>
      RenderNoLeadingPlus(m, vars);
      ParenEnds(p, vars);
      JoinTwoEnds(Render(m, vars), Paren(p, vars), t);
  }

  lemma ParenEnds(p: Poly, vars: seq<nat>)
    requires Uniform(p, |vars|) && VarsOk(vars)
    ensures var t := Paren(p, vars); t != [] && t[0] == '(' && t[|t| - 1] == ')'
  {
    JoinEnds("(", Render(p, vars), ")", Paren(p, vars));
  }

  lemma JoinTwoEnds(a: string, b: string, t: string)
    requires a != [] && b != [] && t == a + b
    ensures t[0] == a[0] && t[|t| - 1] == b[|b| - 1]
  {
  }

  lemma JoinEnds(init: string, mid: string, lt: string, t: string)
    requires init != [] && lt != [] && t == init + mid + lt
    ensures t[0] == init[0] && t[|t| - 1] == lt[|lt| - 1]
  {
  }

  /** The row's text begins with its first piece's first character and has no white space at either end. */
  lemma {:induction false} SegmentsTextEnds(segs: seq<Segment>, vars: seq<nat>)
    requires SegmentsOk(segs, |vars|) && VarsOk(vars) && segs != []
    ensures var t := SegmentsText(segs, vars);
      && t != [] && !IsSpace(t[0]) && !IsSpace(t[|t| - 1])
      && PieceText(segs[0].piece, vars) != []
      && t[0] == PieceText(segs[0].piece, vars)[0]
  {
    var k := |segs| - 1;
    var lt := PieceText(segs[k].piece, vars);
    PieceEnds(segs[k].piece, vars);
    if k == 0 {
      SegmentsTextSplit(segs, vars);
    } else {
      var init := SegmentsText(segs[..k], vars);
      SegmentsTextEnds(segs[..k], vars);
      SegmentsTextSplit(segs, vars);
      JoinEnds(init, Prefix(false, segs[k].sign), lt, SegmentsText(segs, vars));
    }
  }

  /** The row's text, split before its last piece. */
  lemma SegmentsTextSplit(segs: seq<Segment>, vars: seq<nat>)
    requires SegmentsOk(segs, |vars|) && VarsOk(vars) && segs != []
    ensures var k := |segs| - 1;
      && SegmentsOk(segs[..k], |vars|)
      && (k > 0 ==> segs[..k][0] == segs[0])
      && SegmentsText(segs, vars) ==
        (if k == 0 then PieceText(segs[k].piece, vars)
         else SegmentsText(segs[..k], vars) + Prefix(false, segs[k].sign) + PieceText(segs[k].piece, vars))
  {
    var k := |segs| - 1;
    if k == 0 {
      assert segs[..k] == [];
    }
  }

  lemma StripKeeps(s: string)
    requires s != [] && !IsSpace(s[0]) && !IsSpace(s[|s| - 1])
    ensures Strip(s) == s
  {
    StripRightKeeps(s);
  }

  /** The final strip of the joined text changes nothing. */
  lemma StripSegments(segs: seq<Segment>, vars: seq<nat>)
    requires SegmentsOk(segs, |vars|) && VarsOk(vars) && segs != []
    ensures Strip(SegmentsText(segs, vars)) == SegmentsText(segs, vars)
  {
    SegmentsTextEnds(segs, vars);
    StripKeeps(SegmentsText(segs, vars));
  }

  /** Appending a segment whose piece denotes v extends the row to the sum with sign * v. */
  lemma ShowsSnoc(segs: seq<Segment>, values: seq<Poly>, total: Poly, s: Segment, v: Poly, vars: seq<nat>)
    requires Shows(segs, values, total) && SegmentsOk(segs, |vars|) && VarsOk(vars)
    requires PieceOk(s.piece, |vars|) && Denotes(s.piece, v)
    requires s.sign == 1 || s.sign == -1
    requires segs == [] ==> s.sign == 1
    ensures Shows(segs + [s], values + [v], Add(total, Signed(s.sign, v)))
    ensures SegmentsOk(segs + [s], |vars|)
    ensures SegmentsText(segs + [s], vars) == SegmentsText(segs, vars) + Prefix(segs == [], s.sign) + PieceText(s.piece, vars)
  {
    SignedSumSnoc(segs, values, s, v);
    SegmentsTextSnoc(segs, s, vars);
    var segs', values' := segs + [s], values + [v];
    forall i | 0 <= i < |segs'| ensures Denotes(segs'[i].piece, values'[i]) && (segs'[i].sign == 1 || segs'[i].sign == -1) {
      if i < |segs| {
        assert segs'[i] == segs[i] && values'[i] == values[i];
      }
    }
  }

  // ---------------------------------------------------------------------
  // Composing the text of a piece
  // ---------------------------------------------------------------------

  lemma BareProductText(m: Poly, p: Poly, vars: seq<nat>, a: string, b: string)
    requires Uniform(m, |vars|) && Uniform(p, |vars|) && VarsOk(vars)
    requires a == Render(m, vars) && b == Render(p, vars)
    ensures Render(m, vars) + Paren(p, vars) == a + "(" + b + ")"
  {
    assert a + ("(" + b + ")") == a + "(" + b + ")";
  }

  /**
   * The text a builder writes for a piece, from humanize_expression of
   * its polynomials: "(a)", "(a)(b)", "(a) / (b)", "((a) + (b))", "a" or
   * "a(b)".
   */
  method ShowPiece(piece: Piece, vars: seq<nat>) returns (text: string)
    requires PieceOk(piece, |vars|) && VarsOk(vars)
    ensures text == PieceText(piece, vars)
  {
    match piece {
      case Group(p) =>
        var a := Humanize(p, vars);
        text := "(" + a + ")";
      case Product(m, p) =>
        var a := Humanize(m, vars);
        var b := Humanize(p, vars);
        text := "(" + a + ")(" + b + ")";
        ProductText(m, p, vars, a, b);
      case Quotient(d, v) =>
        var a := Humanize(d, vars);
        var b := Humanize(v, vars);
        text := "(" + a + ") / (" + b + ")";
        QuotientText(d, v, vars, a, b);
      case Nested(i, o) =>
        var a := Humanize(i, vars);
        var b := Humanize(o, vars);
        text := "((" + a + ") + (" + b + "))";
      case Bare(p) =>
        text := Humanize(p, vars);
      case BareProduct(m, p) =>
        var a := Humanize(m, vars);
        var b := Humanize(p, vars);
        text := a + "(" + b + ")";
        BareProductText(m, p, vars, a, b);
    }
  }
}
