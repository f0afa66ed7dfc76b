/**
 * The plain-text renderer (humanize_expression): a polynomial in the
 * problem's variables becomes input-style text such as "2x^2 + 3xy - 5".
 * Terms appear in the canonical (descending lexicographic) order, each
 * preceded by its sign; a leading "+" is dropped.
 */
module Rendering {
  import opened Polynomials

  /** The variable pool, in its fixed order. */
  const VariableNames: seq<string> := ["x", "y", "z"]

  /** Variables are referred to by their index into the pool. */
  predicate VarsOk(vars: seq<nat>)
  {
    forall j :: 0 <= j < |vars| ==> vars[j] < |VariableNames|
  }

  // ---------------------------------------------------------------------
  // Text primitives
  // ---------------------------------------------------------------------

  predicate IsDigit(c: char) { '0' <= c <= '9' }

  function DigitChar(d: nat): (c: char)
    requires d < 10
    ensures IsDigit(c) && DigitValue(c) == d
  {
    ('0' as int + d) as char
  }

  function DigitValue(c: char): int
  {
    c as int - '0' as int
  }

  /** The number a string of decimal digits stands for. */
  function DigitsValue(s: string): int
  {
    if s == [] then 0 else 10 * DigitsValue(s[..|s| - 1]) + DigitValue(s[|s| - 1])
  }

  /**
   * Decimal notation of a natural number, as str(n) writes it: digits
   * only, no leading zero, standing for n.
   */
  function Decimal(n: nat): (s: string)
    ensures |s| > 0 && forall i :: 0 <= i < |s| ==> IsDigit(s[i])
    ensures DigitsValue(s) == n
    ensures |s| == 1 || s[0] != '0'
  {
    if n < 10 then [DigitChar(n)] else Decimal(n / 10) + [DigitChar(n % 10)]
  }

  /** "".join(parts) */
  function Concat(parts: seq<string>): string
  {
    if parts == [] then "" else Concat(parts[..|parts| - 1]) + parts[|parts| - 1]
  }

  /** The white-space characters str.strip removes that can occur here. */
  predicate IsSpace(c: char) { c == ' ' || '\t' <= c <= '\r' }

  function StripLeft(s: string): string
  {
    if s != [] && IsSpace(s[0]) then StripLeft(s[1..]) else s
  }

  function StripRight(s: string): string
  {
    if s != [] && IsSpace(s[|s| - 1]) then StripRight(s[..|s| - 1]) else s
  }

  /** str.strip() */
  function Strip(s: string): string
  {
    StripRight(StripLeft(s))
  }

  /** str.replace(pat, rep): left-to-right, non-overlapping. */
  function ReplaceAll(s: string, pat: string, rep: string): string
    requires |pat| > 0
  {
    if |s| < |pat| then s
    else if s[..|pat|] == pat then rep + ReplaceAll(s[|pat|..], pat, rep)
    else [s[0]] + ReplaceAll(s[1..], pat, rep)
  }

  /** No character a is immediately followed by b. */
  ghost predicate NoPair(s: string, a: char, b: char)
  {
    forall i, j :: 0 <= i < j < |s| && j == i + 1 ==> !(s[i] == a && s[j] == b)
  }

  // ---------------------------------------------------------------------
  // Rendering of one term
  // ---------------------------------------------------------------------

  /** One variable's factor: nothing for exponent 0, the bare name for 1, name^k otherwise. */
  function Factor(power: nat, v: nat): string
    requires v < |VariableNames|
  {
    if power == 0 then "" else if power == 1 then VariableNames[v] else VariableNames[v] + "^" + Decimal(power)
  }

  /** "".join(var_factors) for the exponent vector e over the variables vars. */
  function VarFactors(e: Monomial, vars: seq<nat>): string
    requires |e| == |vars| && VarsOk(vars)
  {
    if e == [] then ""
    else VarFactors(e[..|e| - 1], vars[..|e| - 1]) + Factor(e[|e| - 1], vars[|e| - 1])
  }

  function Abs(c: int): nat { if c < 0 then -c else c }

  /** The unsigned text of a term: bare |c| for a constant, the factors alone for a unit coefficient. */
  function Body(t: Term, vars: seq<nat>): string
    requires |t.exps| == |vars| && VarsOk(vars)
  {
    var f := VarFactors(t.exps, vars);
    if f == "" then Decimal(Abs(t.coeff))
    else if Abs(t.coeff) == 1 then f
    else Decimal(Abs(t.coeff)) + f
  }

  /** What the loop appends for one term: " + body" or " - body". */
  function Piece(t: Term, vars: seq<nat>): string
    requires |t.exps| == |vars| && VarsOk(vars)
  {
    " " + (if t.coeff > 0 then "+" else "-") + " " + Body(t, vars)
  }

  // ---------------------------------------------------------------------
  // Rendering of a polynomial
  // ---------------------------------------------------------------------

  /** The joined pieces of all terms, before stripping. */
  function Raw(p: Poly, vars: seq<nat>): string
    requires Uniform(p, |vars|) && VarsOk(vars)
  {
    if p == [] then "" else Piece(p[0], vars) + Raw(p[1..], vars)
  }

  /**
   * The rendered text: "0" for the zero polynomial; otherwise the first
   * term with "- " in front when negative and nothing when positive,
   * and every later term joined by " + " or " - " after its sign.
   */
  function Render(p: Poly, vars: seq<nat>): (r: string)
    requires Uniform(p, |vars|) && VarsOk(vars)
    ensures p == [] ==> r == "0"
    ensures |r| > 0
    ensures p != [] ==> (r[0] == '-' <==> p[0].coeff < 0)
  {
    if p == [] then "0"
    else
      BodyChars(p[0], vars);
      (if p[0].coeff < 0 then "- " else "") + Body(p[0], vars) + Raw(p[1..], vars)
  }

  // ---------------------------------------------------------------------
  // Character-level facts
  // ---------------------------------------------------------------------

  predicate IsBodyChar(c: char) { IsDigit(c) || c == 'x' || c == 'y' || c == 'z' || c == '^' }

  predicate BodyText(s: string) { forall i :: 0 <= i < |s| ==> IsBodyChar(s[i]) }

  lemma {:induction false} VarFactorsChars(e: Monomial, vars: seq<nat>)
    requires |e| == |vars| && VarsOk(vars)
    ensures BodyText(VarFactors(e, vars))
  {
    if e != [] {
      VarFactorsChars(e[..|e| - 1], vars[..|e| - 1]);
      var f := Factor(e[|e| - 1], vars[|e| - 1]);
      assert BodyText(f);
    }
  }

  lemma BodyChars(t: Term, vars: seq<nat>)
    requires |t.exps| == |vars| && VarsOk(vars)
    ensures |Body(t, vars)| > 0 && BodyText(Body(t, vars))
  {
    VarFactorsChars(t.exps, vars);
  }

  lemma NoPairConcat(s: string, t: string, a: char, b: char)
    requires NoPair(s, a, b) && NoPair(t, a, b)
    requires s != [] && t != [] ==> !(s[|s| - 1] == a && t[0] == b)
    ensures NoPair(s + t, a, b)
  {
    var u := s + t;
    forall i, j | 0 <= i < j < |u| && j == i + 1 ensures !(u[i] == a && u[j] == b) {
      if i + 1 < |s| {
        assert u[i] == s[i] && u[i + 1] == s[i + 1];
      } else if i + 1 == |s| {
        assert u[i] == s[|s| - 1] && u[i + 1] == t[0];
      } else {
        assert u[i] == t[i - |s|] && u[i + 1] == t[i - |s| + 1];
      }
    }
  }

  /** Body text contains neither a space nor a plus, so no bad pair. */
  lemma BodyNoPairs(s: string)
    requires BodyText(s)
    ensures NoPair(s, ' ', ' ') && NoPair(s, '+', '-')
  {
  }

  /** The (unstripped) raw text is empty exactly for no terms, else starts with a space and ends with a body character. */
  lemma {:induction false} RawEnds(p: Poly, vars: seq<nat>)
    requires Uniform(p, |vars|) && VarsOk(vars)
    ensures var r := Raw(p, vars);
      && (p == [] <==> r == "")
      && (r != "" ==> r[0] == ' ' && IsBodyChar(r[|r| - 1]))
  {
    if p != [] {
      RawEnds(p[1..], vars);
      BodyChars(p[0], vars);
    }
  }

  /** The (unstripped) raw text has no "+-" and no double space. */
  lemma {:induction false} RawNoPairs(p: Poly, vars: seq<nat>)
    requires Uniform(p, |vars|) && VarsOk(vars)
    ensures NoPair(Raw(p, vars), ' ', ' ') && NoPair(Raw(p, vars), '+', '-')
  {
    if p != [] {
      var piece := Piece(p[0], vars);
      var rest := Raw(p[1..], vars);
      assert Raw(p, vars) == piece + rest;
      RawNoPairs(p[1..], vars);
      RawEnds(p[1..], vars);
      assert piece != [] && IsBodyChar(piece[|piece| - 1])
        && NoPair(piece, ' ', ' ') && NoPair(piece, '+', '-') by {
        PieceNoPairs(p[0], vars);
      }
      NoPairConcat(piece, rest, ' ', ' ');
      NoPairConcat(piece, rest, '+', '-');
    }
  }

  /** One rendered term " + body" or " - body" has no bad pair and ends in a body character. */
  lemma PieceNoPairs(t: Term, vars: seq<nat>)
    requires |t.exps| == |vars| && VarsOk(vars)
    ensures var piece := Piece(t, vars);
      && piece != [] && IsBodyChar(piece[|piece| - 1])
      && NoPair(piece, ' ', ' ') && NoPair(piece, '+', '-')
  {
    var b := Body(t, vars);
    BodyChars(t, vars);
    BodyNoPairs(b);
    var s := if t.coeff > 0 then "+" else "-";
    var head := " " + s + " ";
    assert NoPair(head, ' ', ' ') && NoPair(head, '+', '-');
    NoPairConcat(head, b, ' ', ' ');
    NoPairConcat(head, b, '+', '-');
    assert Piece(t, vars) == head + b;
    assert (head + b)[|head + b| - 1] == b[|b| - 1];
  }

  // ---------------------------------------------------------------------
  // Properties of the rendering
  // ---------------------------------------------------------------------

  /** The ends of lead + body + rest, for a lead of "" or "- ". */
  lemma JoinedEnds(lead: string, b: string, rest: string, r: string)
    requires lead == "" || lead == "- "
    requires b != [] && IsBodyChar(b[0]) && IsBodyChar(b[|b| - 1])
    requires rest != [] ==> IsBodyChar(rest[|rest| - 1])
    requires r == lead + (b + rest)
    ensures |r| > 0 && r[0] != '+' && !IsSpace(r[0]) && !IsSpace(r[|r| - 1])
  {
    LastOfConcat(b, rest);
    assert r[|r| - 1] == (b + rest)[|b + rest| - 1];
  }

  /** The rendered text is never empty, never starts with '+' and has no white space at either end. */
  lemma RenderNoLeadingPlus(p: Poly, vars: seq<nat>)
    requires Uniform(p, |vars|) && VarsOk(vars)
    ensures var r := Render(p, vars);
      |r| > 0 && r[0] != '+' && !IsSpace(r[0]) && !IsSpace(r[|r| - 1])
  {
    if p != [] {
      var b := Body(p[0], vars);
      var rest := Raw(p[1..], vars);
      assert b != [] && IsBodyChar(b[0]) && IsBodyChar(b[|b| - 1]) by { BodyChars(p[0], vars); }
      assert rest != [] ==> IsBodyChar(rest[|rest| - 1]) by { RawEnds(p[1..], vars); }
      var lead := if p[0].coeff < 0 then "- " else "";
      assert Render(p, vars) == lead + (b + rest) by { RenderFirst(p, vars); }
      JoinedEnds(lead, b, rest, Render(p, vars));
    }
  }

  /** The rendered text never contains "+-" and never two spaces in a row. */
  lemma RenderClean(p: Poly, vars: seq<nat>)
    requires Uniform(p, |vars|) && VarsOk(vars)
    ensures NoPair(Render(p, vars), '+', '-') && NoPair(Render(p, vars), ' ', ' ')
  {
    if p != [] {
      BodyChars(p[0], vars);
      var b := Body(p[0], vars);
      BodyNoPairs(b);
      RawEnds(p[1..], vars);
      RawNoPairs(p[1..], vars);
      var lead := if p[0].coeff < 0 then "- " else "";
      assert NoPair(lead, '+', '-') && NoPair(lead, ' ', ' ');
      NoPairConcat(lead, b, '+', '-');
      NoPairConcat(lead, b, ' ', ' ');
      NoPairConcat(lead + b, Raw(p[1..], vars), '+', '-');
      NoPairConcat(lead + b, Raw(p[1..], vars), ' ', ' ');
      assert Render(p, vars) == (lead + b) + Raw(p[1..], vars);
    }
  }

  // ---------------------------------------------------------------------
  // A polynomial in one variable renders the same among more variables
  // ---------------------------------------------------------------------

  lemma {:induction false} VarFactorsZeros(e: Monomial, vars: seq<nat>)
    requires |e| == |vars| && VarsOk(vars)
    requires forall j :: 0 <= j < |e| ==> e[j] == 0
    ensures VarFactors(e, vars) == ""
  {
    if e != [] {
      VarFactorsZeros(e[..|e| - 1], vars[..|e| - 1]);
    }
  }

  lemma VarFactorsPower(i: nat, k: nat, vars: seq<nat>)
    requires i < |vars| && VarsOk(vars)
    ensures VarFactors(Power(i, |vars|, k), vars) == Factor(k, vars[i])
  {
    VarFactorsOne(Power(i, |vars|, k), i, k, vars);
  }

  /** The factors of an exponent vector that is k at position i and zero elsewhere. */
  lemma {:induction false} VarFactorsOne(e: Monomial, i: nat, k: nat, vars: seq<nat>)
    requires |e| == |vars| && VarsOk(vars) && i < |e|
    requires e[i] == k && forall j :: 0 <= j < |e| && j != i ==> e[j] == 0
    ensures VarFactors(e, vars) == Factor(k, vars[i])
    decreases |e|
  {
    var n := |e|;
    var init, front := e[..n - 1], vars[..n - 1];
    var a, b := VarFactors(init, front), Factor(e[n - 1], vars[n - 1]);
    assert VarFactors(e, vars) == a + b;
    if i == n - 1 {
      assert a == "" by { VarFactorsZeros(init, front); }
      assert b == Factor(k, vars[i]);
      assert a + b == b;
    } else {
      assert a == Factor(k, vars[i]) by {
        VarFactorsOne(init, i, k, front);
        assert front[i] == vars[i];
      }
      assert b == "";
      assert a + b == a;
    }
  }

  lemma VarFactorsSingle(k: nat, v: nat)
    requires v < |VariableNames|
    ensures VarFactors([k], [v]) == Factor(k, v)
  {
    assert [k][..0] == [] && [v][..0] == [];
  }

  lemma BodyPlaced(t: Term, i: nat, vars: seq<nat>)
    requires i < |vars| && VarsOk(vars) && |t.exps| == 1
    ensures Body(Placed(t, i, |vars|), vars) == Body(t, [vars[i]])
  {
    var k := t.exps[0];
    assert VarFactors(Power(i, |vars|, k), vars) == Factor(k, vars[i]) by { VarFactorsPower(i, k, vars); }
    assert VarFactors(t.exps, [vars[i]]) == Factor(k, vars[i]) by {
      assert t.exps == [k];
      VarFactorsSingle(k, vars[i]);
    }
  }

  lemma {:induction false} RawEmbed(p: Poly, i: nat, vars: seq<nat>)
    requires i < |vars| && VarsOk(vars) && Uniform(p, 1)
    ensures Uniform(Embed(p, i, |vars|), |vars|)
    ensures Raw(Embed(p, i, |vars|), vars) == Raw(p, [vars[i]])
  {
    if p != [] {
      EmbedSplit(p, i, |vars|);
      RawEmbed(p[1..], i, vars);
      BodyPlaced(p[0], i, vars);
    }
  }

  /** humanize_expression over (var,) and over all variables agree on a polynomial in var alone. */
  lemma RenderEmbed(p: Poly, i: nat, vars: seq<nat>)
    requires i < |vars| && VarsOk(vars) && Uniform(p, 1)
    ensures Uniform(Embed(p, i, |vars|), |vars|)
    ensures Render(Embed(p, i, |vars|), vars) == Render(p, [vars[i]])
  {
    if p != [] {
      EmbedSplit(p, i, |vars|);
      RawEmbed(p[1..], i, vars);
      BodyPlaced(p[0], i, vars);
    }
  }

  // ---------------------------------------------------------------------
  // The source's string post-processing, step by step
  // ---------------------------------------------------------------------

  lemma {:induction false} ReplaceAbsent(s: string, a: char, b: char, rep: string)
    requires NoPair(s, a, b)
    ensures ReplaceAll(s, [a, b], rep) == s
  {
    if |s| >= 2 {
      assert s[..2] != [a, b] by { assert !(s[0] == a && s[1] == b); }
      assert NoPair(s[1..], a, b) by {
        forall i, j | 0 <= i < j < |s[1..]| && j == i + 1 ensures !(s[1..][i] == a && s[1..][j] == b) {
          assert s[1..][i] == s[i + 1] && s[1..][j] == s[j + 1];
        }
      }
      ReplaceAbsent(s[1..], a, b, rep);
      assert s == [s[0]] + s[1..];
    }
  }

  lemma StripRightKeeps(s: string)
    requires s != [] && !IsSpace(s[|s| - 1])
    ensures StripRight(s) == s
  {
  }

  lemma StripOneSpace(t: string)
    requires t != [] && !IsSpace(t[0]) && !IsSpace(t[|t| - 1])
    ensures Strip(" " + t) == t
  {
    var u := " " + t;
    assert u[1..] == t;
    assert StripLeft(u) == StripLeft(t);
    assert StripLeft(t) == t;
    StripRightKeeps(t);
  }

  lemma LastOfConcat(a: string, b: string)
    requires a != []
    ensures (a + b)[|a + b| - 1] == if b == [] then a[|a| - 1] else b[|b| - 1]
  {
  }

  /** Stripping " s u" for a one-character sign s and unpadded u; a "+" then also goes. */
  lemma SignedText(sign: string, u: string)
    requires sign == "+" || sign == "-"
    requires u != [] && !IsSpace(u[0]) && !IsSpace(u[|u| - 1])
    ensures Strip(" " + sign + " " + u) == sign + " " + u
    ensures sign == "+" ==> Strip((sign + " " + u)[1..]) == u
  {
    var t := sign + " " + u;
    assert t[|t| - 1] == u[|u| - 1];
    assert " " + sign + " " + u == " " + t;
    StripOneSpace(t);
    if sign == "+" {
      assert t[1..] == " " + u;
      StripOneSpace(u);
    }
  }

  /** The text a term list joins to, split after its first term. */
  lemma RawFirst(p: Poly, vars: seq<nat>)
    requires Uniform(p, |vars|) && VarsOk(vars) && p != []
    ensures Raw(p, vars) == " " + (if p[0].coeff > 0 then "+" else "-") + " " + (Body(p[0], vars) + Raw(p[1..], vars))
  {
  }

  /** The rendered text, split after its first term. */
  lemma RenderFirst(p: Poly, vars: seq<nat>)
    requires Uniform(p, |vars|) && VarsOk(vars) && p != []
    ensures Render(p, vars) == (if p[0].coeff < 0 then "- " else "") + (Body(p[0], vars) + Raw(p[1..], vars))
  {
  }

  /** The post-processing on the joined pieces, stated for any first body b and remainder rest. */
  lemma StripForm(c: int, b: string, rest: string, raw: string, rendered: string)
    requires c != 0 && b != [] && !IsSpace(b[0])
    requires !IsSpace((b + rest)[|b + rest| - 1])
    requires raw == " " + (if c > 0 then "+" else "-") + " " + (b + rest)
    requires rendered == (if c < 0 then "- " else "") + (b + rest)
    ensures var s := Strip(raw);
      rendered == if |s| > 0 && s[0] == '+' then Strip(s[1..]) else s
  {
    var u := b + rest;
    var sign := if c > 0 then "+" else "-";
    SignedText(sign, u);
    var s := Strip(" " + sign + " " + u);
    assert s == sign + " " + u;
    if c < 0 {
      assert s[0] == '-';
      assert "- " + u == sign + " " + u;
    }
  }

  /** Stripping the joined pieces and dropping a leading "+" gives the rendered text. */
  lemma PostProcess(p: Poly, vars: seq<nat>)
    requires Uniform(p, |vars|) && VarsOk(vars) && p != [] && p[0].coeff != 0
    ensures var s := Strip(Raw(p, vars));
      Render(p, vars) == if |s| > 0 && s[0] == '+' then Strip(s[1..]) else s
  {
    var b := Body(p[0], vars);
    var rest := Raw(p[1..], vars);
    assert b != [] && !IsSpace(b[0]) && IsBodyChar(b[|b| - 1]) by { BodyChars(p[0], vars); }
    assert rest != [] ==> IsBodyChar(rest[|rest| - 1]) by { RawEnds(p[1..], vars); }
    assert !IsSpace((b + rest)[|b + rest| - 1]) by { LastOfConcat(b, rest); }
    assert Raw(p, vars) == " " + (if p[0].coeff > 0 then "+" else "-") + " " + (b + rest) by { RawFirst(p, vars); }
    assert Render(p, vars) == (if p[0].coeff < 0 then "- " else "") + (b + rest) by { RenderFirst(p, vars); }
    StripForm(p[0].coeff, b, rest, Raw(p, vars), Render(p, vars));
  }

  /** The factor loop of one term: the joined names and powers of the variables it uses. */
  method TermFactors(e: Monomial, vars: seq<nat>) returns (f: string)
    requires |e| == |vars| && VarsOk(vars)
    ensures f == VarFactors(e, vars)
  {
    var factors: seq<string> := [];
    var j := 0;
    while j < |vars|
      invariant 0 <= j <= |vars|
      invariant Concat(factors) == VarFactors(e[..j], vars[..j])
    {
      var power := e[j];
      VarFactorsStep(e, vars, j);
      if power != 0 {
        var factor := if power == 1 then VariableNames[vars[j]] else VariableNames[vars[j]] + "^" + Decimal(power);
        ConcatSnoc(factors, factor);
        factors := factors + [factor];
      }
      j := j + 1;
    }
    assert e[..j] == e && vars[..j] == vars;
    f := Concat(factors);
  }

  /** One more variable of the factor loop: its factor, or nothing for exponent zero. */
  lemma VarFactorsStep(e: Monomial, vars: seq<nat>, j: nat)
    requires |e| == |vars| && VarsOk(vars) && j < |e|
    ensures var before := VarFactors(e[..j], vars[..j]);
      VarFactors(e[..j + 1], vars[..j + 1]) == if e[j] == 0 then before else before + Factor(e[j], vars[j])
  {
    assert e[..j + 1][..j] == e[..j] && vars[..j + 1][..j] == vars[..j];
  }

  /** The text the loop appends for one non-zero term. */
  method TermPiece(t: Term, vars: seq<nat>) returns (piece: string)
    requires |t.exps| == |vars| && VarsOk(vars)
    ensures piece == Piece(t, vars)
  {
    var sign := if t.coeff > 0 then "+" else "-";
    var absCoeff := Abs(t.coeff);
    var varsPart := TermFactors(t.exps, vars);
    var body: string;
    if varsPart == "" {
      body := Decimal(absCoeff);
    } else if absCoeff == 1 {
      body := varsPart;
    } else {
      body := Decimal(absCoeff) + varsPart;
    }
    piece := " " + sign + " " + body;
  }

  lemma RawStep(p: Poly, vars: seq<nat>, i: nat)
    requires Uniform(p, |vars|) && VarsOk(vars) && i < |p|
    ensures Raw(p[i..], vars) == Piece(p[i], vars) + Raw(p[i + 1..], vars)
  {
    assert p[i..][0] == p[i] && p[i..][1..] == p[i + 1..];
  }

  lemma ConcatSnoc(parts: seq<string>, s: string)
    ensures Concat(parts + [s]) == Concat(parts) + s
  {
    assert (parts + [s])[..|parts|] == parts;
  }

  lemma Associative(a: string, b: string, c: string)
    ensures (a + b) + c == a + (b + c)
  {
  }

  /** The term loop: the pieces of all terms, joined. */
  method JoinPieces(p: Poly, vars: seq<nat>) returns (raw: string)
    requires Uniform(p, |vars|) && VarsOk(vars)
    ensures raw == Raw(p, vars)
  {
    var parts: seq<string> := [];
    var i := 0;
    assert p[i..] == p;
    while i < |p|
      invariant 0 <= i <= |p|
      invariant Concat(parts) + Raw(p[i..], vars) == Raw(p, vars)
    {
      var piece := TermPiece(p[i], vars);
      RawStep(p, vars, i);
      ConcatSnoc(parts, piece);
      Associative(Concat(parts), piece, Raw(p[i + 1..], vars));
      parts := parts + [piece];
      i := i + 1;
    }
    assert p[i..] == [];
    raw := Concat(parts);
  }

  /**
   * humanize_expression on a polynomial in the variables vars: the loop
   * over the terms builds the pieces, then the text is stripped, a leading
   * "+" is removed and the two replacements run.  The result is exactly
   * the rendered text.
   */
  method Humanize(p: Poly, vars: seq<nat>) returns (text: string)
    requires Valid(p, |vars|) && VarsOk(vars)
    ensures text == Render(p, vars)
  {
    if p == [] {
      return "0";
    }
    var raw := JoinPieces(p, vars);
    text := Strip(raw);
    if |text| > 0 && text[0] == '+' {
      text := Strip(text[1..]);
    }
    assert text == Render(p, vars) by { PostProcess(p, vars); }
    RenderClean(p, vars);
    ReplaceAbsent(text, ' ', ' ', " ");
    text := ReplaceAll(text, "  ", " ");
    ReplaceAbsent(text, '+', '-', "-");
    text := ReplaceAll(text, "+-", "-");
  }
}
