/**
 * random_polynomial: a bounded retry synthesis of a small random
 * polynomial.  Each of at most 20 attempts draws a term count, then for
 * every term a coefficient (a zero draw drops the term) and an exponent
 * per variable under a total-degree budget; a term that ends up with no
 * variable at all is replaced by one bare variable.  An attempt whose sum
 * is non-zero and has enough terms is returned at once; after the last
 * attempt its candidate is returned unchecked.
 */
module Synth {
  import opened Polynomials
  import opened Draws
  import opened Levels

  function Max(a: int, b: int): int { if a >= b then a else b }

  /** Number of attempts before the last candidate is returned unchecked. */
  const Attempts: nat := 20

  // ---------------------------------------------------------------------
  // Sums of drawn terms
  // ---------------------------------------------------------------------

  /** expr += coeff * monomial, term after term, starting from 0. */
  function SumTerms(ts: seq<Term>): Poly
  {
    if ts == [] then [] else Add(SumTerms(ts[..|ts| - 1]), Mono(ts[|ts| - 1].coeff, ts[|ts| - 1].exps))
  }

  /** Every monomial listed in p has total degree in [lo, hi]. */
  ghost predicate KeysWithin(p: Poly, lo: int, hi: int)
  {
    forall k :: k in Keys(p) ==> lo <= Degree(k) <= hi
  }

  /** A term as random_polynomial keeps it. */
  predicate TermOk(t: Term, n: nat, lo: int, hi: int, maxDeg: int)
  {
    t.coeff != 0 && lo <= t.coeff <= hi && |t.exps| == n && 1 <= Degree(t.exps) <= Max(1, maxDeg)
  }

  lemma SumTermsSnoc(ts: seq<Term>, t: Term)
    ensures SumTerms(ts + [t]) == Add(SumTerms(ts), Mono(t.coeff, t.exps))
  {
    assert (ts + [t])[..|ts|] == ts;
  }

  lemma TermsOkSnoc(ts: seq<Term>, t: Term, n: nat, lo: int, hi: int, maxDeg: int)
    requires forall i :: 0 <= i < |ts| ==> TermOk(ts[i], n, lo, hi, maxDeg)
    requires TermOk(t, n, lo, hi, maxDeg)
    ensures forall i :: 0 <= i < |ts + [t]| ==> TermOk((ts + [t])[i], n, lo, hi, maxDeg)
  {
  }

  lemma {:induction false} SumTermsValid(ts: seq<Term>, n: nat)
    requires forall i :: 0 <= i < |ts| ==> |ts[i].exps| == n
    ensures Valid(SumTerms(ts), n)
  {
    if ts != [] {
      SumTermsValid(ts[..|ts| - 1], n);
      AddValid(SumTerms(ts[..|ts| - 1]), Mono(ts[|ts| - 1].coeff, ts[|ts| - 1].exps), n);
    }
  }

  /** The sum only carries monomials of the drawn terms, so their degree bounds carry over. */
  lemma {:induction false} SumTermsDegrees(ts: seq<Term>, lo: int, hi: int)
    requires forall i :: 0 <= i < |ts| ==> lo <= Degree(ts[i].exps) <= hi
    ensures KeysWithin(SumTerms(ts), lo, hi)
  {
    if ts != [] {
      var init := ts[..|ts| - 1];
      var last := ts[|ts| - 1];
      SumTermsDegrees(init, lo, hi);
      var m := Mono(last.coeff, last.exps);
      AddKeys(SumTerms(init), m);
      assert Keys(m) <= {last.exps};
    }
  }

  /** The sum evaluates to the sum of the drawn terms' values. */
  function TermsValue(ts: seq<Term>, pt: seq<int>): int
  {
    if ts == [] then 0 else TermsValue(ts[..|ts| - 1], pt) + ts[|ts| - 1].coeff * MonoEval(ts[|ts| - 1].exps, pt)
  }

  lemma {:induction false} SumTermsEval(ts: seq<Term>, pt: seq<int>)
    ensures Eval(SumTerms(ts), pt) == TermsValue(ts, pt)
  {
    if ts != [] {
      var last := ts[|ts| - 1];
      SumTermsEval(ts[..|ts| - 1], pt);
      AddEval(SumTerms(ts[..|ts| - 1]), Mono(last.coeff, last.exps), pt);
    }
  }

  // ---------------------------------------------------------------------
  // Degrees of exponent vectors built left to right
  // ---------------------------------------------------------------------

  lemma {:induction false} DegreeSnoc(e: Monomial, k: nat)
    ensures Degree(e + [k]) == Degree(e) + k
  {
    if e != [] {
      assert (e + [k])[1..] == e[1..] + [k];
      DegreeSnoc(e[1..], k);
    }
  }

  // ---------------------------------------------------------------------
  // The attempt loop
  // ---------------------------------------------------------------------

  /**
   * The exponents of one term: each variable in turn gets a power drawn
   * from [0, budget left], or 0 without a draw once the budget is used;
   * an all-zero vector becomes one randomly chosen bare variable.
   */
  method DrawExponents(r: Rng, n: nat, maxDeg: int) returns (e: Monomial, r': Rng)
    requires n >= 1
    ensures |e| == n && 1 <= Degree(e) <= Max(1, maxDeg)
    ensures Left(r') <= Left(r)
  {
    e := [];
    r' := r;
    var total := 0;
    for j := 0 to n
      invariant |e| == j && Degree(e) == total
      invariant total <= Max(0, maxDeg)
      invariant Left(r') <= Left(r)
    {
      var power: nat;
      if total >= maxDeg {
        power := 0;
      } else {
        var d := RandInt(r', 0, maxDeg - total);
        power, r' := d.0, d.1;
      }
      DegreeSnoc(e, power);
      e := e + [power];
      total := total + power;
    }
    if total == 0 {
      var d := RandInt(r', 0, n - 1);
      r' := d.1;
      e := Power(d.0, n, 1);
      DegreePower(d.0, n, 1);
    }
  }

  /** One pass of the term loop: a coefficient, and when it is not zero the exponents of its term. */
  method DrawTerm(r: Rng, n: nat, maxDeg: int, lo: int, hi: int) returns (t: Option<Term>, r': Rng)
    requires n >= 1 && lo <= hi
    ensures t.Some? ==> TermOk(t.value, n, lo, hi, maxDeg)
    ensures Left(r') <= Left(r)
  {
    var d := RandInt(r, lo, hi);
    var coeff := d.0;
    r' := d.1;
    if coeff == 0 {
      t := None;
    } else {
      var e;
      e, r' := DrawExponents(r', n, maxDeg);
      t := Some(Term(coeff, e));
    }
  }

  /**
   * One attempt: a term count drawn from [max(2, minTerms), max(4, minTerms)],
   * then that many coefficient draws, each non-zero one with its exponents.
   */
  method Candidate(r: Rng, n: nat, maxDeg: int, lo: int, hi: int, minTerms: nat)
    returns (expr: Poly, r': Rng, ghost drawn: seq<Term>, ghost termCount: nat)
    requires n >= 1 && lo <= hi
    ensures expr == SumTerms(drawn)
    ensures Max(2, minTerms) <= termCount <= Max(4, minTerms)
    ensures |drawn| <= termCount
    ensures forall i :: 0 <= i < |drawn| ==> TermOk(drawn[i], n, lo, hi, maxDeg)
    ensures Left(r') <= Left(r)
  {
    var c := RandInt(r, Max(2, minTerms), Max(4, minTerms));
    var count, r1 := c.0, c.1;
    termCount := count;
    r' := r1;
    expr := [];
    drawn := [];
    for k := 0 to count
      invariant expr == SumTerms(drawn)
      invariant |drawn| <= k
      invariant forall i :: 0 <= i < |drawn| ==> TermOk(drawn[i], n, lo, hi, maxDeg)
      invariant Left(r') <= Left(r)
    {
      var t;
      t, r' := DrawTerm(r', n, maxDeg, lo, hi);
      if t.Some? {
        SumTermsSnoc(drawn, t.value);
        TermsOkSnoc(drawn, t.value, n, lo, hi, maxDeg);
        drawn := drawn + [t.value];
        expr := Add(expr, Mono(t.value.coeff, t.value.exps));
      }
    }
  }

  /**
   * random_polynomial over n variables (one variable when the list given
   * is empty), with total degree budget maxDeg, coefficients drawn from
   * [lo, hi] and at least minTerms terms wanted.  The result is the sum of
   * the terms drawn in the attempt it comes from; when early holds, it was
   * accepted by the check (non-zero, at least minTerms terms), otherwise
   * it is the last attempt's candidate, returned unchecked.  tries counts
   * the attempts made: all twenty of them unless one was accepted.
   */
  method RandomPolynomial(r: Rng, n: nat, maxDeg: int, lo: int, hi: int, minTerms: nat)
    returns (p: Poly, r': Rng, ghost drawn: seq<Term>, ghost early: bool, ghost tries: nat)
    requires lo <= hi
    ensures var m := Max(1, n);
      && p == SumTerms(drawn)
      && Valid(p, m)
      && |drawn| <= Max(4, minTerms)
      && (forall i :: 0 <= i < |drawn| ==> TermOk(drawn[i], m, lo, hi, maxDeg))
    ensures forall i :: 0 <= i < |p| ==> 1 <= Degree(p[i].exps) <= Max(1, maxDeg)
    ensures early ==> p != [] && |p| >= minTerms
    ensures 1 <= tries <= Attempts && (!early ==> tries == Attempts)
    ensures Left(r') <= Left(r)
  {
    var m := Max(1, n);
    r' := r;
    p := [];
    drawn := [];
    early := false;
    var attempt := 0;
    while attempt < Attempts
      invariant 0 <= attempt <= Attempts
      invariant !early
      invariant p == SumTerms(drawn)
      invariant |drawn| <= Max(4, minTerms)
      invariant forall i :: 0 <= i < |drawn| ==> TermOk(drawn[i], m, lo, hi, maxDeg)
      invariant Left(r') <= Left(r)
    {
      ghost var count;
      p, r', drawn, count := Candidate(r', m, maxDeg, lo, hi, minTerms);
      attempt := attempt + 1;
      if p == [] {
        continue;
      }
      if |p| >= minTerms {
        early := true;
        break;
      }
    }
    tries := attempt;
    SumTermsValid(drawn, m);
    SumTermsDegrees(drawn, 1, Max(1, maxDeg));
    forall i | 0 <= i < |p| ensures 1 <= Degree(p[i].exps) <= Max(1, maxDeg) {
      assert p[i].exps in Keys(p);
    }
  }
}
