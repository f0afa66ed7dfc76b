/**
 * A small sparse polynomial type standing in for the symbolic-algebra
 * substrate that the generator builds its problems from.
 *
 * A polynomial over n variables (in a fixed variable order) is a finite
 * map from exponent vectors to non-zero integer coefficients.  It is kept
 * in the canonical form a polynomial library reports through its term
 * listing: a sequence of terms whose exponent vectors strictly descend in
 * lexicographic order and whose coefficients are never zero.  The empty
 * sequence is the zero polynomial.
 */
module Polynomials {

  /** One exponent per variable, in the variable order of the problem. */
  type Monomial = seq<nat>

  datatype Term = Term(coeff: int, exps: Monomial)

  type Poly = seq<Term>

  // ---------------------------------------------------------------------
  // Exponent vectors
  // ---------------------------------------------------------------------

  /** Total degree of a monomial. */
  function Degree(e: Monomial): nat
  {
    if e == [] then 0 else e[0] + Degree(e[1..])
  }

  function Zeros(n: nat): (e: Monomial)
    ensures |e| == n && Degree(e) == 0
    ensures forall j :: 0 <= j < n ==> e[j] == 0
  {
    if n == 0 then [] else [0] + Zeros(n - 1)
  }

  /** The exponent vector of v_i^k among n variables. */
  function Power(i: nat, n: nat, k: nat): (e: Monomial)
    requires i < n
    ensures |e| == n && e[i] == k
    ensures forall j :: 0 <= j < n && j != i ==> e[j] == 0
    decreases n
  {
    if i == 0 then [k] + Zeros(n - 1) else [0] + Power(i - 1, n - 1, k)
  }

  /** Product of two monomials: exponents add pointwise. */
  function VecAdd(a: Monomial, b: Monomial): (c: Monomial)
    requires |a| == |b|
    ensures |c| == |a|
    ensures forall j :: 0 <= j < |c| ==> c[j] == a[j] + b[j]
  {
    if a == [] then [] else [a[0] + b[0]] + VecAdd(a[1..], b[1..])
  }

  /** Strict lexicographic order on exponent vectors (the variable listed first is most significant). */
  predicate LexGt(a: Monomial, b: Monomial)
  {
    |a| > 0 && |b| > 0 && (a[0] > b[0] || (a[0] == b[0] && LexGt(a[1..], b[1..])))
  }

  lemma {:induction false} LexIrreflexive(a: Monomial)
    ensures !LexGt(a, a)
  {
    if |a| > 0 { LexIrreflexive(a[1..]); }
  }

  lemma {:induction false} LexTransitive(a: Monomial, b: Monomial, c: Monomial)
    requires LexGt(a, b) && LexGt(b, c)
    ensures LexGt(a, c)
  {
    if a[0] == b[0] && b[0] == c[0] { LexTransitive(a[1..], b[1..], c[1..]); }
  }

  lemma LexAsymmetric(a: Monomial, b: Monomial)
    requires LexGt(a, b)
    ensures !LexGt(b, a)
  {
    if LexGt(b, a) { LexTransitive(a, b, a); LexIrreflexive(a); }
  }

  /** Distinct exponent vectors of the same length are always comparable. */
  lemma {:induction false} LexTotal(a: Monomial, b: Monomial)
    requires |a| == |b| && a != b
    ensures LexGt(a, b) || LexGt(b, a)
  {
    assert a == [a[0]] + a[1..] && b == [b[0]] + b[1..];
    if a[0] == b[0] {
      LexTotal(a[1..], b[1..]);
    }
  }

  /** The order is compatible with multiplication of monomials: a > b and c >= d give a*c > b*d. */
  lemma {:induction false} LexAddMonotone(a: Monomial, b: Monomial, c: Monomial, d: Monomial)
    requires |a| == |b| == |c| == |d|
    requires LexGt(a, b) && (c == d || LexGt(c, d))
    ensures LexGt(VecAdd(a, c), VecAdd(b, d))
  {
    var ac, bd := VecAdd(a, c), VecAdd(b, d);
    assert ac[1..] == VecAdd(a[1..], c[1..]);
    assert bd[1..] == VecAdd(b[1..], d[1..]);
    if a[0] == b[0] && c[0] == d[0] {
      assert c == d || LexGt(c[1..], d[1..]);
      if c == d { assert c[1..] == d[1..]; }
      LexAddMonotone(a[1..], b[1..], c[1..], d[1..]);
    }
  }

  /** Multiplying both sides by the same monomial keeps the order. */
  lemma {:induction false} LexMulMonomial(t: Monomial, a: Monomial, b: Monomial)
    requires |t| == |a| == |b| && LexGt(a, b)
    ensures LexGt(VecAdd(t, a), VecAdd(t, b))
  {
    var ta, tb := VecAdd(t, a), VecAdd(t, b);
    assert ta[1..] == VecAdd(t[1..], a[1..]);
    assert tb[1..] == VecAdd(t[1..], b[1..]);
    if a[0] == b[0] { LexMulMonomial(t[1..], a[1..], b[1..]); }
  }

  // ---------------------------------------------------------------------
  // Canonical form
  // ---------------------------------------------------------------------

  /** Each term has n exponents and a non-zero coefficient; exponents strictly descend. */
  predicate Valid(p: Poly, n: nat)
  {
    && (forall i :: 0 <= i < |p| ==> p[i].coeff != 0 && |p[i].exps| == n)
    && (forall i, j :: 0 <= i < j < |p| ==> LexGt(p[i].exps, p[j].exps))
  }

  /** The exponent vectors that carry a coefficient. */
  function Keys(p: Poly): set<Monomial>
  {
    set i | 0 <= i < |p| :: p[i].exps
  }

  /** The coefficient of monomial m (0 when absent): the finite-map view of p. */
  function Coef(p: Poly, m: Monomial): int
  {
    if p == [] then 0 else if p[0].exps == m then p[0].coeff else Coef(p[1..], m)
  }

  lemma {:induction false} CoefAbsent(p: Poly, m: Monomial)
    requires m !in Keys(p)
    ensures Coef(p, m) == 0
  {
    if p != [] {
      assert p[0].exps in Keys(p);
      assert Keys(p[1..]) <= Keys(p) by {
        forall k | k in Keys(p[1..]) ensures k in Keys(p) {
          var i :| 0 <= i < |p[1..]| && p[1..][i].exps == k;
          assert p[i + 1].exps == k;
        }
      }
      CoefAbsent(p[1..], m);
    }
  }

  lemma KeysCons(t: Term, p: Poly)
    ensures Keys([t] + p) == {t.exps} + Keys(p)
  {
    var q := [t] + p;
    forall k | k in Keys(q) ensures k in {t.exps} + Keys(p) {
      var i :| 0 <= i < |q| && q[i].exps == k;
      if i > 0 { assert p[i - 1].exps == k; }
    }
    forall k | k in Keys(p) ensures k in Keys(q) {
      var i :| 0 <= i < |p| && p[i].exps == k;
      assert q[i + 1].exps == k;
    }
    assert q[0].exps == t.exps;
  }

  lemma KeysTail(p: Poly)
    requires p != []
    ensures Keys(p) == {p[0].exps} + Keys(p[1..])
  {
    assert p == [p[0]] + p[1..];
    KeysCons(p[0], p[1..]);
  }

  /** In a valid polynomial, the coefficient of a listed monomial is the one listed. */
  lemma {:induction false} CoefAt(p: Poly, n: nat, i: nat)
    requires Valid(p, n) && i < |p|
    ensures Coef(p, p[i].exps) == p[i].coeff
  {
    if i > 0 {
      assert LexGt(p[0].exps, p[i].exps);
      LexIrreflexive(p[i].exps);
      CoefAt(p[1..], n, i - 1);
    }
  }

  /** Every listed monomial lies strictly below the head of a valid polynomial. */
  lemma HeadAboveTail(p: Poly, n: nat)
    requires Valid(p, n) && p != []
    ensures forall k :: k in Keys(p[1..]) ==> LexGt(p[0].exps, k)
  {
    forall k | k in Keys(p[1..]) ensures LexGt(p[0].exps, k) {
      var i :| 0 <= i < |p[1..]| && p[1..][i].exps == k;
      assert p[i + 1].exps == k;
    }
  }

  /** A term put in front of a valid polynomial keeps it valid when it lies above all of it. */
  lemma ConsValid(t: Term, p: Poly, n: nat)
    requires Valid(p, n) && t.coeff != 0 && |t.exps| == n
    requires forall k :: k in Keys(p) ==> LexGt(t.exps, k)
    ensures Valid([t] + p, n)
  {
    var q := [t] + p;
    forall i, j | 0 <= i < j < |q| ensures LexGt(q[i].exps, q[j].exps) {
      if i == 0 {
        assert q[j].exps == p[j - 1].exps;
        assert p[j - 1].exps in Keys(p);
      } else {
        assert q[i] == p[i - 1] && q[j] == p[j - 1];
      }
    }
  }

  // ---------------------------------------------------------------------
  // Evaluation at a point: the meaning of a polynomial
  // ---------------------------------------------------------------------

  function Pow(x: int, k: nat): int
  {
    if k == 0 then 1 else x * Pow(x, k - 1)
  }

  lemma {:induction false} PowAdd(x: int, a: nat, b: nat)
    ensures Pow(x, a + b) == Pow(x, a) * Pow(x, b)
  {
    if a > 0 {
      PowAdd(x, a - 1, b);
      assert Pow(x, a + b) == x * Pow(x, a - 1 + b);
      assert x * (Pow(x, a - 1) * Pow(x, b)) == (x * Pow(x, a - 1)) * Pow(x, b);
    }
  }

  /** Value of a monomial at the point pt (one value per variable). */
  function MonoEval(e: Monomial, pt: seq<int>): int
  {
    if e == [] || pt == [] then 1 else Pow(pt[0], e[0]) * MonoEval(e[1..], pt[1..])
  }

  function Eval(p: Poly, pt: seq<int>): int
  {
    if p == [] then 0 else p[0].coeff * MonoEval(p[0].exps, pt) + Eval(p[1..], pt)
  }

  lemma {:induction false} MonoEvalAdd(a: Monomial, b: Monomial, pt: seq<int>)
    requires |a| == |b|
    ensures MonoEval(VecAdd(a, b), pt) == MonoEval(a, pt) * MonoEval(b, pt)
  {
    if a != [] && pt != [] {
      var c := VecAdd(a, b);
      assert c[1..] == VecAdd(a[1..], b[1..]);
      MonoEvalAdd(a[1..], b[1..], pt[1..]);
      var x, y, u, v := Pow(pt[0], a[0]), Pow(pt[0], b[0]), MonoEval(a[1..], pt[1..]), MonoEval(b[1..], pt[1..]);
      assert Pow(pt[0], c[0]) == x * y by { PowAdd(pt[0], a[0], b[0]); }
      assert MonoEval(c, pt) == Pow(pt[0], c[0]) * MonoEval(c[1..], pt[1..]);
      Regroup(x, y, u, v);
    }
  }

  lemma Regroup(x: int, y: int, u: int, v: int)
    ensures (x * y) * (u * v) == (x * u) * (y * v)
  {
  }

  // ---------------------------------------------------------------------
  // Construction
  // ---------------------------------------------------------------------

  /** The single term c * e (zero when c is zero). */
  function Mono(c: int, e: Monomial): (p: Poly)
    ensures Valid(p, |e|)
    ensures forall m :: Coef(p, m) == if m == e then c else 0
  {
    if c == 0 then [] else [Term(c, e)]
  }

  function Constant(c: int, n: nat): (p: Poly)
    ensures Valid(p, n)
  {
    Mono(c, Zeros(n))
  }

  /** The polynomial c * v_i^k. */
  function VarPower(c: int, i: nat, n: nat, k: nat): (p: Poly)
    requires i < n
    ensures Valid(p, n)
  {
    Mono(c, Power(i, n, k))
  }

  // ---------------------------------------------------------------------
  // Addition: merge of two descending term lists, collecting like terms
  // ---------------------------------------------------------------------

  function Add(p: Poly, q: Poly): Poly
    decreases |p| + |q|
  {
    if p == [] then q
    else if q == [] then p
    else if LexGt(p[0].exps, q[0].exps) then [p[0]] + Add(p[1..], q)
    else if p[0].exps == q[0].exps then
      var c := p[0].coeff + q[0].coeff;
      if c == 0 then Add(p[1..], q[1..]) else [Term(c, p[0].exps)] + Add(p[1..], q[1..])
    else [q[0]] + Add(p, q[1..])
  }

  /** One step of the merge on equal leading monomials. */
  lemma AddStepEqual(p: Poly, q: Poly)
    requires p != [] && q != [] && p[0].exps == q[0].exps
    ensures var c := p[0].coeff + q[0].coeff;
      Add(p, q) == if c == 0 then Add(p[1..], q[1..]) else [Term(c, p[0].exps)] + Add(p[1..], q[1..])
  {
    LexIrreflexive(p[0].exps);
  }

  lemma AddStepKeep(p: Poly, q: Poly, c: int)
    requires p != [] && q != [] && p[0].exps == q[0].exps && c == p[0].coeff + q[0].coeff && c != 0
    ensures Add(p, q) == [Term(c, p[0].exps)] + Add(p[1..], q[1..])
  {
    AddStepEqual(p, q);
  }

  /** A sum only carries monomials of its summands. */
  lemma {:induction false} AddKeys(p: Poly, q: Poly)
    ensures Keys(Add(p, q)) <= Keys(p) + Keys(q)
    decreases |p| + |q|
  {
    if p != [] && q != [] {
      KeysTail(p);
      KeysTail(q);
      if LexGt(p[0].exps, q[0].exps) {
        AddKeys(p[1..], q);
        KeysCons(p[0], Add(p[1..], q));
      } else if p[0].exps == q[0].exps {
        AddKeys(p[1..], q[1..]);
        KeysCons(Term(p[0].coeff + q[0].coeff, p[0].exps), Add(p[1..], q[1..]));
      } else {
        AddKeys(p, q[1..]);
        KeysCons(q[0], Add(p, q[1..]));
      }
    }
  }

  /** A monomial above the head of a valid polynomial is above every listed monomial. */
  lemma AboveHead(p: Poly, n: nat, m: Monomial)
    requires Valid(p, n) && p != [] && LexGt(m, p[0].exps)
    ensures forall k :: k in Keys(p) ==> LexGt(m, k)
    ensures m !in Keys(p)
  {
    HeadAboveTail(p, n);
    KeysTail(p);
    forall k | k in Keys(p) ensures LexGt(m, k) {
      if k != p[0].exps { LexTransitive(m, p[0].exps, k); }
    }
    LexIrreflexive(m);
  }

  lemma {:induction false} AddValid(p: Poly, q: Poly, n: nat)
    requires Valid(p, n) && Valid(q, n)
    ensures Valid(Add(p, q), n)
    decreases |p| + |q|
  {
    if p != [] && q != [] {
      if LexGt(p[0].exps, q[0].exps) {
        AddValid(p[1..], q, n);
        AddKeys(p[1..], q);
        HeadAboveTail(p, n);
        AboveHead(q, n, p[0].exps);
        ConsValid(p[0], Add(p[1..], q), n);
      } else if p[0].exps == q[0].exps {
        AddValid(p[1..], q[1..], n);
        AddKeys(p[1..], q[1..]);
        HeadAboveTail(p, n);
        HeadAboveTail(q, n);
        var c := p[0].coeff + q[0].coeff;
        if c != 0 { ConsValid(Term(c, p[0].exps), Add(p[1..], q[1..]), n); }
      } else {
        LexTotal(p[0].exps, q[0].exps);
        AddValid(p, q[1..], n);
        AddKeys(p, q[1..]);
        HeadAboveTail(q, n);
        AboveHead(p, n, q[0].exps);
        ConsValid(q[0], Add(p, q[1..]), n);
      }
    }
  }

  /** Addition is pointwise on coefficients: the finite-map meaning of Add. */
  lemma {:induction false} AddCoef(p: Poly, q: Poly, n: nat, m: Monomial)
    requires Valid(p, n) && Valid(q, n)
    ensures Coef(Add(p, q), m) == Coef(p, m) + Coef(q, m)
    decreases |p| + |q|
  {
    if p != [] && q != [] {
      if LexGt(p[0].exps, q[0].exps) {
        AddCoef(p[1..], q, n, m);
        if m == p[0].exps {
          HeadAboveTail(p, n);
          LexIrreflexive(m);
          CoefAbsent(p[1..], m);
          AboveHead(q, n, m);
          CoefAbsent(q, m);
        }
      } else if p[0].exps == q[0].exps {
        AddCoef(p[1..], q[1..], n, m);
        if m == p[0].exps {
          HeadAboveTail(p, n);
          HeadAboveTail(q, n);
          LexIrreflexive(m);
          CoefAbsent(p[1..], m);
          CoefAbsent(q[1..], m);
        }
      } else {
        LexTotal(p[0].exps, q[0].exps);
        AddCoef(p, q[1..], n, m);
        if m == q[0].exps {
          HeadAboveTail(q, n);
          LexIrreflexive(m);
          CoefAbsent(q[1..], m);
          AboveHead(p, n, m);
          CoefAbsent(p, m);
        }
      }
    }
  }

  lemma Distribute(a: int, b: int, x: int)
    ensures (a + b) * x == a * x + b * x
  {
  }

  /** Addition is pointwise on values: Eval is additive. */
  lemma {:induction false} AddEval(p: Poly, q: Poly, pt: seq<int>)
    ensures Eval(Add(p, q), pt) == Eval(p, pt) + Eval(q, pt)
    decreases |p| + |q|
  {
    if p != [] && q != [] {
      var x, y := MonoEval(p[0].exps, pt), MonoEval(q[0].exps, pt);
      assert Eval(p, pt) == p[0].coeff * x + Eval(p[1..], pt);
      assert Eval(q, pt) == q[0].coeff * y + Eval(q[1..], pt);
      if LexGt(p[0].exps, q[0].exps) {
        var rest := Add(p[1..], q);
        assert Add(p, q) == [p[0]] + rest;
        EvalCons(p[0], rest, pt);
        AddEval(p[1..], q, pt);
      } else if p[0].exps == q[0].exps {
        var c := p[0].coeff + q[0].coeff;
        var rest := Add(p[1..], q[1..]);
        AddEval(p[1..], q[1..], pt);
        assert c * x == p[0].coeff * x + q[0].coeff * y by { Distribute(p[0].coeff, q[0].coeff, x); }
        if c == 0 {
          assert Add(p, q) == rest by { AddStepEqual(p, q); }
        } else {
          assert Add(p, q) == [Term(c, p[0].exps)] + rest by { AddStepKeep(p, q, c); }
          EvalCons(Term(c, p[0].exps), rest, pt);
        }
      } else {
        var rest := Add(p, q[1..]);
        assert Add(p, q) == [q[0]] + rest;
        EvalCons(q[0], rest, pt);
        AddEval(p, q[1..], pt);
      }
    }
  }

  lemma EvalCons(t: Term, p: Poly, pt: seq<int>)
    ensures Eval([t] + p, pt) == t.coeff * MonoEval(t.exps, pt) + Eval(p, pt)
  {
    assert ([t] + p)[1..] == p;
  }

  // ---------------------------------------------------------------------
  // Negation and scaling
  // ---------------------------------------------------------------------

  /** c * p; the zero polynomial when c is zero. */
  function Scale(c: int, p: Poly): (r: Poly)
    ensures |r| == if c == 0 then 0 else |p|
    ensures c != 0 ==> forall i :: 0 <= i < |r| ==> r[i] == Term(c * p[i].coeff, p[i].exps)
  {
    if c == 0 || p == [] then [] else [Term(c * p[0].coeff, p[0].exps)] + Scale(c, p[1..])
  }

  lemma ScaleKeys(c: int, p: Poly)
    requires c != 0
    ensures Keys(Scale(c, p)) == Keys(p)
  {
    var r := Scale(c, p);
    forall k | k in Keys(r) ensures k in Keys(p) {
      var i :| 0 <= i < |r| && r[i].exps == k;
      assert p[i].exps == k;
    }
    forall k | k in Keys(p) ensures k in Keys(r) {
      var i :| 0 <= i < |p| && p[i].exps == k;
      assert r[i].exps == k;
    }
  }

  lemma ScaleValid(c: int, p: Poly, n: nat)
    requires Valid(p, n)
    ensures Valid(Scale(c, p), n)
  {
    var r := Scale(c, p);
    if c != 0 {
      forall i | 0 <= i < |r| ensures r[i].coeff != 0 && |r[i].exps| == n {
        assert r[i] == Term(c * p[i].coeff, p[i].exps);
        NonZeroProduct(c, p[i].coeff);
      }
      forall i, j | 0 <= i < j < |r| ensures LexGt(r[i].exps, r[j].exps) {
        assert r[i].exps == p[i].exps && r[j].exps == p[j].exps;
      }
    }
  }

  lemma NonZeroProduct(a: int, b: int)
    requires a != 0 && b != 0
    ensures a * b != 0
  {
  }

  lemma {:induction false} ScaleEval(c: int, p: Poly, pt: seq<int>)
    ensures Eval(Scale(c, p), pt) == c * Eval(p, pt)
  {
    if c != 0 && p != [] {
      ScaleEval(c, p[1..], pt);
      var mv := MonoEval(p[0].exps, pt);
      assert Scale(c, p)[1..] == Scale(c, p[1..]);
      assert c * (p[0].coeff * mv + Eval(p[1..], pt)) == (c * p[0].coeff) * mv + c * Eval(p[1..], pt);
    }
  }

  /** p - q. */
  function Sub(p: Poly, q: Poly): Poly
  {
    Add(p, Scale(-1, q))
  }

  /** sign * p for a sign drawn from {1, -1}. */
  function Signed(sign: int, p: Poly): Poly
  {
    if sign == 1 then p else Scale(sign, p)
  }

  // ---------------------------------------------------------------------
  // Multiplication
  // ---------------------------------------------------------------------

  /** t * q, term by term. */
  function MulTerm(t: Term, q: Poly): (r: Poly)
    requires forall i :: 0 <= i < |q| ==> |q[i].exps| == |t.exps|
    ensures |r| == |q|
    ensures forall i :: 0 <= i < |r| ==> r[i] == Term(t.coeff * q[i].coeff, VecAdd(t.exps, q[i].exps))
  {
    if q == [] then [] else [Term(t.coeff * q[0].coeff, VecAdd(t.exps, q[0].exps))] + MulTerm(t, q[1..])
  }

  lemma MulTermValid(t: Term, q: Poly, n: nat)
    requires Valid(q, n) && t.coeff != 0 && |t.exps| == n
    ensures Valid(MulTerm(t, q), n)
  {
    var r := MulTerm(t, q);
    forall i, j | 0 <= i < j < |r| ensures LexGt(r[i].exps, r[j].exps) {
      LexMulMonomial(t.exps, q[i].exps, q[j].exps);
    }
  }

  lemma TermStep(a: int, b: int, x: int, y: int, rest: int)
    ensures (a * b) * (x * y) + a * x * rest == a * x * (b * y + rest)
  {
    assert (a * b) * (x * y) == (a * x) * (b * y);
  }

  lemma {:induction false} MulTermEval(t: Term, q: Poly, pt: seq<int>)
    requires forall i :: 0 <= i < |q| ==> |q[i].exps| == |t.exps|
    ensures Eval(MulTerm(t, q), pt) == t.coeff * MonoEval(t.exps, pt) * Eval(q, pt)
  {
    if q != [] {
      var r := MulTerm(t, q);
      assert r[1..] == MulTerm(t, q[1..]);
      MulTermEval(t, q[1..], pt);
      MonoEvalAdd(t.exps, q[0].exps, pt);
      TermStep(t.coeff, q[0].coeff, MonoEval(t.exps, pt), MonoEval(q[0].exps, pt), Eval(q[1..], pt));
    }
  }

  /** Terms of p and q all have n exponents. */
  predicate Uniform(p: Poly, n: nat)
  {
    forall i :: 0 <= i < |p| ==> |p[i].exps| == n
  }

  function Mul(p: Poly, q: Poly): Poly
  {
    if p == [] || !Uniform(q, |p[0].exps|) then []
    else Add(MulTerm(p[0], q), Mul(p[1..], q))
  }

  lemma {:induction false} MulValid(p: Poly, q: Poly, n: nat)
    requires Valid(p, n) && Valid(q, n)
    ensures Valid(Mul(p, q), n)
  {
    if p != [] {
      MulTermValid(p[0], q, n);
      MulValid(p[1..], q, n);
      AddValid(MulTerm(p[0], q), Mul(p[1..], q), n);
    }
  }

  /** Multiplication agrees with the product of values at every point. */
  lemma {:induction false} MulEval(p: Poly, q: Poly, n: nat, pt: seq<int>)
    requires Uniform(p, n) && Uniform(q, n)
    ensures Eval(Mul(p, q), pt) == Eval(p, pt) * Eval(q, pt)
  {
    if p != [] {
      MulEval(p[1..], q, n, pt);
      MulTermEval(p[0], q, pt);
      AddEval(MulTerm(p[0], q), Mul(p[1..], q), pt);
      Distribute(p[0].coeff * MonoEval(p[0].exps, pt), Eval(p[1..], pt), Eval(q, pt));
    }
  }

  lemma MulTermKeys(t: Term, q: Poly)
    requires Uniform(q, |t.exps|)
    ensures forall k :: k in Keys(MulTerm(t, q)) ==> exists j :: 0 <= j < |q| && k == VecAdd(t.exps, q[j].exps)
  {
    var r := MulTerm(t, q);
    forall k | k in Keys(r) ensures exists j :: 0 <= j < |q| && k == VecAdd(t.exps, q[j].exps) {
      var i :| 0 <= i < |r| && r[i].exps == k;
    }
  }

  /** Every monomial of p * q below the head of p lies below head(p) * head(q). */
  lemma {:induction false} MulKeysBelow(p: Poly, q: Poly, n: nat, top: Monomial)
    requires Valid(p, n) && Valid(q, n) && q != [] && |top| == n
    requires forall k :: k in Keys(p) ==> LexGt(top, k)
    ensures forall k :: k in Keys(Mul(p, q)) ==> LexGt(VecAdd(top, q[0].exps), k)
  {
    if p != [] {
      KeysTail(p);
      MulKeysBelow(p[1..], q, n, top);
      MulTermKeys(p[0], q);
      AddKeys(MulTerm(p[0], q), Mul(p[1..], q));
      forall k | k in Keys(MulTerm(p[0], q)) ensures LexGt(VecAdd(top, q[0].exps), k) {
        var j :| 0 <= j < |q| && k == VecAdd(p[0].exps, q[j].exps);
        if j > 0 { assert LexGt(q[0].exps, q[j].exps); }
        LexAddMonotone(top, p[0].exps, q[0].exps, q[j].exps);
      }
    }
  }

  /** The product of two non-zero polynomials is non-zero; its leading term is the product of the leading terms. */
  lemma MulLeading(p: Poly, q: Poly, n: nat)
    requires Valid(p, n) && Valid(q, n) && p != [] && q != []
    ensures Mul(p, q) != []
    ensures Mul(p, q)[0] == Term(p[0].coeff * q[0].coeff, VecAdd(p[0].exps, q[0].exps))
  {
    var head := MulTerm(p[0], q);
    var rest := Mul(p[1..], q);
    HeadAboveTail(p, n);
    MulKeysBelow(p[1..], q, n, p[0].exps);
    if rest != [] {
      assert rest[0].exps in Keys(rest);
    }
  }

  // ---------------------------------------------------------------------
  // Degree and coefficient statistics
  // ---------------------------------------------------------------------

  /** Total degree: the largest total degree among the terms (0 for the zero polynomial). */
  function TotalDegree(p: Poly): (d: nat)
    ensures forall i :: 0 <= i < |p| ==> Degree(p[i].exps) <= d
    ensures p != [] ==> exists i :: 0 <= i < |p| && Degree(p[i].exps) == d
    ensures p == [] ==> d == 0
  {
    if p == [] then 0
    else
      var rest := TotalDegree(p[1..]);
      var here := Degree(p[0].exps);
      if rest > here then (assert p[1..] != []; var i :| 0 <= i < |p[1..]| && Degree(p[1..][i].exps) == rest; assert p[i + 1] == p[1..][i]; rest) else here
  }

  // ---------------------------------------------------------------------
  // One-variable polynomials placed among n variables
  // ---------------------------------------------------------------------

  lemma {:induction false} DegreePower(i: nat, n: nat, k: nat)
    requires i < n
    ensures Degree(Power(i, n, k)) == k
    decreases n
  {
    if i == 0 {
      assert Power(i, n, k)[1..] == Zeros(n - 1);
    } else {
      assert Power(i, n, k)[1..] == Power(i - 1, n - 1, k);
      DegreePower(i - 1, n - 1, k);
    }
  }

  lemma {:induction false} LexPower(i: nat, n: nat, a: nat, b: nat)
    requires i < n && a > b
    ensures LexGt(Power(i, n, a), Power(i, n, b))
    decreases n
  {
    if i > 0 {
      assert Power(i, n, a)[1..] == Power(i - 1, n - 1, a);
      assert Power(i, n, b)[1..] == Power(i - 1, n - 1, b);
      LexPower(i - 1, n - 1, a, b);
    }
  }

  lemma {:induction false} MonoEvalPower(i: nat, n: nat, k: nat, pt: seq<int>)
    requires i < n == |pt|
    ensures MonoEval(Power(i, n, k), pt) == Pow(pt[i], k)
    decreases n
  {
    var e := Power(i, n, k);
    if i == 0 {
      assert e[1..] == Zeros(n - 1);
      ZerosEval(n - 1, pt[1..]);
    } else {
      assert e[1..] == Power(i - 1, n - 1, k);
      MonoEvalPower(i - 1, n - 1, k, pt[1..]);
    }
  }

  lemma {:induction false} ZerosEval(n: nat, pt: seq<int>)
    ensures MonoEval(Zeros(n), pt) == 1
  {
    if n > 0 && pt != [] {
      assert Zeros(n)[1..] == Zeros(n - 1);
      ZerosEval(n - 1, pt[1..]);
    }
  }

  /** The one-variable polynomial p, as a polynomial in n variables whose i-th variable is p's. */
  function Embed(p: Poly, i: nat, n: nat): (q: Poly)
    requires i < n && Uniform(p, 1)
    ensures |q| == |p|
    ensures forall j :: 0 <= j < |q| ==> q[j] == Term(p[j].coeff, Power(i, n, p[j].exps[0]))
  {
    if p == [] then [] else [Term(p[0].coeff, Power(i, n, p[0].exps[0]))] + Embed(p[1..], i, n)
  }

  lemma EmbedValid(p: Poly, i: nat, n: nat)
    requires Valid(p, 1) && i < n
    ensures Valid(Embed(p, i, n), n)
  {
    var q := Embed(p, i, n);
    forall j, k | 0 <= j < k < |q| ensures LexGt(q[j].exps, q[k].exps) {
      assert LexGt(p[j].exps, p[k].exps);
      assert p[j].exps[1..] == [] && p[k].exps[1..] == [];
      assert !LexGt(p[j].exps[1..], p[k].exps[1..]);
      LexPower(i, n, p[j].exps[0], p[k].exps[0]);
    }
  }

  lemma {:induction false} EmbedEval(p: Poly, i: nat, n: nat, pt: seq<int>)
    requires Uniform(p, 1) && i < n == |pt|
    ensures Eval(Embed(p, i, n), pt) == Eval(p, [pt[i]])
  {
    if p != [] {
      var q := Embed(p, i, n);
      assert q[1..] == Embed(p[1..], i, n);
      EmbedEval(p[1..], i, n, pt);
      MonoEvalPower(i, n, p[0].exps[0], pt);
      var e := p[0].exps;
      assert e[1..] == [];
      assert MonoEval(e, [pt[i]]) == Pow(pt[i], e[0]) * MonoEval(e[1..], [pt[i]][1..]);
    }
  }

  /** Placing keeps every term's degree. */
  lemma EmbedDegrees(p: Poly, i: nat, n: nat)
    requires Uniform(p, 1) && i < n
    ensures forall j :: 0 <= j < |p| ==> Degree(Embed(p, i, n)[j].exps) == Degree(p[j].exps)
  {
    forall j | 0 <= j < |p| ensures Degree(Embed(p, i, n)[j].exps) == Degree(p[j].exps) {
      DegreePower(i, n, p[j].exps[0]);
      assert p[j].exps == [p[j].exps[0]];
    }
  }

  lemma PowerInjective(i: nat, n: nat, a: nat, b: nat)
    requires i < n && Power(i, n, a) == Power(i, n, b)
    ensures a == b
  {
    assert Power(i, n, a)[i] == a && Power(i, n, b)[i] == b;
  }

  /** Placing a one-variable exponent keeps the term order. */
  lemma PlacedOrder(i: nat, n: nat, a: Monomial, b: Monomial)
    requires i < n && |a| == 1 && |b| == 1
    ensures LexGt(a, b) <==> LexGt(Power(i, n, a[0]), Power(i, n, b[0]))
    ensures a == b <==> Power(i, n, a[0]) == Power(i, n, b[0])
  {
    assert a[1..] == [] && b[1..] == [];
    assert LexGt(a, b) <==> a[0] > b[0];
    if a[0] > b[0] {
      LexPower(i, n, a[0], b[0]);
    } else if a[0] < b[0] {
      LexPower(i, n, b[0], a[0]);
      LexAsymmetric(Power(i, n, b[0]), Power(i, n, a[0]));
    } else {
      LexIrreflexive(Power(i, n, a[0]));
    }
    assert a == [a[0]] && b == [b[0]];
    if Power(i, n, a[0]) == Power(i, n, b[0]) { PowerInjective(i, n, a[0], b[0]); }
  }

  lemma PlacedSum(i: nat, n: nat, a: nat, b: nat)
    requires i < n
    ensures VecAdd(Power(i, n, a), Power(i, n, b)) == Power(i, n, a + b)
  {
    var l, r := VecAdd(Power(i, n, a), Power(i, n, b)), Power(i, n, a + b);
    assert |l| == |r|;
    forall j | 0 <= j < n ensures l[j] == r[j] {
    }
  }

  function Placed(t: Term, i: nat, n: nat): Term
    requires i < n && |t.exps| == 1
  {
    Term(t.coeff, Power(i, n, t.exps[0]))
  }

  lemma EmbedCons(t: Term, p: Poly, i: nat, n: nat)
    requires i < n && |t.exps| == 1 && Uniform(p, 1)
    ensures Uniform([t] + p, 1)
    ensures Embed([t] + p, i, n) == [Placed(t, i, n)] + Embed(p, i, n)
  {
    assert ([t] + p)[1..] == p;
  }

  lemma EmbedSplit(p: Poly, i: nat, n: nat)
    requires i < n && Uniform(p, 1) && p != []
    ensures Embed(p, i, n) != [] && Embed(p, i, n)[0] == Placed(p[0], i, n)
    ensures Uniform(p[1..], 1) && Embed(p, i, n)[1..] == Embed(p[1..], i, n)
  {
  }

  /** Placing commutes with addition. */
  lemma {:induction false} EmbedAdd(p: Poly, q: Poly, i: nat, n: nat)
    requires Valid(p, 1) && Valid(q, 1) && i < n
    ensures Valid(Add(p, q), 1)
    ensures Embed(Add(p, q), i, n) == Add(Embed(p, i, n), Embed(q, i, n))
    decreases |p| + |q|
  {
    if p == [] || q == [] {
      AddValid(p, q, 1);
    } else {
      if LexGt(p[0].exps, q[0].exps) {
        AddValid(p[1..], q, 1);
        EmbedAdd(p[1..], q, i, n);
        EmbedAddHigher(p, q, i, n);
      } else if p[0].exps == q[0].exps {
        AddValid(p[1..], q[1..], 1);
        EmbedAdd(p[1..], q[1..], i, n);
        EmbedAddEqual(p, q, i, n);
      } else {
        AddValid(p, q[1..], 1);
        EmbedAdd(p, q[1..], i, n);
        EmbedAddLower(p, q, i, n);
      }
    }
  }

  /** One step of EmbedAdd: p leads. */
  lemma EmbedAddHigher(p: Poly, q: Poly, i: nat, n: nat)
    requires Valid(p, 1) && Valid(q, 1) && i < n && p != [] && q != []
    requires LexGt(p[0].exps, q[0].exps) && Valid(Add(p[1..], q), 1)
    requires Embed(Add(p[1..], q), i, n) == Add(Embed(p[1..], i, n), Embed(q, i, n))
    ensures Valid(Add(p, q), 1)
    ensures Embed(Add(p, q), i, n) == Add(Embed(p, i, n), Embed(q, i, n))
  {
    AddValid(p, q, 1);
    var ep, eq := Embed(p, i, n), Embed(q, i, n);
    EmbedSplit(p, i, n);
    EmbedSplit(q, i, n);
    PlacedOrder(i, n, p[0].exps, q[0].exps);
    var rest := Add(p[1..], q);
    assert Add(p, q) == [p[0]] + rest;
    EmbedCons(p[0], rest, i, n);
    assert Add(ep, eq) == [ep[0]] + Add(ep[1..], eq);
  }

  /** One step of EmbedAdd: equal leading monomials. */
  lemma EmbedAddEqual(p: Poly, q: Poly, i: nat, n: nat)
    requires Valid(p, 1) && Valid(q, 1) && i < n && p != [] && q != []
    requires p[0].exps == q[0].exps && Valid(Add(p[1..], q[1..]), 1)
    requires Embed(Add(p[1..], q[1..]), i, n) == Add(Embed(p[1..], i, n), Embed(q[1..], i, n))
    ensures Valid(Add(p, q), 1)
    ensures Embed(Add(p, q), i, n) == Add(Embed(p, i, n), Embed(q, i, n))
  {
    AddValid(p, q, 1);
    EmbedSplit(p, i, n);
    EmbedSplit(q, i, n);
    PlacedOrder(i, n, p[0].exps, q[0].exps);
    if p[0].coeff + q[0].coeff != 0 {
      EmbedAddKeep(p, q, i, n);
    } else {
      EmbedAddCancel(p, q, i, n);
    }
  }

  /** Equal leading monomials whose coefficients do not cancel. */
  lemma EmbedAddKeep(p: Poly, q: Poly, i: nat, n: nat)
    requires Valid(p, 1) && Valid(q, 1) && i < n && p != [] && q != []
    requires Valid(Add(p, q), 1) && Valid(Add(p[1..], q[1..]), 1)
    requires p[0].exps == q[0].exps && p[0].coeff + q[0].coeff != 0
    requires Embed(Add(p[1..], q[1..]), i, n) == Add(Embed(p[1..], i, n), Embed(q[1..], i, n))
    requires Embed(p, i, n)[0] == Placed(p[0], i, n) && Embed(q, i, n)[0] == Placed(q[0], i, n)
    requires Embed(p, i, n)[1..] == Embed(p[1..], i, n) && Embed(q, i, n)[1..] == Embed(q[1..], i, n)
    ensures Embed(Add(p, q), i, n) == Add(Embed(p, i, n), Embed(q, i, n))
  {
    var ep, eq := Embed(p, i, n), Embed(q, i, n);
    var c := p[0].coeff + q[0].coeff;
    var t := Term(c, p[0].exps);
    var rest := Add(p[1..], q[1..]);
    assert ep[0].exps == eq[0].exps && c == ep[0].coeff + eq[0].coeff;
    calc {
      Embed(Add(p, q), i, n);
    == { AddStepEqual(p, q); }
      Embed([t] + rest, i, n);
    == { EmbedCons(t, rest, i, n); }
      [Placed(t, i, n)] + Embed(rest, i, n);
    ==
      [Term(c, ep[0].exps)] + Add(ep[1..], eq[1..]);
    == { AddStepKeep(ep, eq, c); }
      Add(ep, eq);
    }
  }

  /** Equal leading monomials whose coefficients cancel. */
  lemma EmbedAddCancel(p: Poly, q: Poly, i: nat, n: nat)
    requires Valid(p, 1) && Valid(q, 1) && i < n && p != [] && q != []
    requires Valid(Add(p, q), 1) && Valid(Add(p[1..], q[1..]), 1)
    requires p[0].exps == q[0].exps && p[0].coeff + q[0].coeff == 0
    requires Embed(Add(p[1..], q[1..]), i, n) == Add(Embed(p[1..], i, n), Embed(q[1..], i, n))
    requires Embed(p, i, n)[0] == Placed(p[0], i, n) && Embed(q, i, n)[0] == Placed(q[0], i, n)
    requires Embed(p, i, n)[1..] == Embed(p[1..], i, n) && Embed(q, i, n)[1..] == Embed(q[1..], i, n)
    ensures Embed(Add(p, q), i, n) == Add(Embed(p, i, n), Embed(q, i, n))
  {
    AddStepEqual(p, q);
    AddStepEqual(Embed(p, i, n), Embed(q, i, n));
  }

  /** One step of EmbedAdd: q leads. */
  lemma EmbedAddLower(p: Poly, q: Poly, i: nat, n: nat)
    requires Valid(p, 1) && Valid(q, 1) && i < n && p != [] && q != []
    requires !LexGt(p[0].exps, q[0].exps) && p[0].exps != q[0].exps && Valid(Add(p, q[1..]), 1)
    requires Embed(Add(p, q[1..]), i, n) == Add(Embed(p, i, n), Embed(q[1..], i, n))
    ensures Valid(Add(p, q), 1)
    ensures Embed(Add(p, q), i, n) == Add(Embed(p, i, n), Embed(q, i, n))
  {
    AddValid(p, q, 1);
    var ep, eq := Embed(p, i, n), Embed(q, i, n);
    EmbedSplit(p, i, n);
    EmbedSplit(q, i, n);
    PlacedOrder(i, n, p[0].exps, q[0].exps);
    var rest := Add(p, q[1..]);
    assert Add(p, q) == [q[0]] + rest;
    EmbedCons(q[0], rest, i, n);
    assert Add(ep, eq) == [eq[0]] + Add(ep, eq[1..]);
  }

  lemma EmbedMulTerm(t: Term, q: Poly, i: nat, n: nat)
    requires Valid(q, 1) && i < n && |t.exps| == 1
    ensures Uniform(Embed(q, i, n), n)
    ensures Embed(MulTerm(t, q), i, n) == MulTerm(Placed(t, i, n), Embed(q, i, n))
  {
    var tq := MulTerm(t, q);
    var eq := Embed(q, i, n);
    var pt := Placed(t, i, n);
    var l, r := Embed(tq, i, n), MulTerm(pt, eq);
    assert |l| == |r| == |q|;
    forall j | 0 <= j < |q| ensures l[j] == r[j] {
      assert l[j] == Placed(tq[j], i, n);
      assert tq[j] == Term(t.coeff * q[j].coeff, VecAdd(t.exps, q[j].exps));
      assert eq[j] == Placed(q[j], i, n);
      assert r[j] == Term(pt.coeff * eq[j].coeff, VecAdd(pt.exps, eq[j].exps));
      PlacedProduct(t, q[j], i, n);
    }
  }

  /** Placing one product of terms is the product of the placed terms. */
  lemma PlacedProduct(t: Term, s: Term, i: nat, n: nat)
    requires i < n && |t.exps| == 1 && |s.exps| == 1
    ensures var pt, ps := Placed(t, i, n), Placed(s, i, n);
      Placed(Term(t.coeff * s.coeff, VecAdd(t.exps, s.exps)), i, n)
        == Term(pt.coeff * ps.coeff, VecAdd(pt.exps, ps.exps))
  {
    var a, b := t.exps[0], s.exps[0];
    var c := t.coeff * s.coeff;
    var e := VecAdd(t.exps, s.exps);
    assert e[0] == a + b;
    assert Placed(Term(c, e), i, n) == Term(c, Power(i, n, a + b));
    PlacedSum(i, n, a, b);
  }

  /** Placing commutes with multiplication. */
  lemma {:induction false} EmbedMul(p: Poly, q: Poly, i: nat, n: nat)
    requires Valid(p, 1) && Valid(q, 1) && i < n
    ensures Valid(Mul(p, q), 1)
    ensures Embed(Mul(p, q), i, n) == Mul(Embed(p, i, n), Embed(q, i, n))
  {
    MulValid(p, q, 1);
    if p != [] {
      var ep, eq := Embed(p, i, n), Embed(q, i, n);
      var head := MulTerm(p[0], q);
      var rest := Mul(p[1..], q);
      assert Mul(p, q) == Add(head, rest);
      MulTermValid(p[0], q, 1);
      MulValid(p[1..], q, 1);
      EmbedMul(p[1..], q, i, n);
      EmbedAdd(head, rest, i, n);
      EmbedMulTerm(p[0], q, i, n);
      EmbedSplit(p, i, n);
      assert Mul(ep, eq) == Add(MulTerm(ep[0], eq), Mul(ep[1..], eq));
    }
  }

  // ---------------------------------------------------------------------
  // Linear polynomials
  // ---------------------------------------------------------------------

  /** a * v_i + b among n variables. */
  function Linear(a: int, i: nat, n: nat, b: int): (p: Poly)
    requires i < n
    ensures Valid(p, n)
  {
    AddValid(VarPower(a, i, n, 1), Constant(b, n), n);
    Add(VarPower(a, i, n, 1), Constant(b, n))
  }

  lemma LexUnitOverConstant(i: nat, n: nat)
    requires i < n
    ensures LexGt(Power(i, n, 1), Zeros(n))
    decreases n
  {
    if i > 0 {
      assert Power(i, n, 1)[1..] == Power(i - 1, n - 1, 1);
      assert Zeros(n)[1..] == Zeros(n - 1);
      LexUnitOverConstant(i - 1, n - 1);
    }
  }

  /** A linear polynomial with a non-zero slope leads with its variable term. */
  lemma LinearLeading(a: int, i: nat, n: nat, b: int)
    requires i < n && a != 0
    ensures Linear(a, i, n, b) != []
    ensures Linear(a, i, n, b)[0] == Term(a, Power(i, n, 1))
  {
    LexUnitOverConstant(i, n);
  }
  // ---------------------------------------------------------------------
  // Leading terms and values of the small shapes the builders use
  // ---------------------------------------------------------------------

  lemma {:induction false} PowerZero(i: nat, n: nat)
    requires i < n
    ensures Power(i, n, 0) == Zeros(n)
    decreases n
  {
    if i > 0 { PowerZero(i - 1, n - 1); }
  }

  /** v_i outranks v_j when i comes first in the variable order. */
  lemma {:induction false} LexUnitOrder(i: nat, j: nat, n: nat)
    requires i < j < n
    ensures LexGt(Power(i, n, 1), Power(j, n, 1))
    decreases n
  {
    if i > 0 {
      assert Power(i, n, 1)[1..] == Power(i - 1, n - 1, 1);
      assert Power(j, n, 1)[1..] == Power(j - 1, n - 1, 1);
      LexUnitOrder(i - 1, j - 1, n - 1);
    }
  }

  /** A sum whose first summand leads strictly keeps that leading term. */
  lemma AddHeadHigher(p: Poly, q: Poly)
    requires p != [] && (q == [] || LexGt(p[0].exps, q[0].exps))
    ensures Add(p, q) != [] && Add(p, q)[0] == p[0]
  {
  }

  /** A sum whose second summand leads strictly keeps that leading term. */
  lemma AddHeadLower(p: Poly, q: Poly)
    requires q != [] && (p == [] || LexGt(q[0].exps, p[0].exps))
    ensures Add(p, q) != [] && Add(p, q)[0] == q[0]
  {
    if p != [] {
      LexAsymmetric(q[0].exps, p[0].exps);
      LexIrreflexive(p[0].exps);
    }
  }

  /** Leading terms on the same monomial add, unless they cancel. */
  lemma AddHeadEqual(p: Poly, q: Poly)
    requires p != [] && q != [] && p[0].exps == q[0].exps && p[0].coeff + q[0].coeff != 0
    ensures Add(p, q) != [] && Add(p, q)[0] == Term(p[0].coeff + q[0].coeff, p[0].exps)
  {
    LexIrreflexive(p[0].exps);
  }

  /** c * v_i^k at a point. */
  lemma VarPowerEval(c: int, i: nat, n: nat, k: nat, pt: seq<int>)
    requires i < n == |pt|
    ensures Eval(VarPower(c, i, n, k), pt) == c * Pow(pt[i], k)
  {
    MonoEvalPower(i, n, k, pt);
  }

  /** The bare variable v_i at a point. */
  lemma VarEval(i: nat, n: nat, pt: seq<int>)
    requires i < n == |pt|
    ensures Eval(VarPower(1, i, n, 1), pt) == pt[i]
  {
    VarPowerEval(1, i, n, 1, pt);
    assert Pow(pt[i], 1) == pt[i] * Pow(pt[i], 0);
  }

  /** a * v_i + b at a point. */
  lemma LinearEval(a: int, i: nat, n: nat, b: int, pt: seq<int>)
    requires i < n == |pt|
    ensures Eval(Linear(a, i, n, b), pt) == a * pt[i] + b
  {
    AddEval(VarPower(a, i, n, 1), Constant(b, n), pt);
    UnitEval(a, i, n, pt);
    ConstantEval(b, n, pt);
  }

  /** a * v_i at a point. */
  lemma UnitEval(a: int, i: nat, n: nat, pt: seq<int>)
    requires i < n == |pt|
    ensures Eval(VarPower(a, i, n, 1), pt) == a * pt[i]
  {
    VarPowerEval(a, i, n, 1, pt);
    assert Pow(pt[i], 1) == pt[i] * Pow(pt[i], 0);
  }

  /** A constant at a point. */
  lemma ConstantEval(c: int, n: nat, pt: seq<int>)
    ensures Eval(Constant(c, n), pt) == c
  {
    ZerosEval(n, pt);
  }

  /** Every monomial of a linear polynomial in v_i lies below v_i^k for k >= 2. */
  lemma LinearBelow(a: int, i: nat, n: nat, b: int, k: nat)
    requires i < n && k >= 2
    ensures forall m :: m in Keys(Linear(a, i, n, b)) ==> LexGt(Power(i, n, k), m)
  {
    AddKeys(VarPower(a, i, n, 1), Constant(b, n));
    LexPower(i, n, k, 1);
    LexPower(i, n, k, 0);
    PowerZero(i, n);
  }

  /** The product of two linear factors in v_i leads with the product of their slopes times v_i^2. */
  lemma LinearProductLeading(a1: int, b1: int, a2: int, b2: int, i: nat, n: nat)
    requires a1 != 0 && a2 != 0 && i < n
    ensures var p := Mul(Linear(a1, i, n, b1), Linear(a2, i, n, b2));
      Valid(p, n) && p != [] && p[0] == Term(a1 * a2, Power(i, n, 2))
  {
    var f1, f2 := Linear(a1, i, n, b1), Linear(a2, i, n, b2);
    MulValid(f1, f2, n);
    LinearLeading(a1, i, n, b1);
    LinearLeading(a2, i, n, b2);
    MulLeading(f1, f2, n);
    PlacedSum(i, n, 1, 1);
  }

  /** a * v_i^2 + b * v_i + c among n variables. */
  function Quadratic(a: int, b: int, c: int, i: nat, n: nat): (p: Poly)
    requires i < n
    ensures Valid(p, n)
  {
    AddValid(VarPower(a, i, n, 2), Linear(b, i, n, c), n);
    Add(VarPower(a, i, n, 2), Linear(b, i, n, c))
  }

  lemma QuadraticLeading(a: int, b: int, c: int, i: nat, n: nat)
    requires a != 0 && i < n
    ensures Quadratic(a, b, c, i, n) != [] && Quadratic(a, b, c, i, n)[0] == Term(a, Power(i, n, 2))
  {
    var l := Linear(b, i, n, c);
    LinearBelow(b, i, n, c, 2);
    if l != [] { assert l[0].exps in Keys(l); }
    AddHeadHigher(VarPower(a, i, n, 2), l);
  }

  /** a * v_i + b * v_j + c among n variables. */
  function Bilinear(a: int, i: nat, b: int, j: nat, c: int, n: nat): (p: Poly)
    requires i < n && j < n
    ensures Valid(p, n)
  {
    AddValid(VarPower(a, i, n, 1), Linear(b, j, n, c), n);
    Add(VarPower(a, i, n, 1), Linear(b, j, n, c))
  }

  /** With non-zero slopes, a * v_i + b * v_j + c leads with whichever variable comes first. */
  lemma BilinearLeading(a: int, i: nat, b: int, j: nat, c: int, n: nat)
    requires a != 0 && b != 0 && i < n && j < n && i != j
    ensures var p := Bilinear(a, i, b, j, c, n);
      p != [] && p[0] == if i < j then Term(a, Power(i, n, 1)) else Term(b, Power(j, n, 1))
  {
    var v := VarPower(a, i, n, 1);
    LinearLeading(b, j, n, c);
    if i < j {
      LexUnitOrder(i, j, n);
      AddHeadHigher(v, Linear(b, j, n, c));
    } else {
      LexUnitOrder(j, i, n);
      AddHeadLower(v, Linear(b, j, n, c));
    }
  }
}
