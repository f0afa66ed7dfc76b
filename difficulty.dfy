/**
 * compute_difficulty: a rough 0..100 score from the shape of the answer
 * polynomial (total degree, number of terms, largest coefficient, number
 * of variables used, fractional coefficients) with weights and flat
 * bonuses chosen by topic.  The arithmetic is kept exactly, in tenths:
 * the decimal weights 1.2 and 1.5 are 12 and 15 tenths.
 */
module Difficulty {
  import opened Polynomials
  import opened Levels

  /** What the score looks at. */
  datatype Features = Features(degree: nat, terms: nat, maxCoeff: nat, vars: nat, fraction: bool)

  function Min(a: int, b: int): int { if a <= b then a else b }

  /** |c| of the largest coefficient, at least 1 (max_coeff starts at 1.0). */
  function MaxCoeff(p: Poly): (m: nat)
    ensures m >= 1
    ensures forall i :: 0 <= i < |p| ==> -(m as int) <= p[i].coeff <= m
    ensures m == 1 || exists i :: 0 <= i < |p| && (p[i].coeff == m || p[i].coeff == -(m as int))
  {
    if p == [] then 1
    else
      var rest := MaxCoeff(p[1..]);
      var c := if p[0].coeff < 0 then -p[0].coeff else p[0].coeff;
      if c > rest then c
      else
        assert rest == 1 || exists i :: 1 <= i < |p| && (p[i].coeff == rest || p[i].coeff == -(rest as int)) by {
          if rest != 1 {
            var k :| 0 <= k < |p[1..]| && (p[1..][k].coeff == rest || p[1..][k].coeff == -(rest as int));
            assert p[k + 1] == p[1..][k];
          }
        }
        rest
  }

  /** Variable i occurs with a positive exponent in some term. */
  predicate Uses(p: Poly, i: nat)
  {
    exists k :: 0 <= k < |p| && i < |p[k].exps| && p[k].exps[i] > 0
  }

  /** The indices, below n, of the variables that occur in p. */
  ghost function UsedSet(p: Poly, n: nat): set<nat>
  {
    set i: nat | i < n && Uses(p, i)
  }

  /** The number of the n problem variables that occur in p. */
  function UsedCount(p: Poly, n: nat): (c: nat)
    ensures c == |UsedSet(p, n)| && c <= n
  {
    if n == 0 then
      assert UsedSet(p, 0) == {};
      0
    else
      var rest := UsedCount(p, n - 1);
      assert UsedSet(p, n) == UsedSet(p, n - 1) + (if Uses(p, n - 1) then {n - 1} else {});
      assert n - 1 !in UsedSet(p, n - 1);
      rest + if Uses(p, n - 1) then 1 else 0
  }

  /**
   * The features the score reads off a polynomial in n variables.  The
   * variables counted are the ones that occur (x alone when none does);
   * the zero polynomial counts as a single constant term, as a polynomial
   * with no terms still lists one zero term; coefficients are integers,
   * so none is fractional.
   */
  function FeaturesOf(p: Poly, n: nat): (f: Features)
    ensures f.degree == TotalDegree(p)
    ensures f.terms == if p == [] then 1 else |p|
    ensures f.maxCoeff >= 1 && (forall i :: 0 <= i < |p| ==> -(f.maxCoeff as int) <= p[i].coeff <= f.maxCoeff)
    ensures f.maxCoeff == 1 || exists i :: 0 <= i < |p| && (p[i].coeff == f.maxCoeff || p[i].coeff == -(f.maxCoeff as int))
    ensures f.vars == if UsedSet(p, n) == {} then 1 else |UsedSet(p, n)|
    ensures 1 <= f.vars && (n >= 1 ==> f.vars <= n)
    ensures !f.fraction
  {
    var used := UsedCount(p, n);
    Features(TotalDegree(p), if p == [] then 1 else |p|, MaxCoeff(p), if used == 0 then 1 else used, false)
  }

  /** Per-topic weights, in tenths: degree, term count, coefficient, base bonus. */
  datatype Weights = Weights(degree: nat, terms: nat, coeff: nat, base: nat)

  /**
   * The weights of one topic: a degree weighs more than a term, a term more
   * than a unit of coefficient; only add_sub and poly_ops have a base bonus.
   */
  function WeightsOf(topic: Topic): (w: Weights)
    ensures w.degree > w.terms > w.coeff > 0
    ensures w.base > 0 <==> topic == AddSub || topic == PolyOps
  {
    match topic
    case AddSub => Weights(60, 30, 12, 50)
    case PolyOps => Weights(80, 40, 15, 40)
    case _ => Weights(150, 60, 20, 0)
  }

  /** The flat bonuses each topic adds on top of the weighted sum, in tenths. */
  function TopicBonus(f: Features, topic: Topic): (b: nat)
    ensures b <= 440
    ensures topic == Factorization ==> b >= 100
    ensures f.degree < 3 && f.terms < 6 && f.vars < 2 ==>
      b == match topic case AddSub => 0 case PolyOps => 0 case Factorization => 100 case MulDiv => 50 case MixedOps => 80
  {
    match topic
    case AddSub =>
      (if f.degree >= 3 then 180 else 0) + (if f.degree >= 4 then 80 else 0)
      + (if f.terms >= 6 then 60 else 0) + (if f.vars >= 2 then 120 else 0)
    case PolyOps => (if f.terms >= 6 then 80 else 0) + (if f.degree >= 3 then 60 else 0)
    case Factorization => 100 + (if f.degree >= 3 then 80 else 0) + (if f.vars >= 2 then 50 else 0)
    case MulDiv => 50
    case MixedOps => 80
  }

  /** The unclamped score in tenths. */
  function Raw(f: Features, topic: Topic): (r: nat)
    ensures var w := WeightsOf(topic); r >= w.base + f.degree * w.degree + f.terms * w.terms + TopicBonus(f, topic)
  {
    var w := WeightsOf(topic);
    w.base + f.degree * w.degree + f.terms * w.terms + Min(f.maxCoeff, 10) * w.coeff
    + (if f.vars > 1 then (f.vars - 1) * 80 else 0)
    + (if f.fraction then 60 else 0)
    + TopicBonus(f, topic)
  }

  /** max(0.0, min(100.0, score)) in tenths. */
  function Clamp(s: int): (c: int)
    ensures 0 <= c <= 1000
    ensures 0 <= s <= 1000 ==> c == s
  {
    if s < 0 then 0 else if s > 1000 then 1000 else s
  }

  /**
   * round(s / 10) for s >= 0: the result is within half a unit of s / 10,
   * and at exactly half a unit it is the even neighbour.
   */
  function RoundTenths(s: nat): (r: nat)
    ensures 10 * r - 5 <= s <= 10 * r + 5
    ensures s == 10 * r + 5 || s == 10 * r - 5 ==> r % 2 == 0
  {
    var q, m := s / 10, s % 10;
    if m < 5 then q else if m > 5 then q + 1 else if q % 2 == 0 then q else q + 1
  }

  /** The score: the clamped raw score, rounded to a whole number. */
  function Score(f: Features, topic: Topic): (s: nat)
    ensures s <= 100
  {
    RoundTenths(Clamp(Raw(f, topic)))
  }

  /** compute_difficulty of the answer polynomial p in n variables. */
  function ComputeDifficulty(p: Poly, n: nat, topic: Topic): (s: nat)
    ensures s <= 100
  {
    Score(FeaturesOf(p, n), topic)
  }

  // ---------------------------------------------------------------------
  // Properties
  // ---------------------------------------------------------------------

  /** Rounding never reverses an order. */
  lemma RoundMonotone(s: nat, t: nat)
    requires s <= t
    ensures RoundTenths(s) <= RoundTenths(t)
  {
  }

  /** The score of a shape that differs only in a larger raw score is no smaller. */
  lemma ScoreMonotone(f: Features, g: Features, topic: Topic)
    requires Raw(f, topic) <= Raw(g, topic)
    ensures Score(f, topic) <= Score(g, topic)
  {
    RoundMonotone(Clamp(Raw(f, topic)), Clamp(Raw(g, topic)));
  }

  /** The coefficient contributes min(max_coeff, 10) times the topic's coefficient weight. */
  lemma CoeffContribution(f: Features, topic: Topic)
    ensures Raw(f, topic) == Raw(f.(maxCoeff := 0), topic) + Min(f.maxCoeff, 10) * WeightsOf(topic).coeff
  {
  }

  /** A fractional coefficient adds 6 points. */
  lemma FractionBonus(f: Features, topic: Topic)
    ensures Raw(f.(fraction := true), topic) == Raw(f.(fraction := false), topic) + 60
  {
  }

  /**
   * One more variable adds 8 points, plus the topic's bonus for a second
   * variable (12 for add_sub, 5 for factorization) when it is the second.
   */
  lemma VariableBonus(f: Features, v: nat, topic: Topic)
    requires v >= 1
    ensures Raw(f.(vars := v + 1), topic) == Raw(f.(vars := v), topic) + 80
      + (if v == 1 && topic == AddSub then 120 else if v == 1 && topic == Factorization then 50 else 0)
  {
  }

  /** With everything else fixed, a higher degree never lowers the score. */
  lemma DegreeMonotone(f: Features, d: nat, topic: Topic)
    requires f.degree <= d
    ensures Raw(f, topic) <= Raw(f.(degree := d), topic)
    ensures Score(f, topic) <= Score(f.(degree := d), topic)
  {
    var g := f.(degree := d);
    assert f.degree * WeightsOf(topic).degree <= d * WeightsOf(topic).degree;
    assert TopicBonus(f, topic) <= TopicBonus(g, topic);
    ScoreMonotone(f, g, topic);
  }

  /** With everything else fixed, more terms never lower the score. */
  lemma TermsMonotone(f: Features, t: nat, topic: Topic)
    requires f.terms <= t
    ensures Raw(f, topic) <= Raw(f.(terms := t), topic)
    ensures Score(f, topic) <= Score(f.(terms := t), topic)
  {
    var g := f.(terms := t);
    assert f.terms * WeightsOf(topic).terms <= t * WeightsOf(topic).terms;
    assert TopicBonus(f, topic) <= TopicBonus(g, topic);
    ScoreMonotone(f, g, topic);
  }

  /** Below the caps the score is the raw score rounded. */
  lemma ScoreUnclamped(f: Features, topic: Topic)
    requires Raw(f, topic) <= 1000
    ensures Score(f, topic) == RoundTenths(Raw(f, topic))
  {
  }
}
