/**
 * build_add_sub_expression: the sum and difference of three to five
 * polynomials in parentheses, drawn again and again until the row has
 * enough monomials in common between its groups to merge, and a result of
 * the wanted size and degree.  The thresholds relax twice on the way, and
 * a pool of monomials from earlier groups is fed into later ones so that
 * like terms appear.
 */
module AddSub {
  import opened Polynomials
  import opened Draws
  import opened Rendering
  import opened Display
  import opened Synth
  import opened Levels
  import opened Composing

  const MaxAttempts: nat := 160
  const GroupTries: nat := 8
  const SharedLimit: nat := 12

  function Min(a: nat, b: nat): nat { if a <= b then a else b }

  /** max(lo, x). */
  function AtLeast(lo: nat, x: int): nat { if x >= lo then x else lo }

  // ---------------------------------------------------------------------
  // Settings and thresholds
  // ---------------------------------------------------------------------

  /** The per-tier settings. */
  datatype Config = Config(groupLo: nat, groupHi: nat, degrees: seq<int>, coeffLo: int, coeffHi: int,
                           minMerge: nat, minResult: nat, minDegree: nat, maxResult: nat)

  function ConfigOf(tier: Tier): (c: Config)
    ensures 3 <= c.groupLo <= c.groupHi <= 5 && |c.degrees| > 0 && c.coeffLo <= c.coeffHi
  {
    match tier
    case Basic => Config(3, 4, [1, 2], -4, 4, 2, 3, 1, 5)
    case Intermediate => Config(3, 5, [2, 3], -7, 7, 3, 4, 2, 7)
    case Advanced => Config(4, 5, [2, 4], -8, 8, 4, 5, 2, 9)
  }

  /** The three thresholds a row is held to: merge targets, result terms, result degree. */
  datatype Thresholds = Thresholds(merge: nat, result: nat, degree: nat)

  /** One relaxation: each threshold one lower, down to 1, 2 and 1; basic drops the degree to 1. */
  function Relax(tier: Tier, th: Thresholds): (r: Thresholds)
    ensures r.merge >= 1 && r.result >= 2 && r.degree >= 1
    ensures th.merge >= 1 ==> r.merge <= th.merge && (th.merge > 1 ==> r.merge == th.merge - 1)
    ensures th.result >= 2 ==> r.result <= th.result && (th.result > 2 ==> r.result == th.result - 1)
    ensures tier == Basic ==> r.degree == 1
    ensures tier != Basic && th.degree >= 1 ==> r.degree <= th.degree && (th.degree > 1 ==> r.degree == th.degree - 1)
  {
    Thresholds(AtLeast(1, th.merge - 1), AtLeast(2, th.result - 1),
               if tier == Basic then 1 else AtLeast(1, th.degree - 1))
  }

  function Initial(tier: Tier): Thresholds
  {
    var c := ConfigOf(tier);
    Thresholds(c.minMerge, c.minResult, c.minDegree)
  }

  /** The thresholds in force at attempt a, counted from 1: relaxed at 80 and again at 120. */
  function ThresholdsAt(tier: Tier, a: nat): (th: Thresholds)
    ensures th.merge >= 1 && th.result >= 2 && th.degree >= 1
    ensures a < 80 ==> th == Initial(tier)
  {
    var t0 := Initial(tier);
    if a >= 120 then Relax(tier, Relax(tier, t0)) else if a >= 80 then Relax(tier, t0) else t0
  }

  /** Later attempts never ask for more. */
  lemma ThresholdsMonotone(tier: Tier, a: nat, b: nat)
    requires a <= b
    ensures var s, t := ThresholdsAt(tier, a), ThresholdsAt(tier, b);
      t.merge <= s.merge && t.result <= s.result && t.degree <= s.degree
  {
  }

  // ---------------------------------------------------------------------
  // Counting monomials across groups
  // ---------------------------------------------------------------------

  /** monom_counts, a counter keyed by exponent vector. */
  type Counts = map<Monomial, nat>

  function Get(counts: Counts, m: Monomial): nat
  {
    if m in counts then counts[m] else 0
  }

  /** The number of the groups in which m carries a coefficient. */
  function Occurrences(groups: seq<Poly>, m: Monomial): (k: nat)
    ensures k <= |groups|
  {
    if groups == [] then 0
    else Occurrences(groups[..|groups| - 1], m) + if m in Keys(groups[|groups| - 1]) then 1 else 0
  }

  /** The counter holds, for every monomial, the number of groups it occurs in. */
  ghost predicate Tallies(counts: Counts, groups: seq<Poly>)
  {
    forall m :: Get(counts, m) == Occurrences(groups, m)
  }

  /** The monomials of all the groups. */
  function AllKeys(groups: seq<Poly>): set<Monomial>
  {
    if groups == [] then {} else AllKeys(groups[..|groups| - 1]) + Keys(groups[|groups| - 1])
  }

  lemma {:induction false} OccursInKeys(groups: seq<Poly>, m: Monomial)
    requires Occurrences(groups, m) >= 1
    ensures m in AllKeys(groups)
  {
    var init := groups[..|groups| - 1];
    if m !in Keys(groups[|groups| - 1]) {
      OccursInKeys(init, m);
    }
  }

  /** The monomials that occur in two groups or more. */
  function MergeSet(groups: seq<Poly>): (s: set<Monomial>)
    ensures forall m :: m in s <==> Occurrences(groups, m) >= 2
  {
    forall m | Occurrences(groups, m) >= 2 ensures m in AllKeys(groups) {
      OccursInKeys(groups, m);
    }
    set m | m in AllKeys(groups) && Occurrences(groups, m) >= 2
  }

  /** The merge targets: the monomials counted more than once. */
  function MergeTargets(counts: Counts): set<Monomial>
  {
    set m | m in counts.Keys && counts[m] > 1
  }

  /** Counted from the counter, the merge targets are the monomials two groups share. */
  lemma MergeTargetsAre(counts: Counts, groups: seq<Poly>)
    requires Tallies(counts, groups)
    ensures MergeTargets(counts) == MergeSet(groups)
  {
    forall m ensures m in MergeTargets(counts) <==> m in MergeSet(groups) {
      assert Get(counts, m) == Occurrences(groups, m);
    }
  }

  /** m occurs in some group exactly when it is counted at least once. */
  lemma {:induction false} OnceGroup(groups: seq<Poly>, m: Monomial)
    ensures Occurrences(groups, m) >= 1 <==> exists i :: 0 <= i < |groups| && m in Keys(groups[i])
  {
    if groups != [] {
      var init := groups[..|groups| - 1];
      OnceGroup(init, m);
      if Occurrences(init, m) >= 1 {
        var i :| 0 <= i < |init| && m in Keys(init[i]);
        assert groups[i] == init[i];
      }
      if exists i :: 0 <= i < |groups| && m in Keys(groups[i]) {
        var i :| 0 <= i < |groups| && m in Keys(groups[i]);
        if i < |init| {
          assert groups[i] == init[i];
        }
      }
    }
  }

  /** m is counted twice or more exactly when two different groups contain it. */
  lemma {:induction false} TwoGroups(groups: seq<Poly>, m: Monomial)
    ensures Occurrences(groups, m) >= 2 <==>
      exists i, j :: 0 <= i < j < |groups| && m in Keys(groups[i]) && m in Keys(groups[j])
  {
    if groups != [] {
      var init := groups[..|groups| - 1];
      var last := |groups| - 1;
      TwoGroups(init, m);
      OnceGroup(init, m);
      if Occurrences(groups, m) >= 2 {
        if m in Keys(groups[last]) {
          var i :| 0 <= i < |init| && m in Keys(init[i]);
          assert groups[i] == init[i];
          assert 0 <= i < last < |groups| && m in Keys(groups[i]) && m in Keys(groups[last]);
        } else {
          var i, j :| 0 <= i < j < |init| && m in Keys(init[i]) && m in Keys(init[j]);
          assert groups[i] == init[i] && groups[j] == init[j];
        }
      }
      if exists i, j :: 0 <= i < j < |groups| && m in Keys(groups[i]) && m in Keys(groups[j]) {
        var i, j :| 0 <= i < j < |groups| && m in Keys(groups[i]) && m in Keys(groups[j]);
        assert groups[i] == init[i];
        if j < last {
          assert groups[j] == init[j];
        }
      }
    }
  }

  /** Counting one more group. */
  lemma TalliesSnoc(counts: Counts, counts': Counts, groups: seq<Poly>, p: Poly)
    requires Tallies(counts, groups)
    requires forall m :: Get(counts', m) == Get(counts, m) + if m in Keys(p) then 1 else 0
    ensures Tallies(counts', groups + [p])
  {
    assert (groups + [p])[..|groups|] == groups;
  }

  /** The monomials of a canonical polynomial are pairwise distinct, so a prefix grows by a new one. */
  lemma KeysPrefixStep(p: Poly, n: nat, k: nat)
    requires Valid(p, n) && k < |p|
    ensures p[k].exps !in Keys(p[..k])
    ensures Keys(p[..k + 1]) == Keys(p[..k]) + {p[k].exps}
  {
    if p[k].exps in Keys(p[..k]) {
      var i :| 0 <= i < k && p[..k][i].exps == p[k].exps;
      assert LexGt(p[i].exps, p[k].exps);
      LexIrreflexive(p[k].exps);
      assert false;
    }
    forall m | m in Keys(p[..k + 1]) ensures m in Keys(p[..k]) + {p[k].exps} {
      var i :| 0 <= i < k + 1 && p[..k + 1][i].exps == m;
      if i < k {
        assert p[..k][i] == p[i];
      }
    }
    forall m | m in Keys(p[..k]) ensures m in Keys(p[..k + 1]) {
      var i :| 0 <= i < k && p[..k][i].exps == m;
      assert p[..k + 1][i] == p[i];
    }
    assert p[..k + 1][k] == p[k];
  }

  /**
   * The loop over the terms of a group: each of its monomials is counted
   * once more, and listed in order as a candidate shared term.
   */
  method Tally(counts: Counts, p: Poly, ghost n: nat) returns (counts': Counts, current: seq<Monomial>)
    requires Valid(p, n)
    ensures forall m :: Get(counts', m) == Get(counts, m) + if m in Keys(p) then 1 else 0
    ensures |current| == |p| && forall i :: 0 <= i < |p| ==> current[i] == p[i].exps
  {
    counts', current := counts, [];
    for k := 0 to |p|
      invariant forall m :: Get(counts', m) == Get(counts, m) + if m in Keys(p[..k]) then 1 else 0
      invariant |current| == k && forall i :: 0 <= i < k ==> current[i] == p[i].exps
    {
      var m := p[k].exps;
      KeysPrefixStep(p, n, k);
      counts' := counts'[m := Get(counts', m) + 1];
      current := current + [m];
    }
    assert p[..|p|] == p;
  }

  // ---------------------------------------------------------------------
  // The shared pool
  // ---------------------------------------------------------------------

  /** Every monomial of the list has n exponents. */
  predicate Widths(ms: seq<Monomial>, n: nat)
  {
    forall k :: 0 <= k < |ms| ==> |ms[k]| == n
  }

  /**
   * The shared pool after a group: up to two of the group's monomials,
   * sampled without replacement, are appended, and only the last twelve
   * entries are kept.
   */
  method Share(r: Rng, shared: seq<Monomial>, current: seq<Monomial>)
    returns (shared': seq<Monomial>, r': Rng, ghost sample: seq<Monomial>)
    ensures |sample| == Min(|current|, 2) && multiset(sample) <= multiset(current)
    ensures current == [] ==> shared' == shared
    ensures var all := shared + sample;
      current != [] ==> |shared'| == Min(|all|, SharedLimit) && shared' == all[|all| - |shared'|..]
    ensures Left(r') <= Left(r)
  {
    shared', r', sample := shared, r, [];
    if current != [] {
      var s := Sample(r, current, Min(|current|, 2));
      sample, r' := s.0, s.1;
      shared' := shared + s.0;
      if |shared'| > SharedLimit {
        shared' := shared'[|shared'| - SharedLimit..];
      }
    }
  }

  lemma SampleWidths(shared: seq<Monomial>, current: seq<Monomial>, sample: seq<Monomial>, n: nat)
    requires Widths(shared, n) && Widths(current, n) && multiset(sample) <= multiset(current)
    ensures Widths(shared + sample, n)
    ensures forall lo :: 0 <= lo <= |shared + sample| ==> Widths((shared + sample)[lo..], n)
  {
    var all := shared + sample;
    forall k | 0 <= k < |all| ensures |all[k]| == n {
      if k >= |shared| {
        var x := sample[k - |shared|];
        assert x in multiset(sample);
        assert x in current;
      }
    }
    forall lo | 0 <= lo <= |all| ensures Widths(all[lo..], n) {
      var tail := all[lo..];
      forall k | 0 <= k < |tail| ensures |tail[k]| == n {
        assert tail[k] == all[lo + k];
      }
    }
  }

  // ---------------------------------------------------------------------
  // Drawing a group
  // ---------------------------------------------------------------------

  /** The high power some groups get on top: coefficient, variable, exponent. */
  datatype Boost = NoBoost | Boost(coeff: int, v: nat, power: nat)

  function BoostMax(tier: Tier): nat { if tier == Intermediate then 3 else 4 }

  /** A booster is drawn only above basic: 1..3 times one variable squared up to the tier's power. */
  predicate BoostOk(b: Boost, tier: Tier, n: nat)
  {
    b.Boost? ==> tier != Basic && 1 <= b.coeff <= 3 && b.v < n && 2 <= b.power <= BoostMax(tier)
  }

  function BoostPoly(b: Boost, n: nat): Poly
  {
    if b.Boost? && b.v < n then VarPower(b.coeff, b.v, n, b.power) else []
  }

  /** A monomial of the shared pool added with a small non-zero coefficient. */
  datatype Extra = NoExtra | Extra(coeff: int, monomial: Monomial)

  predicate ExtraOk(e: Extra, shared: seq<Monomial>)
  {
    e.Extra? ==> e.monomial in shared && e.coeff != 0 && -4 <= e.coeff <= 4
  }

  function ExtraPoly(e: Extra): Poly
  {
    if e.Extra? then Mono(e.coeff, e.monomial) else []
  }

  /**
   * One try at a group: a random polynomial with coefficients and degree
   * budget of the tier and at least two terms wanted, then above basic a
   * booster with chance 2/5, then, when the pool is not empty, a shared
   * monomial with chance 4/5 (a drawn coefficient of 0 becomes 1).
   */
  method GroupTry(r: Rng, tier: Tier, n: nat, shared: seq<Monomial>)
    returns (poly: Poly, r': Rng, ghost base: Poly, ghost b: Boost, ghost e: Extra)
    requires n >= 1 && Widths(shared, n)
    ensures Valid(base, n) && BoostOk(b, tier, n) && ExtraOk(e, shared)
    ensures poly == Add(Add(base, BoostPoly(b, n)), ExtraPoly(e))
    ensures Valid(poly, n)
    ensures Left(r') <= Left(r)
  {
    var cfg := ConfigOf(tier);
    var dd := Choice(r, cfg.degrees);
    ghost var drawn, early, tries;
    var p;
    p, r', drawn, early, tries := RandomPolynomial(dd.1, n, dd.0, cfg.coeffLo, cfg.coeffHi, 2);
    assert Max(1, n) == n;
    base := p;
    var boost, extra;
    boost, r' := DrawBoost(r', tier, n);
    extra, r' := DrawExtra(r', shared, n);
    b, e := boost, extra;
    var boosted := Add(p, BoostPoly(boost, n));
    AddValid(p, BoostPoly(boost, n), n);
    poly := Add(boosted, ExtraPoly(extra));
    AddValid(boosted, ExtraPoly(extra), n);
  }

  /** Above basic, with chance 2/5: a variable, a power and a coefficient of 1 to 3. */
  method DrawBoost(r: Rng, tier: Tier, n: nat) returns (b: Boost, r': Rng)
    requires n >= 1
    ensures BoostOk(b, tier, n) && Valid(BoostPoly(b, n), n)
    ensures Left(r') <= Left(r)
  {
    b, r' := NoBoost, r;
    if tier != Basic {
      var ch := Chance(r', 2, 5);
      r' := ch.1;
      if ch.0 {
        var dv := RandInt(r', 0, n - 1);
        var dp := RandInt(dv.1, 2, BoostMax(tier));
        var dc := RandInt(dp.1, 1, 3);
        r' := dc.1;
        b := Boost(dc.0, dv.0, dp.0);
      }
    }
  }

  /** When the pool is not empty, with chance 4/5: one of its monomials, coefficient randint(-4, 4) or 1. */
  method DrawExtra(r: Rng, shared: seq<Monomial>, ghost n: nat) returns (e: Extra, r': Rng)
    requires Widths(shared, n)
    ensures ExtraOk(e, shared) && Valid(ExtraPoly(e), n)
    ensures shared == [] ==> e == NoExtra
    ensures Left(r') <= Left(r)
  {
    e, r' := NoExtra, r;
    if shared != [] {
      var ch := Chance(r', 4, 5);
      r' := ch.1;
      if ch.0 {
        var dt := Choice(r', shared);
        var dc := RandInt(dt.1, -4, 4);
        r' := dc.1;
        e := Extra(if dc.0 == 0 then 1 else dc.0, dt.0);
        assert |dt.0| == n;
      }
    }
  }

  /** Up to eight tries for a group that is not zero; None when every try comes out zero. */
  method DrawGroup(r: Rng, tier: Tier, n: nat, shared: seq<Monomial>)
    returns (group: Option<Poly>, r': Rng, ghost base: Poly, ghost b: Boost, ghost e: Extra)
    requires n >= 1 && Widths(shared, n)
    ensures group.Some? ==>
      && group.value != [] && Valid(group.value, n)
      && Valid(base, n) && BoostOk(b, tier, n) && ExtraOk(e, shared)
      && group.value == Add(Add(base, BoostPoly(b, n)), ExtraPoly(e))
    ensures Left(r') <= Left(r)
  {
    r', group := r, None;
    base, b, e := [], NoBoost, NoExtra;
    for k := 0 to GroupTries
      invariant Left(r') <= Left(r)
    {
      var poly;
      poly, r', base, b, e := GroupTry(r', tier, n, shared);
      if poly != [] {
        group := Some(poly);
        return;
      }
    }
  }

  // ---------------------------------------------------------------------
  // Drawing a row
  // ---------------------------------------------------------------------

  /** Every segment is a non-zero polynomial in parentheses. */
  predicate Grouped(segs: seq<Segment>)
  {
    forall i :: 0 <= i < |segs| ==> segs[i].piece.Group? && segs[i].piece.p != []
  }

  lemma GroupedSnoc(segs: seq<Segment>, s: Segment)
    requires Grouped(segs) && s.piece.Group? && s.piece.p != []
    ensures Grouped(segs + [s])
  {
    assert forall i :: 0 <= i < |segs| ==> (segs + [s])[i] == segs[i];
  }

  /**
   * One pass of the loop over the groups: draw the group, then its sign
   * (plus, without a draw, for the first), count its monomials and share
   * some of them.  aborted when the group could not be drawn; nothing is
   * counted or shared then.
   */
  method GroupStep(r: Rng, tier: Tier, n: nat, index: nat, shared: seq<Monomial>, counts: Counts, ghost groups: seq<Poly>)
    returns (aborted: bool, poly: Poly, sign: int, r': Rng, shared': seq<Monomial>, counts': Counts)
    requires n >= 1 && Tallies(counts, groups) && Widths(shared, n)
    ensures aborted ==> shared' == shared && counts' == counts
    ensures !aborted ==> poly != [] && Valid(poly, n) && (sign == 1 || sign == -1) && (index == 0 ==> sign == 1)
    ensures !aborted ==> Tallies(counts', groups + [poly])
    ensures Widths(shared', n)
    ensures |shared| <= SharedLimit ==> |shared'| <= SharedLimit
    ensures Left(r') <= Left(r)
  {
    var group;
    ghost var base, b, e;
    group, r', base, b, e := DrawGroup(r, tier, n, shared);
    if group.None? {
      return true, [], 1, r', shared, counts;
    }
    poly := group.value;
    sign := 1;
    if index != 0 {
      var ds := Sign(r');
      sign, r' := ds.0, ds.1;
    }
    counts', shared', r' := CountAndShare(r', counts, groups, poly, shared, n);
    aborted := false;
  }

  /** The group in parentheses with its sign, added to the expression and the row. */
  method AddGroup(c: Composer, poly: Poly, sign: int, vars: seq<nat>)
    requires Consistent(c, vars) && Grouped(c.shown)
    requires poly != [] && Valid(poly, |vars|) && (sign == 1 || sign == -1)
    requires c.shown == [] ==> sign == 1
    modifies c
    ensures Consistent(c, vars) && Grouped(c.shown)
    ensures c.shown == old(c.shown) + [Segment(sign, Group(poly))]
    ensures c.parts == old(c.parts) + [poly]
  {
    ghost var shown := c.shown;
    Push(c, poly, Group(poly), sign, vars);
    GroupedSnoc(shown, Segment(sign, Group(poly)));
  }

  /** The group's monomials counted and some of them shared. */
  method CountAndShare(r: Rng, counts: Counts, ghost groups: seq<Poly>, poly: Poly, shared: seq<Monomial>, ghost n: nat)
    returns (counts': Counts, shared': seq<Monomial>, r': Rng)
    requires Tallies(counts, groups) && Valid(poly, n) && Widths(shared, n)
    ensures Tallies(counts', groups + [poly]) && Widths(shared', n)
    ensures |shared| <= SharedLimit ==> |shared'| <= SharedLimit
    ensures Left(r') <= Left(r)
  {
    var current;
    counts', current := Tally(counts, poly, n);
    TalliesSnoc(counts, counts', groups, poly);
    ghost var sample;
    shared', r', sample := Share(r, shared, current);
    SampleWidths(shared, current, sample, n);
  }

  /**
   * The groups of one attempt: their number, drawn from the tier's range,
   * then each group in turn.  aborted when some group could not be drawn.
   */
  method DrawRow(r: Rng, tier: Tier, vars: seq<nat>, shared: seq<Monomial>)
    returns (c: Composer, aborted: bool, r': Rng, shared': seq<Monomial>, counts: Counts)
    requires VarsFit(vars) && Widths(shared, |vars|)
    ensures fresh(c)
    ensures Consistent(c, vars) && Grouped(c.shown) && Tallies(counts, c.parts) && Widths(shared', |vars|)
    ensures !aborted ==> ConfigOf(tier).groupLo <= |c.shown| <= ConfigOf(tier).groupHi
    ensures |shared| <= SharedLimit ==> |shared'| <= SharedLimit
    ensures Left(r') <= Left(r)
  {
    var cfg := ConfigOf(tier);
    var dg := RandInt(r, cfg.groupLo, cfg.groupHi);
    var groupCount := dg.0;
    r' := dg.1;
    c := new Composer();
    counts, shared', aborted := map[], shared, false;
    for index := 0 to groupCount
      invariant Consistent(c, vars) && |c.shown| == index
      invariant Grouped(c.shown) && Tallies(counts, c.parts) && Widths(shared', |vars|)
      invariant |shared| <= SharedLimit ==> |shared'| <= SharedLimit
      invariant Left(r') <= Left(r)
    {
      var poly, sign, shared2, counts2;
      aborted, poly, sign, r', shared2, counts2 := GroupStep(r', tier, |vars|, index, shared', counts, c.parts);
      if aborted {
        return;
      }
      AddGroup(c, poly, sign, vars);
      shared', counts := shared2, counts2;
    }
  }

  // ---------------------------------------------------------------------
  // Accepting a row
  // ---------------------------------------------------------------------

  /** The number of terms sympy lists: the zero polynomial still lists one zero term. */
  function TermCount(p: Poly): nat
  {
    if p == [] then 1 else |p|
  }

  /**
   * The four checks a complete row must pass: enough merge targets, enough
   * terms in the result, not too many (when the tier sets a maximum), and
   * a high enough degree.
   */
  predicate Accepts(groups: seq<Poly>, value: Poly, th: Thresholds, cfg: Config)
  {
    && |MergeSet(groups)| >= th.merge
    && TermCount(value) >= th.result
    && (cfg.maxResult == 0 || TermCount(value) <= cfg.maxResult)
    && TotalDegree(value) >= th.degree
  }

  /**
   * What an accepted row has, whatever the attempt: two groups with a
   * monomial in common, a non-zero result of two to the tier's maximum
   * terms, and degree at least 1.
   */
  lemma AcceptedShape(groups: seq<Poly>, value: Poly, tier: Tier, a: nat)
    requires Accepts(groups, value, ThresholdsAt(tier, a), ConfigOf(tier))
    ensures value != [] && 2 <= |value| <= ConfigOf(tier).maxResult && TotalDegree(value) >= 1
    ensures exists m, i, j :: 0 <= i < j < |groups| && m in Keys(groups[i]) && m in Keys(groups[j])
  {
    var m :| m in MergeSet(groups);
    TwoGroups(groups, m);
  }

  /** The checks in the order the generator makes them; any failing one rejects the row. */
  method Judge(expanded: Poly, counts: Counts, ghost groups: seq<Poly>, th: Thresholds, cfg: Config) returns (accept: bool)
    requires Tallies(counts, groups)
    ensures accept <==> Accepts(groups, expanded, th, cfg)
  {
    var termCount := TermCount(expanded);
    var degree := TotalDegree(expanded);
    var mergeTargets := |MergeTargets(counts)|;
    MergeTargetsAre(counts, groups);
    accept := false;
    if mergeTargets < th.merge {
      return;
    }
    if termCount < th.result {
      return;
    }
    if cfg.maxResult != 0 && termCount > cfg.maxResult {
      return;
    }
    if degree < th.degree {
      return;
    }
    accept := true;
  }

  /** The joined, stripped text of the row, and the expression. */
  method Finish(c: Composer, vars: seq<nat>) returns (b: Built, ghost segs: seq<Segment>, ghost values: seq<Poly>)
    requires Consistent(c, vars) && c.shown != []
    ensures segs == c.shown && values == c.parts
    ensures SegmentsOk(segs, |vars|) && Shows(segs, values, b.value)
    ensures b.text == SegmentsText(segs, vars) && Valid(b.value, |vars|)
  {
    segs, values := c.shown, c.parts;
    StripSegments(segs, vars);
    b := Built(Strip(Concat(c.segments)), c.expr);
  }

  /**
   * An accepted row: the tier's number of groups, each a non-zero
   * polynomial in parentheses, the first positive; the text is the row's
   * text and the value what the row stands for.
   */
  ghost predicate RowOk(b: Built, segs: seq<Segment>, values: seq<Poly>, vars: seq<nat>, tier: Tier)
  {
    && ConfigOf(tier).groupLo <= |segs| <= ConfigOf(tier).groupHi && Grouped(segs)
    && VarsOk(vars) && SegmentsOk(segs, |vars|) && Shows(segs, values, b.value)
    && b.text == SegmentsText(segs, vars)
    && Valid(b.value, |vars|)
  }

  /** One attempt: a row drawn, then judged with the thresholds th. */
  method Attempt(r: Rng, tier: Tier, vars: seq<nat>, shared: seq<Monomial>, th: Thresholds)
    returns (row: Option<Built>, r': Rng, shared': seq<Monomial>, ghost segs: seq<Segment>, ghost values: seq<Poly>)
    requires VarsFit(vars) && Widths(shared, |vars|) && |shared| <= SharedLimit
    ensures Widths(shared', |vars|) && |shared'| <= SharedLimit
    ensures row.Some? ==>
      RowOk(row.value, segs, values, vars, tier) && Accepts(values, row.value.value, th, ConfigOf(tier))
    ensures Left(r') <= Left(r)
  {
    var c, aborted, counts;
    c, aborted, r', shared', counts := DrawRow(r, tier, vars, shared);
    segs, values := [], [];
    row := None;
    if aborted {
      return;
    }
    var accept := Judge(c.expr, counts, c.parts, th, ConfigOf(tier));
    if !accept {
      return;
    }
    var b;
    b, segs, values := Finish(c, vars);
    row := Some(b);
  }

  /**
   * build_add_sub_expression for the variables vars at a tier.  On
   * success the row is the accepted attempt's and passed the checks with
   * the thresholds of that attempt.  After 160 attempts without one it
   * fails.
   */
  method BuildAddSub(r: Rng, vars: seq<nat>, tier: Tier)
    returns (res: Result<Built>, r': Rng, ghost segs: seq<Segment>, ghost values: seq<Poly>, ghost attempt: nat)
    requires VarsFit(vars)
    ensures res.Err? ==> res.error == AddSubExhausted && attempt == MaxAttempts
    ensures res.Ok? ==>
      && 1 <= attempt <= MaxAttempts && RowOk(res.value, segs, values, vars, tier)
      && Accepts(values, res.value.value, ThresholdsAt(tier, attempt), ConfigOf(tier))
    ensures Left(r') <= Left(r)
  {
    var cfg := ConfigOf(tier);
    var shared: seq<Monomial> := [];
    var minMerge: nat, minResult: nat, minDegree: nat := cfg.minMerge, cfg.minResult, cfg.minDegree;
    var tries := 0;
    r', attempt := r, 0;
    segs, values := [], [];
    while tries < MaxAttempts
      invariant tries <= MaxAttempts && attempt == tries
      invariant Thresholds(minMerge, minResult, minDegree) == ThresholdsAt(tier, tries)
      invariant Widths(shared, |vars|) && |shared| <= SharedLimit
      invariant Left(r') <= Left(r)
    {
      tries := tries + 1;
      attempt := tries;
      if tries == 80 || tries == 120 {
        minMerge := AtLeast(1, minMerge - 1);
        minResult := AtLeast(2, minResult - 1);
        minDegree := if tier == Basic then 1 else AtLeast(1, minDegree - 1);
      }
      var row;
      row, r', shared, segs, values := Attempt(r', tier, vars, shared, Thresholds(minMerge, minResult, minDegree));
      if row.Some? {
        return Ok(row.value), r', segs, values, attempt;
      }
    }
    res := Err(AddSubExhausted);
  }
}
