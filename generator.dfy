/**
 * generate_question and generate_batch: a problem of a topic at a
 * difficulty tier, drawn again and again until its score falls in the
 * band wanted for that topic and tier, and a batch of such problems with
 * random topics.
 */
module Generator {
  import opened Polynomials
  import opened Draws
  import opened Display
  import opened Levels
  import opened Difficulty
  import AS = AddSub
  import MD = MulDiv
  import PO = PolyOps
  import FA = Factoring
  import MX = MixedOps

  /** The iterations generate_question makes before it gives up. */
  const QuestionTries: nat := 200

  /** How deep the restarts of build_mixed_ops_expression may go: Python's default recursion limit. */
  const RecursionDepth: nat := 1000

  /** A generated problem: the row shown, the answer polynomial in the variables, and its score. */
  datatype Question = Question(text: string, answer: Poly, vars: seq<nat>, topic: Topic, tier: Tier, score: nat)

  /** A closed range of scores. */
  datatype Band = Band(lo: int, hi: int)

  predicate InBand(s: int, b: Band) { b.lo <= s <= b.hi }

  /** DIFFICULTY_RANGES. */
  function TierBand(tier: Tier): (b: Band)
    ensures 0 <= b.lo < b.hi <= 100
    ensures tier == Basic ==> b.lo == 0
    ensures tier == Advanced ==> b.hi == 100
  {
    match tier
    case Basic => Band(0, 33)
    case Intermediate => Band(34, 66)
    case Advanced => Band(67, 100)
  }

  /** The band a topic is held to: factorization widens basic, poly_ops has bands of its own. */
  function TargetBand(topic: Topic, tier: Tier): (b: Band)
    ensures 0 <= b.lo < b.hi <= 100
    ensures topic != PolyOps && (topic != Factorization || tier != Basic) ==> b == TierBand(tier)
    ensures topic == Factorization && tier == Basic ==> b.lo == TierBand(Basic).lo && b.hi > TierBand(Basic).hi
  {
    if topic == PolyOps then
      match tier
      case Basic => Band(15, 55)
      case Intermediate => Band(40, 75)
      case Advanced => Band(60, 100)
    else if topic == Factorization && tier == Basic then Band(0, 70)
    else TierBand(tier)
  }

  /** The three tier bands cover 0..100 without overlap: a score names exactly one tier. */
  lemma TierBandsPartition(s: int)
    requires 0 <= s <= 100
    ensures exists t: Tier :: InBand(s, TierBand(t))
    ensures forall t: Tier, u: Tier :: InBand(s, TierBand(t)) && InBand(s, TierBand(u)) ==> t == u
  {
    var t := if s <= 33 then Basic else if s <= 66 then Intermediate else Advanced;
    assert InBand(s, TierBand(t));
  }

  // ---------------------------------------------------------------------
  // The variables
  // ---------------------------------------------------------------------

  /** The positions among 0 .. k-1 that occur in names, in increasing order. */
  function Ascending(names: seq<nat>, k: nat): (s: seq<nat>)
    ensures forall i, j :: 0 <= i < j < |s| ==> s[i] < s[j]
    ensures forall i :: 0 <= i < |s| ==> s[i] < k
    ensures forall x :: x in s <==> x < k && x in names
  {
    if k == 0 then [] else Ascending(names, k - 1) + if k - 1 in names then [k - 1] else []
  }

  lemma {:induction false} AscendingCount(names: seq<nat>, k: nat, x: nat)
    ensures multiset(Ascending(names, k))[x] == if x < k && x in names then 1 else 0
  {
    if k > 0 {
      AscendingCount(names, k - 1, x);
      var prev := Ascending(names, k - 1);
      var step := if k - 1 in names then [k - 1] else [];
      assert multiset(prev + step) == multiset(prev) + multiset(step);
    }
  }

  /** sorted(names) of names drawn without repetition from the n positions. */
  lemma SortedSample(names: seq<nat>, n: nat)
    requires multiset(names) <= multiset(Indices(n))
    ensures multiset(Ascending(names, n)) == multiset(names)
    ensures |Ascending(names, n)| == |names|
  {
    var s := Ascending(names, n);
    forall x ensures multiset(s)[x] == multiset(names)[x] {
      AscendingCount(names, n, x);
      IndicesOnce(n, x);
    }
    assert multiset(s) == multiset(names);
    assert |s| == |multiset(s)| == |multiset(names)| == |names|;
  }

  /**
   * The variables of a problem: x alone at basic, otherwise two or three
   * of x, y, z sampled without repetition and put in alphabetical order.
   */
  method ChooseVariables(r: Rng, tier: Tier) returns (vars: seq<nat>, r': Rng)
    ensures VarsFit(vars)
    ensures tier == Basic ==> vars == [0]
    ensures tier != Basic ==> 2 <= |vars| <= 3
    ensures forall i, j :: 0 <= i < j < |vars| ==> vars[i] < vars[j]
    ensures Left(r') <= Left(r)
  {
    if tier == Basic {
      return [0], r;
    }
    var dc := RandInt(r, 2, 3);
    var ds := Sample(dc.1, Indices(3), dc.0);
    r' := ds.1;
    vars := Ascending(ds.0, 3);
    SortedSample(ds.0, 3);
  }

  // ---------------------------------------------------------------------
  // One problem
  // ---------------------------------------------------------------------

  /** The failures a topic's builder can stop with. */
  predicate BuilderFailure(topic: Topic, f: Failure)
  {
    || (topic == AddSub && f == AddSubExhausted)
    || (topic == MulDiv && f == NotAPolynomial)
    || (topic == MixedOps && f == RecursionLimit)
  }

  /** The builder of the topic, once. */
  method Build(r: Rng, topic: Topic, vars: seq<nat>, tier: Tier) returns (res: Result<Built>, r': Rng)
    requires VarsFit(vars)
    ensures res.Err? ==> BuilderFailure(topic, res.error)
    ensures res.Ok? ==> Valid(res.value.value, |vars|)
    ensures Left(r') <= Left(r)
  {
    match topic {
      case AddSub =>
        ghost var segs, values, attempt;
        res, r', segs, values, attempt := AS.BuildAddSub(r, vars, tier);
      case MulDiv =>
        ghost var segs, values;
        res, r', segs, values := MD.BuildMulDiv(r, vars);
      case PolyOps =>
        var b;
        ghost var pattern, segs, values;
        b, r', pattern, segs, values := PO.BuildPolyOps(r, vars, tier);
        res := Ok(b);
      case Factorization =>
        var b;
        ghost var pattern;
        b, r', pattern := FA.BuildFactorization(r, vars, tier);
        res := Ok(b);
      case MixedOps =>
        ghost var pattern, segs, values;
        res, r', pattern, segs, values := MX.BuildMixedOps(r, vars, RecursionDepth);
    }
  }

  /** A question as generate_question returns it: in the band, scored from its answer. */
  predicate QuestionOk(q: Question)
  {
    && VarsFit(q.vars) && Valid(q.answer, |q.vars|)
    && (q.tier == Basic ==> q.vars == [0])
    && (q.tier != Basic ==> 2 <= |q.vars|)
    && q.score == ComputeDifficulty(q.answer, |q.vars|, q.topic)
    && InBand(q.score, TargetBand(q.topic, q.tier))
  }

  /**
   * generate_question(topic, level): an unknown topic name fails before
   * anything is drawn; otherwise the variables are chosen once and the
   * topic's builder runs until the score of its answer falls in the band,
   * at most 200 times.  A builder's failure ends the call.
   */
  method GenerateQuestion(r: Rng, name: string, tier: Tier) returns (res: Result<Question>, r': Rng, ghost tries: nat)
    ensures ParseTopic(name).None? ==> res == Err(UnknownTopic) && r' == r && tries == 0
    ensures res.Ok? ==> QuestionOk(res.value) && ParseTopic(name) == Some(res.value.topic) && res.value.tier == tier
    ensures res.Err? && ParseTopic(name).Some? ==>
      res.error == NoQuestionInBand || BuilderFailure(ParseTopic(name).value, res.error)
    ensures tries <= QuestionTries
    ensures res == Err(NoQuestionInBand) ==> tries == QuestionTries
    ensures Left(r') <= Left(r)
  {
    var parsed := ParseTopic(name);
    if parsed.None? {
      return Err(UnknownTopic), r, 0;
    }
    var topic := parsed.value;
    var band := TargetBand(topic, tier);
    var vars;
    vars, r' := ChooseVariables(r, tier);
    tries := 0;
    for k := 0 to QuestionTries
      invariant Left(r') <= Left(r)
      invariant tries == k
    {
      var built;
      built, r' := Build(r', topic, vars, tier);
      tries := k + 1;
      if built.Err? {
        return Err(built.error), r', tries;
      }
      var score := ComputeDifficulty(built.value.value, |vars|, topic);
      if band.lo <= score <= band.hi {
        return Ok(Question(built.value.text, built.value.value, vars, topic, tier, score)), r', tries;
      }
    }
    res := Err(NoQuestionInBand);
  }

  // ---------------------------------------------------------------------
  // A batch
  // ---------------------------------------------------------------------

  /** A question of a batch: as generate_question returns it, at the tier asked for if one was. */
  predicate Fits(q: Question, difficulty: Option<Tier>)
  {
    QuestionOk(q) && (difficulty.Some? ==> q.tier == difficulty.value)
  }

  /** How generate_batch can fail: too few questions for count, or a divisor that is not a polynomial. */
  predicate BatchFailure(f: Failure, count: int)
  {
    || (f.BatchShort? && f.got < count && f.wanted == count)
    || f == NotAPolynomial
  }

  /**
   * One attempt of generate_batch: the given tier or a random one, then a
   * random topic, then generate_question on the topic's name.  The only
   * failure that is not a RuntimeError is a divisor that is not a polynomial.
   */
  method BatchDraw(r: Rng, difficulty: Option<Tier>) returns (q: Result<Question>, r': Rng)
    ensures q.Ok? ==> Fits(q.value, difficulty)
    ensures q.Err? && !IsRuntimeError(q.error) ==> q.error == NotAPolynomial
    ensures Left(r') <= Left(r)
  {
    var level: Tier;
    r' := r;
    if difficulty.Some? {
      level := difficulty.value;
    } else {
      var dl := Choice(r', Tiers);
      level, r' := dl.0, dl.1;
    }
    var dt := Choice(r', Topics);
    var topic := dt.0;
    ParseTopicName(topic);
    ghost var tries;
    q, r', tries := GenerateQuestion(dt.1, TopicName(topic), level);
  }

  /**
   * generate_batch(count, difficulty): up to count * 10 attempts, each at
   * the given tier or a random one, with a random topic; an attempt that
   * fails with a RuntimeError is skipped.  Fewer than count questions at
   * the end is a failure that reports how many were made.
   */
  method GenerateBatch(r: Rng, count: int, difficulty: Option<Tier>)
    returns (res: Result<seq<Question>>, r': Rng, ghost calls: nat)
    ensures res.Ok? ==> |res.value| == (if count > 0 then count else 0)
    ensures res.Ok? ==> forall i :: 0 <= i < |res.value| ==> Fits(res.value[i], difficulty)
    ensures res.Err? ==> BatchFailure(res.error, count)
    ensures calls <= (if count > 0 then count * 10 else 0)
    ensures Left(r') <= Left(r)
  {
    var questions: seq<Question> := [];
    var attempts := 0;
    r' := r;
    while |questions| < count && attempts < count * 10
      invariant |questions| <= (if count > 0 then count else 0)
      invariant forall i :: 0 <= i < |questions| ==> Fits(questions[i], difficulty)
      invariant attempts <= (if count > 0 then count * 10 else 0)
      invariant Left(r') <= Left(r)
      decreases count * 10 - attempts
    {
      attempts := attempts + 1;
      var q;
      q, r' := BatchDraw(r', difficulty);
      if q.Err? {
        if IsRuntimeError(q.error) {
          continue;
        }
        return Err(q.error), r', attempts;
      }
      questions := questions + [q.value];
    }
    calls := attempts;
    if |questions| < count {
      return Err(BatchShort(|questions|, count)), r', calls;
    }
    res := Ok(questions);
  }
}
