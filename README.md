# Polynomial practice: problem generator, scoring and the cat

This project is a Dafny model of the core of a polynomial practice
application. The core covers:

- the backend problem generator, which draws random integer polynomials and
  builds five kinds of exercise from them: addition and subtraction,
  multiplication and division, factorization, mixed operations, and composite
  "poly-ops" rows;
- the difficulty score the generator gives each problem, and the score bands a
  problem must fall into;
- the score table and the cat's growth stages, on the backend and on the
  frontend;
- the "time ago" text of the recent-questions list.

## Modules

- **Polynomials** (`polynomials.dfy`) stands in for the symbolic algebra. A
  polynomial over `n` variables is a list of terms. The exponent vectors of the
  terms descend strictly in lexicographic order and no coefficient is zero,
  which is the form the term listing of the algebra library reports. The
  module defines addition, scaling, multiplication and embedding a
  one-variable polynomial among more variables. Each operation is proved to
  keep the canonical form and proved correct against evaluation at a point.
  Addition and single terms are also proved against the coefficient-map view.
- **Draws** (`draws.dfy`) models the random source as an explicit supply of
  draws (`Rng`). `RandInt`, `Choice`, `Sample` and `Chance` stand for
  `random.randint`, `random.choice`, `random.sample` and a comparison of
  `random.random()` with a fraction.
- **Levels** (`levels.dfy`) holds the three difficulty tiers, the five topics
  with their names, and the failures a call can end in.
- **Rendering** (`render.dfy`) is `humanize_expression`: the input-style text
  of a polynomial.
  - A method runs the source's loops.
  - A function specifies the method. Lemmas prove that the text never begins
    with `+`, never contains `+-` or two spaces in a row, and is the same text
    when a one-variable polynomial is embedded among more variables.
- **Display** (`display.dfy`) describes a displayed row as segments. Each
  segment is a sign and a piece: a parenthesised polynomial, a product, a
  quotient, a nested sum, or a bare polynomial.
  - `PieceText` and `SegmentsText` give the text of a row.
  - `Shows` states that a row stands for a polynomial value.
- **Synth** (`synth.dfy`) is `random_polynomial`.
- **Composing** (`composer.dfy`) is the `_append` closure of the poly-ops
  builder. It is a class whose fields are the running expression and the
  segment lists, which `Append` updates in place.
- **AddSub**, **MulDiv**, **Factoring**, **MixedOps** and **PolyOps**
  (`addsub.dfy`, `muldiv.dfy`, `factoring.dfy`, `mixedops.dfy`, `polyops.dfy`)
  are the five builders.
  - Each builder that returns a row is proved to return a text equal to
    `SegmentsText` of its segments.
  - Each builder's value is proved to be what that row shows.
  - Each builder is proved to fail only in the ways the source can.
- **Difficulty** (`difficulty.dfy`) is `compute_difficulty`. **Generator**
  (`generator.dfy`) is `DIFFICULTY_RANGES`, `generate_question` and
  `generate_batch`.
- **Rewards** (`rewards.dfy`) is the score table and the cat stages of
  `services.py`. **CatView** (`catview.dfy`) is the frontend's `cat.ts`.
  **RecentTime** (`recenttime.dfy`) is `relativeTime`.

Scores are integers throughout. A difficulty score is computed exactly in
tenths of a point, then rounded half to even to a whole point, as Python's
`round` does.

## Behaviour of the code the model keeps

- `get_score_change` (`backend/services.py:15-17`) returns the tier's second
  entry, −1, for every wrong answer. Nothing in it counts attempts.
  `Rewards.ScoreChange` states exactly this.
- `random_polynomial` returns its last candidate after the twentieth attempt
  without checking it (`backend/question_generator.py:146`), and that
  candidate can be the zero polynomial. `Synth.RandomPolynomial` promises a
  non-zero result only when an attempt was accepted, and otherwise that all
  twenty attempts were made. A zero divisor in mul_div is therefore a failure
  of that builder.
- `generate_batch` catches only `RuntimeError`
  (`backend/question_generator.py:830-831`). Any other exception from one
  question ends the whole batch. The model treats a zero divisor in
  `polynomial_division` as such an exception (`NotAPolynomial`), and it ends
  the batch.
- `build_mixed_ops_expression` restarts after a zero divisor by calling itself
  (`backend/question_generator.py:465`, `:498` and `:510`). The model keeps
  the recursion and limits it to Python's default recursion depth of 1000.
  Past that depth it fails with `RecursionLimit`.

## Model

| member | source | states |
|---|---|---|
| Polynomials.AddValid | backend/question_generator.py:247 | the sum of two polynomials in canonical form is in canonical form |
| Polynomials.AddCoef | backend/question_generator.py:247 | every coefficient of a sum is the sum of the two coefficients of that monomial |
| Polynomials.AddEval | backend/question_generator.py:247 | a sum evaluates, at every point, to the sum of the two values |
| Polynomials.ScaleEval | backend/question_generator.py:247 | `sign * poly` evaluates to the sign times the value |
| Polynomials.MulValid | backend/question_generator.py:316 | the expanded product of canonical polynomials is canonical |
| Polynomials.MulEval | backend/question_generator.py:316 | the expanded product evaluates to the product of the values |
| Polynomials.MulLeading | backend/question_generator.py:310-316 | the leading term of a product is the product of the leading terms, so a product of non-zero polynomials is non-zero |
| Polynomials.EmbedEval | backend/question_generator.py:329-331 | a polynomial in one variable, placed among n variables, takes the same value at that variable's coordinate |
| Polynomials.EmbedMul | backend/question_generator.py:329-331 | expanding and then placing among more variables is the same as placing the factors and then expanding |
| Polynomials.TotalDegree | backend/question_generator.py:279 | the total degree bounds every term's degree and is reached by some term; it is 0 for the zero polynomial |
| Polynomials.Mono | backend/question_generator.py:137 | a single term c·m is canonical and has coefficient c at m and 0 everywhere else |
| Polynomials.LexTotal | backend/question_generator.py:66 | the term order is total on distinct exponent vectors of one length |
| Polynomials.LexTransitive | backend/question_generator.py:66 | the term order is transitive |
| Polynomials.LexMulMonomial | backend/question_generator.py:66 | multiplying by a monomial keeps the order of two monomials |
| Draws.RandInt | backend/question_generator.py:116 | a draw of `randint(lo, hi)` lies in lo..hi and uses one draw of the supply |
| Draws.Choice | backend/question_generator.py:135 | a choice is an element of the list |
| Draws.Sample | backend/question_generator.py:267 | a sample of k has k elements, drawn without repetition from the list (a sub-multiset) |
| Draws.Chance | backend/question_generator.py:219 | a chance of 0 never comes true and a chance of 1 or more always does |
| Draws.Sign | backend/question_generator.py:243 | a drawn sign is 1 or −1 |
| Levels.ParseTopic | backend/question_generator.py:760-761 | a name is accepted exactly when it is the name of one of the five topics, and then names that topic |
| Levels.ParseTopicName | backend/question_generator.py:760-761 | every topic's own name is accepted as that topic |
| Rendering.Humanize | backend/question_generator.py:41-99 | the text the loops build is `Render` of the polynomial: nothing else is printed |
| Rendering.JoinPieces | backend/question_generator.py:57-94 | the term loop joins the pieces of the terms in canonical order, each with its sign |
| Rendering.TermPiece | backend/question_generator.py:66-92 | one term's piece: sign, the coefficient unless it is ±1 on a non-constant term, and the variable factors |
| Rendering.TermFactors | backend/question_generator.py:73-80 | the factor loop writes each used variable once, in order, with `^k` above the first power |
| Rendering.VarFactorsZeros | backend/question_generator.py:82-84 | a constant term has no variable factors, so its coefficient is always printed |
| Rendering.PostProcess | backend/question_generator.py:94-96 | stripping the joined text and dropping a leading "+" gives exactly the rendered text |
| Rendering.RenderNoLeadingPlus | backend/question_generator.py:94-96 | the rendered text is never empty, never starts with "+" and has no white space at either end |
| Rendering.RenderClean | backend/question_generator.py:97-98 | the rendered text never contains "+-" and never two spaces in a row, so the two replacements change nothing |
| Rendering.RenderEmbed | backend/question_generator.py:332 | a one-variable polynomial renders the same whether its own variable or the problem's variables are passed |
| Rendering.Decimal | backend/question_generator.py:84-90 | a coefficient is written as a non-empty string of decimal digits with no leading zero, whose value is the number itself |
| Rendering.Render | backend/question_generator.py:41-99 | the zero polynomial is written "0"; any other text is non-empty and begins with a minus exactly when the leading coefficient is negative |
| Synth.RandomPolynomial | backend/question_generator.py:102-146 | the result is the canonical sum of the drawn terms, each with coefficients in range, degree 1 to the maximum and at most max(4, min_terms) terms; it comes from attempt 1 to 20; an early return has at least min_terms terms and is non-zero, and any other return comes after all 20 attempts |
| Synth.Candidate | backend/question_generator.py:114-137 | one attempt draws a term count from max(2, min_terms) to max(4, min_terms) and returns the canonical sum of at most that many drawn terms, each in range |
| Synth.DrawTerm | backend/question_generator.py:119-137 | a drawn term, unless its coefficient is zero, has the coefficient range and a degree from 1 to the budget |
| Synth.DrawExponents | backend/question_generator.py:124-136 | the exponents stay within the degree budget, and a term with no variable gets one, so the degree is at least 1 |
| Synth.SumTermsValid | backend/question_generator.py:137 | summing and collecting the drawn terms gives a canonical polynomial |
| Synth.SumTermsEval | backend/question_generator.py:137 | the collected sum takes the value of the sum of the drawn terms at every point |
| Synth.SumTermsDegrees | backend/question_generator.py:124-136 | every monomial of the collected sum has a degree some drawn term had |
| AddSub.ConfigOf | backend/question_generator.py:154-182 | every tier asks for 3 to 5 groups and has a degree list and a coefficient range that are not empty |
| AddSub.ThresholdsAt | backend/question_generator.py:189-199 | before attempt 80 the tier's initial thresholds apply; they never fall below 1 merge target, 2 terms and degree 1 |
| AddSub.Relax | backend/question_generator.py:193-199 | a relaxation lowers each threshold by one down to its floor of 1, 2 and 1 and never raises a threshold already at or above its floor; at basic the degree threshold drops straight to 1 |
| AddSub.ThresholdsMonotone | backend/question_generator.py:193-199 | a later attempt never asks for more merge targets, terms or degree |
| AddSub.MergeSet | backend/question_generator.py:283 | a merge target is exactly a monomial counted in at least two groups |
| AddSub.MergeTargetsAre | backend/question_generator.py:258-283 | the merge targets taken from the counter at line 283 (counts above 1) are exactly the monomials that occur in two or more groups |
| AddSub.TwoGroups | backend/question_generator.py:283 | a monomial is counted twice or more exactly when two different groups contain it |
| AddSub.Tally | backend/question_generator.py:253-264 | each monomial of the new group adds one to its count, and nothing else changes; it also lists the group's monomials |
| AddSub.Share | backend/question_generator.py:266-270 | up to two monomials of the group, drawn without repetition, join the pool, and only the last twelve are kept |
| AddSub.GroupTry | backend/question_generator.py:210-231 | a try is a random polynomial plus an optional booster plus an optional multiple of a pooled monomial, all canonical |
| AddSub.DrawBoost | backend/question_generator.py:219-223 | the booster is absent at basic; otherwise it is a power 2..3 (intermediate) or 2..4 (advanced) of one variable with coefficient 1..3 |
| AddSub.DrawExtra | backend/question_generator.py:226-229 | without a pool no extra term; otherwise the extra term is a pooled monomial with coefficient −4..4, with 0 read as 1 |
| AddSub.DrawGroup | backend/question_generator.py:209-236 | a group, when one is found in eight tries, is non-zero and is built from base, booster and extra term |
| AddSub.GroupStep | backend/question_generator.py:207-270 | a group not found leaves pool and counts unchanged; a group found is non-zero, its sign is ±1 and + for the first, and the counts now cover it |
| AddSub.AddGroup | backend/question_generator.py:238-249 | the group joins the row in parentheses with its sign, and the row still shows the running sum |
| AddSub.CountAndShare | backend/question_generator.py:253-270 | after a group the counts cover all groups so far and the pool stays within twelve monomials |
| AddSub.DrawRow | backend/question_generator.py:200-270 | an unaborted row has the tier's number of groups; the row's text is its segments' text and shows the running sum; the counts cover every group |
| AddSub.Judge | backend/question_generator.py:275-292 | a row is accepted exactly when it has enough merge targets, enough terms, not more than the tier's maximum, and a high enough degree |
| AddSub.AcceptedShape | backend/question_generator.py:283-292 | an accepted result is non-zero, has degree at least 1 and 2 to the tier's maximum terms, and two groups share a monomial |
| AddSub.Finish | backend/question_generator.py:294-296 | the stripped joined text is the row's text, and the value is what the row shows |
| AddSub.Attempt | backend/question_generator.py:192-296 | an attempt that returns a row returns one accepted under the thresholds given |
| AddSub.BuildAddSub | backend/question_generator.py:149-298 | success means an accepted row of parenthesised non-zero groups whose text shows the value returned, at attempt 1 to 160 and held to that attempt's thresholds; the only failure is exhaustion, after all 160 attempts |
| MulDiv.BinomialProduct | backend/question_generator.py:306-316 | the text shows (a1·v + b1)(a2·v + b2), with a1 and a2 never 0, and the value is their expanded product with leading term a1·a2·v² |
| MulDiv.MonomialProduct | backend/question_generator.py:317-325 | the text shows (c·v^k)(p), with c in 2..6 and k in 1..3, and the value is their expanded product |
| MulDiv.PolynomialDivision | backend/question_generator.py:326-334 | a zero divisor fails with NotAPolynomial; otherwise the text shows (divisor·quotient) / (divisor) and the value is a polynomial whose product with the divisor is the dividend |
| MulDiv.DivisionLifted | backend/question_generator.py:329-334 | the one-variable division, placed among the problem's variables, keeps its product and its text |
| MulDiv.UnitDivisor | backend/question_generator.py:329 | a divisor of degree 1 in one variable has only the monomial v among its terms once placed |
| MulDiv.BuildMulDiv | backend/question_generator.py:301-334 | success gives a single-piece row whose text shows the value; the only failure is a zero divisor |
| Factoring.Patterns | backend/question_generator.py:348-358 | basic offers four templates without the cubic and two-variable ones; other tiers offer six |
| Factoring.SquareOf | backend/question_generator.py:361-366 | the value is (a·v + b)² expanded, with a in 1..4 and b in −6..6, and its leading term is a²·v² |
| Factoring.QuadraticOf | backend/question_generator.py:367-374 | the value is (p·v + m)(q·v + k) expanded, with leading term p·q·v² |
| Factoring.DiffSquareOf | backend/question_generator.py:375-389 | the value is (a·v1)² − (b·v2)², never the cancelled case; with one variable v1 = v2 and a ≠ b; the value is never zero |
| Factoring.DiffOfSquaresZero | backend/question_generator.py:382-388 | (a·v1)² − (b·v2)² is zero exactly when v1 = v2 and a = b, the case the retry loop avoids |
| Factoring.DiffOfSquaresEval | backend/question_generator.py:388 | (a·v1)² − (b·v2)² evaluates to (a·v1 + b·v2)(a·v1 − b·v2) |
| Factoring.QuadraticTimesLinearOf | backend/question_generator.py:390-399 | the value is (a·v² + b·v + c)(d·v + e) expanded, with leading term a·d·v³ |
| Factoring.DistinctPair | backend/question_generator.py:402 | two different variables of the problem |
| Factoring.MultiVarQuadraticOf | backend/question_generator.py:400-410 | the value is (a1·v1 + b1·v2 + c1)(a2·v1 + b2·v2 + c2) expanded, over two different variables, with the leading term of the earlier variable |
| Factoring.GroupingOf | backend/question_generator.py:411-418 | the value is (a·v + c)·v + (b·v + d)·v expanded, with leading term (a + b)·v² |
| Factoring.BuildFactorization | backend/question_generator.py:337-418 | the template is one the tier offers (two-variable only with two variables), the value is non-zero and canonical, and the text is its rendering |
| MixedOps.Patterns | backend/question_generator.py:423-428 | add_mul and div_add are always offered; multi_div_add exactly when there is more than one variable |
| MixedOps.AddMulParts | backend/question_generator.py:434-458 | the three parts p1, m·p2 and p3, with their signs, make the corrected add_mul row, and the value is their signed sum |
| MixedOps.Divisor | backend/question_generator.py:463 | the divisor is a polynomial of degree 1 in one variable |
| MixedOps.Fraction | backend/question_generator.py:463-467 | a zero divisor gives no fraction; otherwise the fraction is (divisor·quotient) / divisor and denotes the quotient |
| MixedOps.Monomial | backend/question_generator.py:437-439 | m is c times one of the variables, with c from the coefficients offered |
| MixedOps.DivAddParts | backend/question_generator.py:460-491 | a div_add row, when its divisor is not zero, starts with a quotient and shows its value |
| MixedOps.MultiDivAddParts | backend/question_generator.py:493-529 | a multi_div_add row, when neither divisor is zero, starts with a quotient and shows its value |
| MixedOps.PatternParts | backend/question_generator.py:434-529 | the row of the chosen pattern starts with a parenthesised piece or a quotient and shows its value; and add_mul always gives a row |
| MixedOps.RowText | backend/question_generator.py:531 | joining the segment texts gives the row's text |
| MixedOps.FinishKeeps | backend/question_generator.py:531-536 | stripping and dropping a leading "+ " leave a row that starts with a parenthesis unchanged |
| MixedOps.Finish | backend/question_generator.py:531-536 | the finished text is the row's text |
| MixedOps.BuildMixedOps | backend/question_generator.py:421-538 | success gives a row of an offered pattern whose text shows the value and reads as the value; the only failure is the recursion limit |
| MixedOps.AddMulRowShows | backend/question_generator.py:443-458 | the corrected add_mul row, each sign printed once, shows sum(parts) |
| MixedOps.DivAddRowShows | backend/question_generator.py:469-491 | the corrected div_add row, p1 in parentheses after a minus and bare after a plus, shows quotient + s1·p1 + s2·m·p2 |
| MixedOps.MultiDivAddRowShows | backend/question_generator.py:502-529 | the corrected multi_div_add row, p3 in parentheses after a minus and bare after a plus, shows q1 + s2·q2 + s3·p3 |
| MixedOps.ReadAsShown | backend/question_generator.py:474-478 | a row with no bare polynomial after a minus reads, sign by sign, as the signed sum it shows |
| MixedOps.AddMulDoubleNegation | backend/question_generator.py:443-453 | for x, 2x, x, x and signs (−1, 1), no value the as-written add_mul row shows is the value returned |
| MixedOps.AddMulAsWrittenShows | backend/question_generator.py:443-458 | whatever the signs, the as-written add_mul row shows p1 + m·p2 + p3 |
| MixedOps.DivAddMisread | backend/question_generator.py:474-478 | with p1 = x + 1 after a minus, the as-written div_add row reads 2 more than its value at every point |
| MixedOps.MultiDivAddMisread | backend/question_generator.py:522-526 | with p3 = x + 1 after a minus, the as-written multi_div_add row reads 2 more than its value at every point |
| MixedOps.BareMinusMisread | backend/question_generator.py:476-478 | " - x + 1" read as printed is −x + 1, which is 2 more than −(x + 1) |
| Composing.Composer.constructor | backend/question_generator.py:548-550 | the expression starts at 0 and both segment lists start empty |
| Composing.Composer.Append | backend/question_generator.py:561-571 | expr += sign·piece; each list gets the prefix its sign calls for, none on the first segment, and the text list gets the piece's text after it |
| Composing.TracksSnoc | backend/question_generator.py:563-571 | one append keeps the expression equal to the signed sum of the pieces, and keeps every segment as prefix plus text |
| Composing.Push | backend/question_generator.py:561-571 | after appending a piece the row still shows the expression and the joined segments are still the row's text |
| PolyOps.Patterns | backend/question_generator.py:576-579 | three patterns are always offered; the fraction pair exactly above basic |
| PolyOps.DrawPoly | backend/question_generator.py:552-559 | a canonical random polynomial that is the sum of at most four drawn terms, each with a non-zero coefficient within the tier's bound and degree 1 to the degree asked for |
| PolyOps.DrawMonomial | backend/question_generator.py:593 | the value is c·v with c in 2..hi |
| PolyOps.Fraction | backend/question_generator.py:582-590 | the fraction is (divisor·quotient) / divisor, placed among the variables, and denotes the quotient |
| PolyOps.FracMulStep | backend/question_generator.py:581-598 | two segments are appended and the row still shows the expression |
| PolyOps.DoubleMulStep | backend/question_generator.py:600-612 | two product segments are appended and the row still shows the expression |
| PolyOps.NestedMixStep | backend/question_generator.py:614-627 | a nested sum and a product are appended and the row still shows the expression |
| PolyOps.FractionDoubleStep | backend/question_generator.py:629-646 | two fractions are appended and the row still shows the expression |
| PolyOps.PatternStep | backend/question_generator.py:579-646 | the chosen pattern appends exactly two segments and keeps the row showing the expression |
| PolyOps.Start | backend/question_generator.py:573-574 | the row starts with one parenthesised base polynomial |
| PolyOps.Finish | backend/question_generator.py:648-653 | a parenthesised tail is appended, and the stripped text is the row's text and shows the value |
| PolyOps.BuildPolyOps | backend/question_generator.py:541-653 | the row is base, two pattern segments and a tail, its text shows the value, and the pattern is one the tier offers |
| Difficulty.MaxCoeff | backend/question_generator.py:676-689 | the largest absolute coefficient, at least 1, bounds every coefficient and is reached unless it is 1 |
| Difficulty.WeightsOf | backend/question_generator.py:701-716 | in every topic a degree weighs more than a term and a term more than a unit of coefficient; only add_sub and poly_ops have a base bonus |
| Difficulty.TopicBonus | backend/question_generator.py:727-753 | the flat bonuses sum to at most 44 points and at least 10 for factorization; a shape below every threshold gets only the topic's fixed bonus: none, none, 10, 5 and 8 points |
| Difficulty.Raw | backend/question_generator.py:718-753 | the raw score is at least the base bonus plus the weighted degree and term count plus the flat bonuses |
| Difficulty.UsedCount | backend/question_generator.py:662-664 | the count is the number of distinct variables, among the n available, that occur in a term of the polynomial |
| Difficulty.FeaturesOf | backend/question_generator.py:659-698 | degree is the total degree, terms the term count (1 for zero), the coefficient feature bounds every coefficient and is reached unless it is 1, vars is the number of variables that occur (1 when none does), and no fraction appears |
| Difficulty.Clamp | backend/question_generator.py:755 | the clamped score lies in 0..100 and a score already in range is unchanged |
| Difficulty.Score | backend/question_generator.py:717-756 | the score is at most 100 |
| Difficulty.ComputeDifficulty | backend/question_generator.py:656-756 | an integer score from 0 to 100 |
| Difficulty.RoundTenths | backend/question_generator.py:756 | rounding a tenths score gives the nearest whole point, with ties to the even one |
| Difficulty.RoundMonotone | backend/question_generator.py:756 | rounding never reverses order |
| Difficulty.ScoreMonotone | backend/question_generator.py:755-756 | a larger raw score never gives a smaller final score |
| Difficulty.CoeffContribution | backend/question_generator.py:720 | the coefficient adds min(max coefficient, 10) times the topic's coefficient weight |
| Difficulty.FractionBonus | backend/question_generator.py:724-725 | a fraction adds 6 points |
| Difficulty.VariableBonus | backend/question_generator.py:722-749 | each extra variable adds 8 points; the second one also adds 12 in add_sub and 5 in factorization |
| Difficulty.DegreeMonotone | backend/question_generator.py:717-753 | a higher degree never lowers the raw or the final score |
| Difficulty.TermsMonotone | backend/question_generator.py:717-753 | more terms never lower the raw or the final score |
| Difficulty.ScoreUnclamped | backend/question_generator.py:755-756 | when the raw score is at most 100 the final score is its rounding |
| Generator.TierBandsPartition | backend/question_generator.py:23-27 | every score from 0 to 100 falls in exactly one tier's band |
| Generator.TierBand | backend/question_generator.py:23-27 | each tier's band is non-empty within 0..100; basic starts at 0 and advanced ends at 100 |
| Generator.TargetBand | backend/question_generator.py:763-773 | every band is non-empty and within 0..100; it is the tier's band except for poly_ops, which has its own, and basic factorization, which keeps the lower end and widens the upper one |
| Generator.SortedSample | backend/question_generator.py:782-783 | sorting the sampled variables keeps exactly the same variables |
| Generator.ChooseVariables | backend/question_generator.py:778-783 | basic uses x alone; other tiers use 2 or 3 different variables in alphabetical order |
| Generator.Build | backend/question_generator.py:785-800 | each topic's builder gives a canonical answer or one of that builder's own failures |
| Generator.GenerateQuestion | backend/question_generator.py:759-813 | an unknown topic fails before any draw; a question returned has the topic and tier asked for, and its score is its answer's difficulty and lies in the band; giving up takes all 200 tries |
| Generator.BatchDraw | backend/question_generator.py:826-831 | one attempt uses the given tier or a random one and a random topic; the only failure that is not a RuntimeError is a zero divisor |
| Generator.GenerateBatch | backend/question_generator.py:816-836 | success gives exactly count questions (none for count ≤ 0), each as generate_question returns it, at the given tier if one was given; failure reports fewer than count; at most count·10 attempts |
| Rewards.ScoreChange | backend/services.py:8-17 | a correct answer earns 1, 3 or 5 by tier; a wrong one costs 1 |
| Rewards.ScoreRule | backend/services.py:8-12 | a correct answer gains 1, 3 or 5 points; a wrong one costs exactly 1 in every tier |
| Rewards.CatStage | backend/services.py:20-27 | stage 1 up to 50, 2 up to 150, 3 up to 300, 4 above, in both directions |
| Rewards.CatStageMonotone | backend/services.py:20-27 | a higher total never gives a lower stage |
| Rewards.NextStageOpensNext | backend/services.py:30-37 | below the last stage the threshold is 51, 151 or 301, the first total of the next stage, and every total before it has the current stage |
| Rewards.NextStageAtTop | backend/services.py:38 | at the last stage the threshold is the total itself |
| Rewards.NextStageThreshold | backend/services.py:30-38 | the threshold is never below the total; it equals the total exactly at the last stage, and otherwise it is a total of the next stage |
| CatView.GetCatStage | frontend/src/lib/cat.ts:1-6 | the stage is between 1 and 4 |
| CatView.StageAgrees | frontend/src/lib/cat.ts:1-6 | the frontend's stage is the backend's stage for every score |
| CatView.GetCatImage | frontend/src/lib/cat.ts:8-13 | stages 1 to 3 get their own image; anything else gets the stage 4 image |
| CatView.StageLabel | frontend/src/lib/cat.ts:15-26 | stages 1 to 3 get their own caption; anything else gets the stage 4 caption |
| CatView.NextStageDiff | frontend/src/lib/cat.ts:28-33 | at least 1 point is missing up to 300, and none above |
| CatView.DiffMatchesThreshold | frontend/src/lib/cat.ts:28-33 | the points missing are the backend's threshold minus the score; adding them reaches the next stage and nothing short of them does |
| CatView.StagesDistinct | frontend/src/lib/cat.ts:8-26 | the four stages have four different images and four different captions |
| RecentTime.FloorDiv | frontend/src/components/Questions/RecentQuestions.tsx:21 | `Math.floor(a / b)`: the q with q·b ≤ a < (q+1)·b, negative differences included |
| RecentTime.FloorTwice | frontend/src/components/Questions/RecentQuestions.tsx:24-28 | flooring by b and then by c is flooring by b·c |
| RecentTime.Bucket | frontend/src/components/Questions/RecentQuestions.tsx:20-29 | just now under a minute, minutes under an hour, hours under a day, days otherwise, each count at least 1 and below the next unit |
| RecentTime.BucketCounts | frontend/src/components/Questions/RecentQuestions.tsx:24-29 | the counts are the elapsed seconds floored by 60, 3600 and 86400 |
| RecentTime.RelativeTime | frontend/src/components/Questions/RecentQuestions.tsx:17-30 | the text is the phrase of the time bucket of the difference |

## Findings

| source | as written | input that shows it | evidently intended | confidence | as-written member | corrected member |
|---|---|---|---|---|---|---|
| backend/question_generator.py:443-453 | add_mul stores the part `signs[i] * m * p2` already signed, then prints it after the prefix of the same sign, so a minus is shown twice | p1 = x, m = 2x, p2 = x, p3 = x, signs (−1, 1): the row "(x) - (- 2x^2) + (x)" shows x + 2x² + x, but x − 2x² + x is returned | each sign printed once, in the prefix, before the unsigned part | high, not executed | MixedOps.AddMulRowAsWritten, MixedOps.AddMulDoubleNegation | MixedOps.AddMulRow, MixedOps.AddMulRowShows |
| backend/question_generator.py:474-478 | div_add prints p1 bare after " - ", so the minus reaches only p1's first term (multi_div_add does the same with p3 at lines 522-526) | p1 = x + 1 with sign −1: "… - x + 1 …" reads 2 more than the value returned | p1 (and p3) in parentheses after a minus; after a plus the bare text already reads as its value | high, not executed | MixedOps.DivAddRowAsWritten, MixedOps.DivAddMisread, MixedOps.MultiDivAddRowAsWritten, MixedOps.MultiDivAddMisread | MixedOps.DivAddRow, MixedOps.DivAddRowShows, MixedOps.MultiDivAddRow, MixedOps.MultiDivAddRowShows |

The builders use the corrected rows. For every row it returns,
`MixedOps.BuildMixedOps` proves that the row, read sign by sign as printed,
is the value returned.

## Left out

- The symbolic algebra library is replaced by the canonical integer
  polynomials of `Polynomials`. The model leaves out the rest of
  what sympy does:
  - `sp.simplify` and `sp.factor` of the solution and `str(solution)`: the
    solution text is not modelled, and a question carries the answer
    polynomial instead;
  - `sp.latex`: of the LaTeX segments only the prefixes are kept;
  - the `PolynomialError` fallbacks.
- The fallback branches of `humanize_expression` for a non-polynomial or a
  fractional coefficient (lines 49-52 and 60-64) are left out. The model's
  polynomials have integer coefficients, so those branches cannot be reached.
  The same holds for the string estimate of fractions in `compute_difficulty`
  (lines 690-696).
- `uuid.uuid4()` for the question id is left out.
- The Python random generator is left out. Draws come from an explicit supply:
  `RandInt` as `lo + d % span`, and `random.random() < p` as `Chance` with the
  fraction p. The model proves nothing about distributions.
- The clock reading in `relativeTime` is left out. The difference in
  milliseconds is a parameter, and an unparseable date (NaN) is not modelled.
- Floating point is left out. Difficulty scores are exact in tenths,
  which is what the decimal weights mean.
- A zero divisor in `polynomial_division` is left out. In sympy it gives a
  non-polynomial result. The model returns `Err(NotAPolynomial)`, which
  `generate_batch` does not catch.
- Python's recursion limit in `build_mixed_ops_expression` is the depth
  bound `RecursionDepth` (1000). The model fails with `RecursionLimit` there
  instead of raising `RecursionError`.
- The answer checking (`process_answer` and the equivalence test), the HTTP
  routes, the database models, the food rewards, the LLM client and every
  frontend component except the helpers above are not part of this model.
- `Strip` treats only ASCII white space as space. The texts it is applied to
  contain no other white space.
- AddSub.Share: the suffix of the pool is stated only when the group has
  monomials. With no monomials the pool is unchanged, which is stated
  separately.
- Generator.GenerateBatch: the number of attempts is stated as an upper bound
  (count · 10), not as an exact count.
- Difficulty.Raw: its contract is a lower bound. The exact contributions of
  the coefficient, a fraction and each extra variable are stated by
  `CoeffContribution`, `FractionBonus` and `VariableBonus`.
- Difficulty.TopicBonus: its contract states the bounds and the bonus of a
  shape below every threshold, not each threshold's bonus separately.
  `DegreeMonotone` and `TermsMonotone` state that crossing a threshold never
  lowers the score.
- Difficulty.ComputeDifficulty: its own contract states only the range 0..100.
  The weights are stated by the lemmas about `Raw` and `Score` that follow it.
- The comment at the head of `build_add_sub_expression` speaks of two to four
  groups. The per-tier settings under it ask for three to five, and
  `ConfigOf` follows the settings.
