/**
 * The random source, made explicit.  The generator draws from a
 * process-wide pseudo-random generator; here the draws are an explicit
 * supply threaded through every call, so that each builder is a function
 * of its inputs and of the supply it is handed.  A draw of an integer in
 * [lo, hi] consumes one element d of the supply and yields lo + d mod the
 * width of the range; an exhausted supply yields lo without consuming.
 */
module Draws {

  datatype Rng = Rng(supply: seq<nat>)

  /** Number of draws still available; every consuming draw lowers it. */
  function Left(r: Rng): nat { |r.supply| }

  /** random.randint(lo, hi): an integer in the closed range. */
  function RandInt(r: Rng, lo: int, hi: int): (res: (int, Rng))
    requires lo <= hi
    ensures lo <= res.0 <= hi
    ensures Left(res.1) == if Left(r) == 0 then 0 else Left(r) - 1
    ensures Left(r) == 0 ==> res == (lo, r)
  {
    if |r.supply| == 0 then (lo, r)
    else (lo + r.supply[0] % (hi - lo + 1), Rng(r.supply[1..]))
  }

  /** random.choice(xs): one element of a non-empty list. */
  function Choice<T>(r: Rng, xs: seq<T>): (res: (T, Rng))
    requires |xs| > 0
    ensures res.0 in xs
    ensures Left(res.1) <= Left(r)
  {
    var (i, r') := RandInt(r, 0, |xs| - 1);
    (xs[i], r')
  }

  /** random.choice([1, -1]). */
  function Sign(r: Rng): (res: (int, Rng))
    ensures res.0 == 1 || res.0 == -1
    ensures Left(res.1) <= Left(r)
  {
    Choice(r, [1, -1])
  }

  /** random.random() < num / den, for a probability given as a fraction. */
  function Chance(r: Rng, num: nat, den: nat): (res: (bool, Rng))
    requires 0 < den
    ensures num == 0 ==> !res.0
    ensures num >= den ==> res.0
    ensures Left(res.1) <= Left(r)
  {
    var (d, r') := RandInt(r, 0, den - 1);
    (d < num, r')
  }

  /** The list without its element at index i. */
  function Without<T>(xs: seq<T>, i: nat): (ys: seq<T>)
    requires i < |xs|
    ensures |ys| == |xs| - 1
    ensures multiset(ys) + multiset{xs[i]} == multiset(xs)
  {
    assert xs == xs[..i] + [xs[i]] + xs[i + 1..];
    xs[..i] + xs[i + 1..]
  }

  /** random.sample(xs, k): k elements drawn without replacement. */
  function Sample<T>(r: Rng, xs: seq<T>, k: nat): (res: (seq<T>, Rng))
    requires k <= |xs|
    ensures |res.0| == k
    ensures multiset(res.0) <= multiset(xs)
    ensures Left(res.1) <= Left(r)
    decreases k
  {
    if k == 0 then ([], r)
    else
      var (i, r1) := RandInt(r, 0, |xs| - 1);
      var (rest, r2) := Sample(r1, Without(xs, i), k - 1);
      assert multiset([xs[i]] + rest) == multiset{xs[i]} + multiset(rest);
      ([xs[i]] + rest, r2)
  }
  /** The positions 0 .. n-1, the index form of list(variables). */
  function Indices(n: nat): (xs: seq<nat>)
    ensures |xs| == n && forall k :: 0 <= k < n ==> xs[k] == k
  {
    seq(n, k requires 0 <= k < n => k as nat)
  }

  /** Each position occurs once. */
  lemma {:induction false} IndicesOnce(n: nat, x: nat)
    ensures multiset(Indices(n))[x] == if x < n then 1 else 0
  {
    if n > 0 {
      var prev := Indices(n - 1);
      IndicesOnce(n - 1, x);
      assert Indices(n) == prev + [n - 1];
      SnocCount(prev, n - 1, x);
    }
  }

  lemma SnocCount(xs: seq<nat>, last: nat, x: nat)
    ensures multiset(xs + [last])[x] == multiset(xs)[x] + if x == last then 1 else 0
  {
    assert multiset(xs + [last]) == multiset(xs) + multiset{last};
  }

  /** Two positions sampled without replacement are distinct positions. */
  lemma SampledPair(n: nat, xs: seq<nat>)
    requires |xs| == 2 && multiset(xs) <= multiset(Indices(n))
    ensures xs[0] < n && xs[1] < n && xs[0] != xs[1]
  {
    assert xs == [xs[0], xs[1]];
    assert multiset(xs)[xs[0]] >= 1 && multiset(xs)[xs[1]] >= 1;
    IndicesOnce(n, xs[0]);
    IndicesOnce(n, xs[1]);
    assert multiset(xs)[xs[0]] == if xs[0] == xs[1] then 2 else 1;
  }

  /** The positions other than i, in order: [s for s in variables if s is not var]. */
  function Others(n: nat, i: nat): (xs: seq<nat>)
    requires i < n
    ensures |xs| == n - 1
    ensures forall k :: 0 <= k < |xs| ==> xs[k] < n && xs[k] != i
    ensures forall j :: 0 <= j < n && j != i ==> j in xs
  {
    var ys := seq(n - 1, k requires 0 <= k < n - 1 => if k < i then k else k + 1);
    forall j | 0 <= j < n && j != i ensures j in ys {
      var k := if j < i then j else j - 1;
      assert ys[k] == j;
    }
    ys
  }
}
