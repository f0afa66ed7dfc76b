/**
 * The vocabulary shared by the generator and the score rules: the three
 * difficulty tiers and the five problem topics.
 */
module Levels {

  /** A difficulty level: "basic", "intermediate" or "advanced". */
  datatype Tier = Basic | Intermediate | Advanced

  /** A problem topic. */
  datatype Topic = AddSub | MulDiv | PolyOps | Factorization | MixedOps

  const Tiers: seq<Tier> := [Basic, Intermediate, Advanced]

  /** The topic list the batch draws from, in its fixed order. */
  const Topics: seq<Topic> := [AddSub, MulDiv, PolyOps, Factorization, MixedOps]

  function TopicName(t: Topic): string
  {
    match t
    case AddSub => "add_sub"
    case MulDiv => "mul_div"
    case PolyOps => "poly_ops"
    case Factorization => "factorization"
    case MixedOps => "mixed_ops"
  }

  /** The topic a name stands for, if it names one. */
  function ParseTopic(name: string): (t: Option<Topic>)
    ensures t.Some? ==> TopicName(t.value) == name
    ensures t.None? ==> forall u: Topic :: TopicName(u) != name
  {
    if name == "add_sub" then Some(AddSub)
    else if name == "mul_div" then Some(MulDiv)
    else if name == "poly_ops" then Some(PolyOps)
    else if name == "factorization" then Some(Factorization)
    else if name == "mixed_ops" then Some(MixedOps)
    else None
  }

  /** Every topic name reads back as its topic. */
  lemma ParseTopicName(t: Topic)
    ensures ParseTopic(TopicName(t)) == Some(t)
  {
  }

  datatype Option<T> = None | Some(value: T)

  /**
   * Why generation stopped without a result.  The first three are the
   * generator's own RuntimeError raises, RecursionLimit is Python's
   * RecursionError (also a RuntimeError); UnknownTopic is the ValueError
   * for a topic name outside the list, and NotAPolynomial marks a division
   * by a zero divisor, whose symbolic result is outside the model.
   */
  datatype Failure =
    | AddSubExhausted
    | NoQuestionInBand
    | BatchShort(got: nat, wanted: int)
    | RecursionLimit
    | UnknownTopic
    | NotAPolynomial

  /** Failures a caller catching RuntimeError swallows. */
  predicate IsRuntimeError(f: Failure)
  {
    f.AddSubExhausted? || f.NoQuestionInBand? || f.BatchShort? || f.RecursionLimit?
  }

  datatype Result<T> = Ok(value: T) | Err(error: Failure)
}
