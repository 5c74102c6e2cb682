/**
 * `analyze_sentiment` of src/sentiment_analysis.py: a three-way threshold
 * rule over a polarity score supplied by an external analyser.
 */
module Sentiment {
  import opened Options

  datatype Label = Negative | Neutral | Positive

  /** The order negative < neutral < positive. */
  function Rank(l: Label): int {
    match l
    case Negative => 0
    case Neutral => 1
    case Positive => 2
  }

  const PositiveThreshold: real := 0.1
  const NegativeThreshold: real := -0.1

  /** The threshold rule, with strict comparisons on both sides. */
  function Classify(polarity: real): (l: Label)
    ensures l == Positive <==> polarity > 0.1
    ensures l == Negative <==> polarity < -0.1
    ensures l == Neutral <==> -0.1 <= polarity <= 0.1
  {
    if polarity > PositiveThreshold then Positive
    else if polarity < NegativeThreshold then Negative
    else Neutral
  }

  /**
   * `analyze_sentiment(text)`: a falsy text is neutral whatever the analyser
   * would say; otherwise the label is the threshold rule on `polarity(text)`.
   */
  function AnalyzeSentiment(polarity: string -> real, text: Option<string>): (l: Label)
    ensures !Truthy(text) ==> l == Neutral
    ensures Truthy(text) ==> (l == Positive <==> polarity(text.value) > 0.1)
    ensures Truthy(text) ==> (l == Negative <==> polarity(text.value) < -0.1)
    ensures Truthy(text) ==> (l == Neutral <==> -0.1 <= polarity(text.value) <= 0.1)
  {
    if !Truthy(text) then Neutral else Classify(polarity(text.value))
  }

  /** A higher polarity never gives a lower label. */
  lemma ClassifyMonotone(p: real, q: real)
    requires p <= q
    ensures Rank(Classify(p)) <= Rank(Classify(q))
  {
  }

  /** The cut-offs themselves are neutral. */
  lemma BoundariesAreNeutral()
    ensures Classify(0.1) == Neutral && Classify(-0.1) == Neutral
  {
  }

  /** Empty text is classified without the analyser: any two analysers agree on it. */
  lemma EmptyTextIgnoresPolarity(p1: string -> real, p2: string -> real, text: Option<string>)
    requires !Truthy(text)
    ensures AnalyzeSentiment(p1, text) == AnalyzeSentiment(p2, text) == Neutral
  {
  }
}
