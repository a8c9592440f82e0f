/**
 * The top-level flow after training: the new person's hand-encoded input
 * row, and ranking the model's output for it. The trained network itself
 * is foreign; its output batch is a parameter here.
 */
module Inference {
  import opened Wrappers
  import opened AgeNormalization
  import opened Dataset
  import opened Labelling
  import opened Ranking

  /** The new person's age. */
  const PERSON_AGE: real := 28.0

  /** `tensorPessoa`: a batch of one row, red and Rio, age normalised with the default bounds. */
  const PERSON_VECTOR: seq<seq<real>> := [[NormalizeAge(PERSON_AGE), 0.0, 1.0, 0.0, 0.0, 1.0, 0.0]]

  /** The hand-built row is [0.28, 0, 1, 0, 0, 1, 0] and has the shape of a training row. */
  lemma PersonVectorShape()
    ensures PERSON_VECTOR == [[0.28, 0.0, 1.0, 0.0, 0.0, 1.0, 0.0]]
    ensures IsFeatureRow(PERSON_VECTOR[0])
  {
    NormalizeDefaultBounds(PERSON_AGE);
    FeatureRowShape(PERSON_VECTOR[0]);
  }

  /**
   * `predict` followed by `sort(...)[0]`, given the output batch of the
   * network: the result is the entry of largest probability, the earliest
   * one in label order among equals; nothing when there is nothing to rank.
   */
  method Classify(batch: seq<seq<real>>) returns (result: Option<Prediction>)
    ensures result.Some? <==> |batch| > 0 && |batch[0]| > 0
    ensures result.Some? ==>
      var k := FirstArgmax(batch[0]);
      result.value == Prediction(CategoryAt(k), batch[0][k])
  {
    var labelled := Predict(batch);
    if labelled.None? {
      return None;
    }
    var entries := labelled.value;
    var a := new Prediction[|entries|](i requires 0 <= i < |entries| => entries[i]);
    assert a[..] == entries;
    result := SortAndTakeFirst(a);
    if |entries| > 0 {
      HeadIsFirstArgmax(entries);
      LabelKeepsProbabilities(batch[0]);
    }
  }

  /** With the three-unit output layer the winner is always a named tier. */
  lemma {:induction false} WinnerIsNamedTier(row: seq<real>)
    requires |row| == |LABEL_NAMES|
    ensures SortDesc(Label(row))[0].category == Some(LABEL_NAMES[FirstArgmax(row)])
    ensures SortDesc(Label(row))[0].probability == row[FirstArgmax(row)]
  {
    HeadIsFirstArgmax(Label(row));
    LabelKeepsProbabilities(row);
  }

  /** Equal top probabilities: the earlier label, premium, wins over medium. */
  lemma TieGoesToEarlierLabel()
    ensures SortDesc(Label([0.4, 0.4, 0.2]))[0].category == Some("premium")
  {
    WinnerIsNamedTier([0.4, 0.4, 0.2]);
  }
}
