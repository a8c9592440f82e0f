/**
 * Turning the model's output row into labelled probabilities (`predict`,
 * after the foreign forward pass).
 */
module Labelling {
  import opened Wrappers

  /** `labelsNomes`: the tier names, in the order of the label columns. */
  const LABEL_NAMES: seq<string> := ["premium", "medium", "basic"]

  /** One labelled entry: `{categoria, probabilidade}`. */
  datatype Prediction = Prediction(category: Option<string>, probability: real)

  /** `labelsNomes[index]`, which is `undefined` past the end of the list. */
  function CategoryAt(i: nat): (c: Option<string>)
    ensures c.Some? <==> i < |LABEL_NAMES|
    ensures c.Some? ==> c.value == LABEL_NAMES[i]
  {
    if i < |LABEL_NAMES| then Some(LABEL_NAMES[i]) else None
  }

  /** The probability column of a labelled list. */
  function Probabilities(ps: seq<Prediction>): (r: seq<real>)
    ensures |r| == |ps|
    ensures forall i :: 0 <= i < |ps| ==> r[i] == ps[i].probability
  {
    seq(|ps|, i requires 0 <= i < |ps| => ps[i].probability)
  }

  /** The category column of a labelled list. */
  function Categories(ps: seq<Prediction>): (r: seq<Option<string>>)
    ensures |r| == |ps|
    ensures forall i :: 0 <= i < |ps| ==> r[i] == ps[i].category
  {
    seq(|ps|, i requires 0 <= i < |ps| => ps[i].category)
  }

  /** `row.map((prob, index) => ({categoria: labelsNomes[index], probabilidade: prob}))`. */
  function Label(row: seq<real>): (r: seq<Prediction>)
    ensures |r| == |row|
  {
    seq(|row|, i requires 0 <= i < |row| => Prediction(CategoryAt(i), row[i]))
  }

  /** Labelling keeps every probability in place: it is undone by projecting the column back out. */
  lemma LabelKeepsProbabilities(row: seq<real>)
    ensures Probabilities(Label(row)) == row
  {
  }

  /** Entry i pairs the i-th label name with the i-th probability; no reordering happens. */
  lemma LabelAt(row: seq<real>, i: nat)
    requires i < |row|
    ensures Label(row)[i].probability == row[i]
    ensures Label(row)[i].category == CategoryAt(i)
  {
  }

  /** For the three-unit output layer every category is defined and the names come out in label order. */
  lemma LabelThreeClasses(row: seq<real>)
    requires |row| == |LABEL_NAMES|
    ensures Categories(Label(row)) == [Some("premium"), Some("medium"), Some("basic")]
  {
  }

  /**
   * `previsaoArray[0].map(...)`: only the first row of the batch is used;
   * an empty batch makes `previsaoArray[0]` undefined and the call throws.
   */
  function Predict(batch: seq<seq<real>>): (r: Option<seq<Prediction>>)
    ensures r.Some? <==> |batch| > 0
    ensures r.Some? ==> |r.value| == |batch[0]| && Probabilities(r.value) == batch[0]
    ensures r.Some? ==> forall i :: 0 <= i < |batch[0]| ==> r.value[i] == Prediction(CategoryAt(i), batch[0][i])
  {
    if |batch| == 0 then None
    else
      LabelKeepsProbabilities(batch[0]);
      Some(Label(batch[0]))
  }
}
