# Profile classifier: verified model of the plain logic around the network

The program trains a small feed-forward classifier on a hard-coded table of
people, each encoded as `[normalised age, blue, red, green, São Paulo, Rio,
Curitiba]` and labelled one-hot over the tiers `premium`, `medium`, `basic`.
It then encodes one new person by hand, asks the trained network for tier
probabilities, labels them, sorts them by probability and reports the first
entry.

The network, the optimiser and the forward pass belong to TensorFlow.js. This
project models the deterministic logic around those calls:

- `AgeNormalization` (`normalization.dfy`): `normalizarIdade`, the min-max map
  `(age - min) / (max - min)` over exact reals, with default bounds 0 and 100.
  It has no clamping.
- `Dataset` (`dataset.dfy`): the feature table and the label table as constant
  sequences, plus the shape invariant they satisfy. Every feature row has width
  7 and is one-hot in the colour slots 1-3 and in the location slots 4-6.
  Every label row is one-hot of width 3. Both tables have the same, non-zero
  row count.
- `Labelling` (`labelling.dfy`): the `map` at the end of `predict`. It zips the
  first output row with `labelsNomes`. A category past the list's end is
  JavaScript's `undefined`, modelled as `None`.
- `Ranking` (`ranking.dfy`): `sort((a, b) => b.probabilidade - a.probabilidade)[0]`.
  The sort is an in-place stable insertion sort on an array, proved equal to the
  specification function `SortDesc`. `SortDesc` is proved to be a permutation,
  non-increasing and stable, and any stable non-increasing rearrangement equals
  it. So the model does not depend on which stable algorithm the engine uses.
  Element `[0]` is the first position of largest probability.
- `Inference` (`inference.dfy`): the hand-encoded input row of the new person,
  and `Classify`, which takes the network's output batch through labelling,
  sorting and selecting element `[0]`.
- `Wrappers` (`wrappers.dfy`): `Option`, used for `undefined`.

The literals in `index.js` have 18 feature rows and 18 label rows. `index.js`
has no encoder and does not check colours or locations, because its vectors
are literals, so no such error is modelled.

## Model

| member | source | states |
|---|---|---|
| AgeNormalization.NormalizeAge | index.js:38-40 | the result r is the affine coordinate of the age: min + r * (max - min) == age, for any bounds with max != min |
| AgeNormalization.NormalizeRoundTrip | index.js:38-40 | normalising and mapping back are mutually inverse for every age and every normalised value |
| AgeNormalization.NormalizeEndpoints | index.js:38-40 | min maps to 0 and max maps to 1 |
| AgeNormalization.NormalizeDefaultBounds | index.js:38 | with the default bounds 0 and 100 the result is age / 100; age 28 gives 0.28 |
| AgeNormalization.NormalizeMonotonic | index.js:39 | strictly increasing in the age when max > min, strictly decreasing when max < min |
| AgeNormalization.NormalizeRange | index.js:39 | for max > min the result lies in [0, 1] exactly when the age lies in [min, max]; ages below min give values below 0 and ages above max give values above 1 (no clamping) |
| Dataset.HotIndex | index.js:77-131 | a one-hot vector is the unit vector at a position inside it |
| Dataset.OneHotIsUnitVector | index.js:77-131 | a vector is one-hot exactly when it equals a unit vector of its own length |
| Dataset.UnitVectorIsOneHot | index.js:77-131 | every unit vector is one-hot |
| Dataset.OneHotTriple | index.js:107-131 | a width-3 vector is one-hot exactly when it is one of the three patterns [1,0,0], [0,1,0], [0,0,1] |
| Dataset.FeatureRowShape | index.js:77-102 | a width-7 row is a feature row exactly when slots 1-3 and slots 4-6 each hold one of the three one-hot patterns |
| Dataset.TrainingTablesValid | index.js:77-131 | both tables have 18 rows; every feature row has width 7 and is one-hot in the colour and in the location segment; every label row is one-hot of width 3; every age in the table lies in [0, 1] |
| Labelling.CategoryAt | index.js:57 | the category at index i is defined exactly when i is inside the label list, and is then labelsNomes[i] |
| Labelling.LabelKeepsProbabilities | index.js:57 | projecting the probabilities back out of the labelled list gives the input row unchanged: same length, same order |
| Labelling.LabelAt | index.js:57 | entry i pairs the category for index i with the i-th probability |
| Labelling.LabelThreeClasses | index.js:106 | for a three-entry row the categories are premium, medium, basic, in that order |
| Labelling.Label | index.js:57 | the labelled list has the row's length; with LabelAt, entry i is the category for index i paired with the i-th probability; with LabelKeepsProbabilities and LabelThreeClasses, the probability column is the row unchanged and the categories of a three-entry row are premium, medium, basic |
| Labelling.Predict | index.js:51-57 | defined exactly when the batch has a row; then entry i pairs the category for index i with the i-th probability of that row, so the list has that row's length and its probabilities in order |
| Ranking.Compare | index.js:161 | the comparator is negative exactly when a has the larger probability, and zero exactly when the probabilities are equal |
| Ranking.InsertDesc | index.js:161 | one stable insertion step, lengthening the list by one; with InsertDescPermutes, InsertDescSorted, InsertDescStable and InsertDescAt it adds exactly the new entry, keeps a non-increasing list non-increasing, places the entry after every earlier entry of equal probability and lands it right after the last entry the comparator keeps ahead of it |
| Ranking.SortDesc | index.js:161 | the stable descending sort, of the input's length; with SortDescPermutes, SortDescSorted, SortDescStable and StableSortIsSortDesc it is a permutation, non-increasing, stable, and equal to every stable non-increasing rearrangement of the input |
| Ranking.SortDescPermutes | index.js:161 | sorting leaves the multiset of (label, probability) pairs unchanged |
| Ranking.SortDescSorted | index.js:161 | the sorted list is non-increasing in probability |
| Ranking.SortDescStable | index.js:161 | for every probability value, the entries carrying it appear in the sorted list in their input order |
| Ranking.StableSortedUnique | index.js:161 | two non-increasing lists that agree on the entries of every probability value are equal |
| Ranking.StableSortIsSortDesc | index.js:161 | any stable non-increasing rearrangement of the input is SortDesc of it |
| Ranking.FirstArgmax | index.js:161 | the reference winner: a position whose probability is at least every other, and strictly above every earlier one |
| Ranking.HeadIsFirstArgmax | index.js:161 | element [0] of the sorted list is the input entry at the first position of largest probability |
| Ranking.InsertDescPermutes | index.js:161 | one insertion adds exactly the inserted entry to the multiset |
| Ranking.InsertDescSorted | index.js:161 | one insertion into a non-increasing list keeps it non-increasing |
| Ranking.InsertDescStable | index.js:161 | one insertion places the new entry after every earlier entry of equal probability |
| Ranking.InputBelowHead | index.js:161 | no input entry has a larger probability than element [0] of the sorted list |
| Ranking.InsertDescAt | index.js:161 | an insertion lands right after the last entry that the comparator keeps ahead of the new one |
| Ranking.InsertInPlace | index.js:161 | shifting a[i] left into the sorted prefix yields the insertion of that entry and leaves the rest of the array unchanged |
| Ranking.SortByProbability | index.js:161 | the in-place sort leaves the array equal to SortDesc of its old contents |
| Ranking.SortAndTakeFirst | index.js:161 | sorts in place as above and returns element [0], or undefined for an empty array |
| Inference.PersonVectorShape | index.js:143-155 | the hand-encoded row for age 28, red, Rio is [0.28, 0, 1, 0, 0, 1, 0] and satisfies the feature-row invariant |
| Inference.Classify | index.js:158-161 | for the network's output batch, the result is defined exactly when the first row is non-empty, and is then the entry at the first position of largest probability, with its category and probability |
| Inference.WinnerIsNamedTier | index.js:57-161 | for a three-unit output row the winner's category is the label name at the first position of largest probability |
| Inference.TieGoesToEarlierLabel | index.js:106-161 | with probabilities [0.4, 0.4, 0.2] the winner is premium, the earlier of the two tied labels |

## Left out

- AgeNormalization.NormalizeAge: requires max != min. With equal bounds the JavaScript division gives plus or minus Infinity, or NaN when the age equals min; infinities and NaN are not real numbers, so that case is not modelled. The only call (index.js:148) uses the default bounds 0 and 100.
- Building the network, Adam with learning rate 0.01, categorical cross-entropy, `fit` with 200 shuffled epochs and the per-epoch callback (index.js:4-35): thin wrappers over TensorFlow.js, whose code is not part of this model.
- Tensor conversion, `model.predict` and `previsao.array()` (index.js:45-51): foreign calls. Their output batch is an arbitrary parameter of `Labelling.Predict` and `Inference.Classify`.
- The "probabilities sum to 1" property of softmax: it holds inside the library, and no code in index.js relies on it, so it is not assumed.
- Console output and the `toFixed(2)` percentage (index.js:29, 164): I/O and display formatting.
- The top-level `await` sequencing (index.js:140, 158): asynchronous plumbing.
- IEEE-754 rounding and NaN comparisons: ages and probabilities are exact reals, so 0.28 is exactly 28/100 and the comparator is total.
- The TypeError that index.js:164 raises when the ranked list is empty: `Inference.Classify` returns `None` in that case and models nothing after it.
