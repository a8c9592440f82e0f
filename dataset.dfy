/**
 * The hard-coded training tables and the shape invariants they satisfy.
 * A feature row is [age, blue, red, green, Sao Paulo, Rio, Curitiba];
 * a label row is one-hot over the tiers premium, medium, basic.
 */
module Dataset {

  const FEATURE_WIDTH: nat := 7
  const LABEL_WIDTH: nat := 3
  /** Indicator slots of the colour segment and of the location segment. */
  const COLOR_START: nat := 1
  const LOCATION_START: nat := 4

  /** Counts the entries of `s` that are exactly 1. */
  function CountOnes(s: seq<real>): (n: nat)
    ensures n <= |s|
  {
    if s == [] then 0 else (if s[0] == 1.0 then 1 else 0) + CountOnes(s[1..])
  }

  /** Every entry is 0 or 1 and exactly one of them is 1. */
  predicate OneHot(s: seq<real>) {
    (forall i :: 0 <= i < |s| ==> s[i] == 0.0 || s[i] == 1.0) && CountOnes(s) == 1
  }

  /** The vector of length n with a single 1 at position k. */
  function UnitVector(n: nat, k: nat): (v: seq<real>)
    ensures |v| == n
  {
    seq(n, i => if i == k then 1.0 else 0.0)
  }

  predicate IsFeatureRow(row: seq<real>) {
    |row| == FEATURE_WIDTH
    && OneHot(row[COLOR_START..LOCATION_START])
    && OneHot(row[LOCATION_START..FEATURE_WIDTH])
  }

  predicate IsLabelRow(row: seq<real>) {
    |row| == LABEL_WIDTH && OneHot(row)
  }

  /** Equal, non-zero row counts; every row of the right shape. */
  predicate ValidDataset(features: seq<seq<real>>, labels: seq<seq<real>>) {
    |features| == |labels| > 0
    && (forall i :: 0 <= i < |features| ==> IsFeatureRow(features[i]))
    && (forall i :: 0 <= i < |labels| ==> IsLabelRow(labels[i]))
  }

  /** `tensorPessoasNormalizado`. */
  const FEATURES: seq<seq<real>> := [
    [0.33, 1.0, 0.0, 0.0, 1.0, 0.0, 0.0],
    [0.0, 0.0, 1.0, 0.0, 0.0, 1.0, 0.0],
    [1.0, 0.0, 0.0, 1.0, 0.0, 0.0, 1.0],

    [0.35, 1.0, 0.0, 0.0, 1.0, 0.0, 0.0],
    [0.45, 1.0, 0.0, 0.0, 1.0, 0.0, 0.0],
    [0.50, 1.0, 0.0, 0.0, 0.0, 1.0, 0.0],
    [0.40, 1.0, 0.0, 0.0, 0.0, 0.0, 1.0],
    [0.38, 1.0, 0.0, 0.0, 1.0, 0.0, 0.0],

    [0.10, 0.0, 1.0, 0.0, 0.0, 1.0, 0.0],
    [0.20, 0.0, 1.0, 0.0, 0.0, 1.0, 0.0],
    [0.25, 0.0, 1.0, 0.0, 1.0, 0.0, 0.0],
    [0.15, 0.0, 1.0, 0.0, 0.0, 0.0, 1.0],
    [0.05, 0.0, 1.0, 0.0, 0.0, 1.0, 0.0],

    [0.80, 0.0, 0.0, 1.0, 0.0, 0.0, 1.0],
    [0.90, 0.0, 0.0, 1.0, 0.0, 0.0, 1.0],
    [0.85, 0.0, 0.0, 1.0, 0.0, 1.0, 0.0],
    [0.75, 0.0, 0.0, 1.0, 1.0, 0.0, 0.0],
    [0.95, 0.0, 0.0, 1.0, 0.0, 0.0, 1.0]
  ]

  const PREMIUM: seq<real> := [1.0, 0.0, 0.0]
  const MEDIUM: seq<real> := [0.0, 1.0, 0.0]
  const BASIC: seq<real> := [0.0, 0.0, 1.0]

  /** `tensorLabels`. */
  const LABELS: seq<seq<real>> := [
    PREMIUM, MEDIUM, BASIC,
    PREMIUM, PREMIUM, PREMIUM, PREMIUM, PREMIUM,
    MEDIUM, MEDIUM, MEDIUM, MEDIUM, MEDIUM,
    BASIC, BASIC, BASIC, BASIC, BASIC
  ]

  /** A one-hot vector is the unit vector at its hot position, and every unit vector is one-hot. */
  lemma {:induction false} OneHotIsUnitVector(s: seq<real>)
    ensures OneHot(s) <==> exists k :: 0 <= k < |s| && s == UnitVector(|s|, k)
  {
    if OneHot(s) {
      var k := HotIndex(s);
      assert s == UnitVector(|s|, k);
    }
    if k :| 0 <= k < |s| && s == UnitVector(|s|, k) {
      UnitVectorIsOneHot(|s|, k);
    }
  }

  /** The position of the first 1 in `s`. */
  function HotIndex(s: seq<real>): (k: nat)
    requires OneHot(s)
    ensures k < |s| && s == UnitVector(|s|, k)
  {
    OneHotShape(s);
    if s[0] == 1.0 then 0 else 1 + HotIndex(s[1..])
  }

  lemma {:induction false} OneHotShape(s: seq<real>)
    requires OneHot(s)
    ensures |s| > 0
    ensures s[0] == 1.0 ==> forall i :: 1 <= i < |s| ==> s[i] == 0.0
    ensures s[0] != 1.0 ==> s[0] == 0.0 && OneHot(s[1..])
  {
    if s[0] == 1.0 {
      NoOnesIsZero(s[1..]);
      assert forall i :: 1 <= i < |s| ==> s[i] == s[1..][i - 1];
    }
  }

  lemma {:induction false} NoOnesIsZero(s: seq<real>)
    requires forall i :: 0 <= i < |s| ==> s[i] == 0.0 || s[i] == 1.0
    requires CountOnes(s) == 0
    ensures forall i :: 0 <= i < |s| ==> s[i] == 0.0
  {
    if s != [] {
      NoOnesIsZero(s[1..]);
    }
  }

  lemma {:induction false} UnitVectorIsOneHot(n: nat, k: nat)
    requires k < n
    ensures OneHot(UnitVector(n, k))
  {
    var v := UnitVector(n, k);
    if k == 0 {
      ZeroCount(v[1..]);
    } else {
      assert v[1..] == UnitVector(n - 1, k - 1);
      UnitVectorIsOneHot(n - 1, k - 1);
    }
  }

  lemma {:induction false} ZeroCount(s: seq<real>)
    requires forall i :: 0 <= i < |s| ==> s[i] == 0.0
    ensures CountOnes(s) == 0
  {
    if s != [] {
      ZeroCount(s[1..]);
    }
  }

  /** One of the three one-hot patterns of width 3. */
  predicate IsTriple(a: real, b: real, c: real) {
    || (a == 1.0 && b == 0.0 && c == 0.0)
    || (a == 0.0 && b == 1.0 && c == 0.0)
    || (a == 0.0 && b == 0.0 && c == 1.0)
  }

  lemma {:induction false} OneHotTriple(s: seq<real>)
    requires |s| == 3
    ensures OneHot(s) <==> IsTriple(s[0], s[1], s[2])
  {
    assert s[1..][1..] == s[2..];
    assert s[2..][1..] == [];
    assert CountOnes(s[2..]) == if s[2] == 1.0 then 1 else 0;
    assert CountOnes(s[1..]) == (if s[1] == 1.0 then 1 else 0) + CountOnes(s[2..]);
  }

  lemma {:induction false} FeatureRowShape(row: seq<real>)
    requires |row| == FEATURE_WIDTH
    ensures IsFeatureRow(row) <==> IsTriple(row[1], row[2], row[3]) && IsTriple(row[4], row[5], row[6])
  {
    OneHotTriple(row[COLOR_START..LOCATION_START]);
    OneHotTriple(row[LOCATION_START..FEATURE_WIDTH]);
  }

  /**
   * The training tables have 18 rows each and satisfy the dataset invariant;
   * every normalised age in the feature table lies in [0, 1].
   */
  lemma TrainingTablesValid()
    ensures |FEATURES| == 18 && |LABELS| == 18
    ensures ValidDataset(FEATURES, LABELS)
    ensures forall i :: 0 <= i < |FEATURES| ==> 0.0 <= FEATURES[i][0] <= 1.0
  {
    forall i | 0 <= i < |FEATURES|
      ensures IsFeatureRow(FEATURES[i]) && 0.0 <= FEATURES[i][0] <= 1.0
    {
      var row := FEATURES[i];
      assert row in FEATURES;
      FeatureRowShape(row);
    }
    forall i | 0 <= i < |LABELS| ensures IsLabelRow(LABELS[i]) {
      var row := LABELS[i];
      assert row in LABELS;
      OneHotTriple(row);
    }
  }
}
