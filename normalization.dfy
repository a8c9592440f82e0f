/**
 * Min-max normalisation of a person's age (`normalizarIdade`).
 * Ages are exact reals: floating-point rounding is not modelled.
 */
module AgeNormalization {

  const DEFAULT_MIN: real := 0.0
  const DEFAULT_MAX: real := 100.0

  /** The affine map (age - min) / (max - min); no clamping of any kind. */
  function NormalizeAge(age: real, min: real := DEFAULT_MIN, max: real := DEFAULT_MAX): (r: real)
    requires max != min
    ensures min + r * (max - min) == age
  {
    (age - min) / (max - min)
  }

  /** The inverse map, from a normalised value back to an age. */
  function DenormalizeAge(r: real, min: real := DEFAULT_MIN, max: real := DEFAULT_MAX): real
  {
    min + r * (max - min)
  }

  lemma NormalizeRoundTrip(age: real, r: real, min: real, max: real)
    requires max != min
    ensures DenormalizeAge(NormalizeAge(age, min, max), min, max) == age
    ensures NormalizeAge(DenormalizeAge(r, min, max), min, max) == r
  {
  }

  lemma NormalizeEndpoints(min: real, max: real)
    requires max != min
    ensures NormalizeAge(min, min, max) == 0.0
    ensures NormalizeAge(max, min, max) == 1.0
  {
    var d := max - min;
    assert d / d == 1.0;
  }

  lemma NormalizeDefaultBounds(age: real)
    ensures NormalizeAge(age) == age / 100.0
    ensures NormalizeAge(28.0) == 0.28
  {
  }

  /** Strictly increasing for max > min, strictly decreasing for max < min. */
  lemma NormalizeMonotonic(a: real, b: real, min: real, max: real)
    requires max != min
    requires a < b
    ensures max > min ==> NormalizeAge(a, min, max) < NormalizeAge(b, min, max)
    ensures max < min ==> NormalizeAge(a, min, max) > NormalizeAge(b, min, max)
  {
  }

  /**
   * For max > min the result lies in [0, 1] exactly when the age lies in
   * [min, max]; ages outside the range give values below 0 or above 1.
   */
  lemma NormalizeRange(age: real, min: real, max: real)
    requires max > min
    ensures 0.0 <= NormalizeAge(age, min, max) <= 1.0 <==> min <= age <= max
    ensures age < min ==> NormalizeAge(age, min, max) < 0.0
    ensures age > max ==> NormalizeAge(age, min, max) > 1.0
  {
    NormalizeEndpoints(min, max);
    if age < min {
      NormalizeMonotonic(age, min, min, max);
    } else if age > max {
      NormalizeMonotonic(max, age, min, max);
    } else {
      if min < age { NormalizeMonotonic(min, age, min, max); }
      if age < max { NormalizeMonotonic(age, max, min, max); }
    }
  }
}
