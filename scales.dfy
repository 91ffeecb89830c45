/** The two linear scales built once the census is read: population to
    extrusion depth over [0, MAX_EXTRUSION], and population to luminance over
    the default range [0, 1]. Values are exact reals, not doubles. */
module Scales {
  import opened Wrappers
  import opened JsNumber
  import opened ObjectKeys
  import opened Census

  /** `MAX_EXTRUSION`. */
  const MaxExtrusion: real := 10.0

  /** A d3 linear scale with domain [0, maxPopulation] and range [0, hi],
      applied to a population. NaN in gives NaN out (`None`). A zero-width
      domain makes the scale divide by Infinity, so every population maps to
      0. The scale does not clamp: a population outside the domain maps
      outside the range. */
  function Linear(x: Num, maxPopulation: int, hi: real): (r: Option<real>)
    ensures r.None? <==> x.NaN?
  {
    match x
    case NaN => None
    case Int(p) =>
      if maxPopulation == 0 then Some(0.0)
      else Some(p as real / maxPopulation as real * hi)
  }

  /** `getExtrusion`: a population between 0 and the maximum gets a depth
      between 0 and `MAX_EXTRUSION`. */
  function Extrusion(x: Num, maxPopulation: int): (r: Option<real>)
    ensures r.None? <==> x.NaN?
    ensures x.Int? && 0 <= x.value <= maxPopulation ==> 0.0 <= r.value <= MaxExtrusion
  {
    if x.Int? && 0 <= x.value <= maxPopulation then
      ScaleWithinRange(x.value, maxPopulation, MaxExtrusion);
      Linear(x, maxPopulation, MaxExtrusion)
    else Linear(x, maxPopulation, MaxExtrusion)
  }

  /** `getLuminance`: a population between 0 and the maximum gets a
      luminance between 0 and 1. */
  function Luminance(x: Num, maxPopulation: int): (r: Option<real>)
    ensures r.None? <==> x.NaN?
    ensures x.Int? && 0 <= x.value <= maxPopulation ==> 0.0 <= r.value <= 1.0
  {
    if x.Int? && 0 <= x.value <= maxPopulation then
      ScaleWithinRange(x.value, maxPopulation, 1.0);
      Linear(x, maxPopulation, 1.0)
    else Linear(x, maxPopulation, 1.0)
  }

  lemma ScaleFactorMonotone(a: real, b: real, c: real)
    requires a <= b && c >= 0.0
    ensures a * c <= b * c
  {
    assert b * c - a * c == (b - a) * c;
  }

  lemma QuotientMonotone(p: int, p': int, m: int)
    requires p <= p' && m > 0
    ensures p as real / m as real <= p' as real / m as real
  {
    var mr := m as real;
    var q, q' := p as real / mr, p' as real / mr;
    assert q' - q == (p' - p) as real / mr;
  }

  /** A larger population never maps lower. */
  lemma ScaleMonotone(p: int, p': int, maxPopulation: int, hi: real)
    requires p <= p' && maxPopulation >= 0 && hi >= 0.0
    ensures Linear(Int(p), maxPopulation, hi).value <= Linear(Int(p'), maxPopulation, hi).value
  {
    if maxPopulation != 0 {
      QuotientMonotone(p, p', maxPopulation);
      ScaleFactorMonotone(p as real / maxPopulation as real, p' as real / maxPopulation as real, hi);
    }
  }

  /** The domain ends map to the range ends. */
  lemma ScaleEndpoints(maxPopulation: int, hi: real)
    ensures Linear(Int(0), maxPopulation, hi) == Some(0.0)
    ensures maxPopulation != 0 ==> Linear(Int(maxPopulation), maxPopulation, hi) == Some(hi)
  {
    if maxPopulation != 0 {
      assert maxPopulation as real / maxPopulation as real == 1.0;
    }
  }

  /** A population at most the (non-negative) maximum maps at most to the top
      of the range, and a non-negative one at least to 0: between the domain
      ends, the scale stays between the range ends. */
  lemma ScaleWithinRange(p: int, maxPopulation: int, hi: real)
    requires p <= maxPopulation && maxPopulation >= 0 && hi >= 0.0
    ensures Linear(Int(p), maxPopulation, hi).value <= hi
    ensures p >= 0 ==> Linear(Int(p), maxPopulation, hi).value >= 0.0
  {
    ScaleEndpoints(maxPopulation, hi);
    if maxPopulation != 0 {
      ScaleMonotone(p, maxPopulation, maxPopulation, hi);
      if p >= 0 {
        ScaleMonotone(0, p, maxPopulation, hi);
      }
    }
  }

  /** Every integer population stored by `prepareCensusData` gets an extrusion
      of at most MAX_EXTRUSION and a luminance of at most 1, and, when it is
      not negative, of at least 0: the scales built from the returned maximum
      cover the table. */
  lemma StoredPopulationInRange(rows: seq<Row>, ids: IdTable, years: seq<Num>, c: string, y: Num)
    requires var t := Table(map[], rows, ids, years);
      c in t && y in t[c] && t[c][y].Int?
    ensures var t := Table(map[], rows, ids, years);
      var m := TableMax(0, rows, years);
      && Extrusion(t[c][y], m).value <= MaxExtrusion
      && Luminance(t[c][y], m).value <= 1.0
      && (t[c][y].value >= 0 ==> Extrusion(t[c][y], m).value >= 0.0 && Luminance(t[c][y], m).value >= 0.0)
  {
    StoredBelowMax(rows, ids, years);
    var m := TableMax(0, rows, years);
    var p := Table(map[], rows, ids, years)[c][y].value;
    ScaleWithinRange(p, m, MaxExtrusion);
    ScaleWithinRange(p, m, 1.0);
  }
}
