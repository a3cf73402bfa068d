/**
 * The per-listing resale estimate (`resale_estimate_and_label`) and the
 * market saturation label (`market_saturation_label`).
 *
 * The estimate places the ratio `price / avg` in one of four bands with
 * inclusive upper thresholds 0.6, 1.0 and 1.4.  Each band fixes a label, a
 * score, two multipliers of `avg` rounded to cents, and a time-to-sell text.
 * With `avg > 0` the ratio test `price / avg <= k` is written `price <= k * avg`
 * (`RatioTest` shows the two agree).
 */
module Resale {

  /** The 4-tuple `(label, score, (est_min, est_max), time_days)`; `tag` is the label. */
  datatype Estimate = Estimate(tag: string, score: int, low: real, high: real, time: string)

  /** The fixed answer when the average price is not positive. */
  const Unknown := Estimate("Inconnu", 0, 0.0, 0.0, "Inconnu")

  datatype Band = Fast | Good | Slow | VerySlow

  /** Upper ratio thresholds of the first three bands. */
  const FastLimit: real := 0.6
  const GoodLimit: real := 1.0
  const SlowLimit: real := 1.4

  /** The band whose `if`/`elif` test fires first, tests taken in ascending order. */
  function BandOf(price: real, avg: real): Band
    requires avg > 0.0
  {
    if price <= FastLimit * avg then Fast
    else if price <= GoodLimit * avg then Good
    else if price <= SlowLimit * avg then Slow
    else VerySlow
  }

  /** Each band as a ratio interval, lower bound exclusive, upper bound inclusive. */
  predicate InBand(b: Band, price: real, avg: real)
    requires avg > 0.0
  {
    var ratio := price / avg;
    match b
    case Fast => ratio <= FastLimit
    case Good => FastLimit < ratio <= GoodLimit
    case Slow => GoodLimit < ratio <= SlowLimit
    case VerySlow => SlowLimit < ratio
  }

  function Score(b: Band): int {
    match b
    case Fast => 90
    case Good => 75
    case Slow => 50
    case VerySlow => 25
  }

  function BandLabel(b: Band): string {
    match b
    case Fast => "🔥 Revente rapide"
    case Good => "✅ Bonne revente"
    case Slow => "🕐 Vente lente"
    case VerySlow => "🐢 Vente très lente"
  }

  function TimeToSell(b: Band): string {
    match b
    case Fast => "1-7 jours"
    case Good => "7-21 jours"
    case Slow => "2-6 semaines"
    case VerySlow => "1-3 mois"
  }

  /** The multipliers of `avg` giving the estimated resale range of a band. */
  function LowFactor(b: Band): real {
    match b
    case Fast => 0.9
    case Good => 0.95
    case Slow => 0.9
    case VerySlow => 0.8
  }

  function HighFactor(b: Band): real {
    match b
    case Fast => 1.1
    case Good => 1.25
    case Slow => 1.3
    case VerySlow => 1.1
  }

  /** `round(x, 2)`, rounding half up on exact reals. */
  function Round2(x: real): real {
    ((x * 100.0 + 0.5).Floor as real) / 100.0
  }

  /** Rounding to cents never reverses an order. */
  lemma {:induction false} Round2Monotone(x: real, y: real)
    requires x <= y
    ensures Round2(x) <= Round2(y)
  {
    var fx := (x * 100.0 + 0.5).Floor;
    var fy := (y * 100.0 + 0.5).Floor;
    assert fx as real <= x * 100.0 + 0.5 <= y * 100.0 + 0.5 < fy as real + 1.0;
    assert fx <= fy;
  }

  /** Rounding to cents moves a value by at most half a cent. */
  lemma {:induction false} Round2Close(x: real)
    ensures x - 0.005 < Round2(x) <= x + 0.005
  {
    var f := (x * 100.0 + 0.5).Floor;
    assert x * 100.0 - 0.5 < f as real <= x * 100.0 + 0.5;
  }

  function BandEstimate(b: Band, avg: real): Estimate {
    Estimate(BandLabel(b), Score(b), Round2(avg * LowFactor(b)), Round2(avg * HighFactor(b)), TimeToSell(b))
  }

  /** `resale_estimate_and_label(price, avg)`. */
  function ResaleEstimate(price: real, avg: real): (r: Estimate)
    ensures avg <= 0.0 <==> r.score == 0
    ensures r.low <= r.high
  {
    if avg <= 0.0 then Unknown
    else
      var b := BandOf(price, avg);
      Round2Monotone(avg * LowFactor(b), avg * HighFactor(b));
      BandEstimate(b, avg)
  }

  /** With `avg > 0`, `price / avg <= k` and `price <= k * avg` agree. */
  lemma {:induction false} RatioTest(price: real, avg: real, k: real)
    requires avg > 0.0
    ensures price / avg <= k <==> price <= k * avg
  {
    var ratio := price / avg;
    assert ratio * avg == price;
    if ratio <= k {
      assert ratio * avg <= k * avg;
    } else {
      assert k * avg < ratio * avg;
    }
  }

  /** The chain of tests picks exactly the band whose interval holds the ratio. */
  lemma {:induction false} BandOfInBand(price: real, avg: real, b: Band)
    requires avg > 0.0
    ensures BandOf(price, avg) == b <==> InBand(b, price, avg)
  {
    RatioTest(price, avg, FastLimit);
    RatioTest(price, avg, GoodLimit);
    RatioTest(price, avg, SlowLimit);
  }

  /** The four intervals cover every ratio and overlap nowhere. */
  lemma {:induction false} BandsPartition(price: real, avg: real)
    requires avg > 0.0
    ensures InBand(Fast, price, avg) || InBand(Good, price, avg) || InBand(Slow, price, avg) || InBand(VerySlow, price, avg)
    ensures forall b1, b2 :: InBand(b1, price, avg) && InBand(b2, price, avg) ==> b1 == b2
  {
    BandOfInBand(price, avg, BandOf(price, avg));
    forall b1, b2 | InBand(b1, price, avg) && InBand(b2, price, avg)
      ensures b1 == b2
    {
      BandOfInBand(price, avg, b1);
      BandOfInBand(price, avg, b2);
    }
  }

  /**
   * The whole contract of `resale_estimate_and_label`: the fixed unknown
   * answer without a positive average, otherwise the estimate of the band
   * holding the ratio, with a range whose low end is at most its high end.
   */
  lemma {:induction false} ResaleEstimateSpec(price: real, avg: real)
    ensures avg <= 0.0 ==> ResaleEstimate(price, avg) == Unknown
    ensures avg > 0.0 ==> forall b :: InBand(b, price, avg) ==> ResaleEstimate(price, avg) == BandEstimate(b, avg)
    ensures avg > 0.0 ==> ResaleEstimate(price, avg).low <= ResaleEstimate(price, avg).high
  {
    if avg > 0.0 {
      forall b | InBand(b, price, avg)
        ensures ResaleEstimate(price, avg) == BandEstimate(b, avg)
      {
        BandOfInBand(price, avg, b);
      }
      var b := BandOf(price, avg);
      Round2Monotone(avg * LowFactor(b), avg * HighFactor(b));
    }
  }

  /** Without a positive average the price plays no part. */
  lemma {:induction false} UnknownWhatever(p1: real, p2: real, avg: real)
    requires avg <= 0.0
    ensures ResaleEstimate(p1, avg) == ResaleEstimate(p2, avg) == Unknown
  {
  }

  /** The thresholds belong to the lower band: ratios 0.6, 1.0 and 1.4 score 90, 75 and 50. */
  lemma {:induction false} ThresholdsInclusive(avg: real)
    requires avg > 0.0
    ensures ResaleEstimate(0.6 * avg, avg).score == 90
    ensures ResaleEstimate(1.0 * avg, avg).score == 75
    ensures ResaleEstimate(1.4 * avg, avg).score == 50
    ensures ResaleEstimate(1.5 * avg, avg).score == 25
  {
  }

  /** For a fixed positive average a higher price never scores better. */
  lemma {:induction false} ScoreNonIncreasing(p1: real, p2: real, avg: real)
    requires avg > 0.0 && p1 <= p2
    ensures ResaleEstimate(p1, avg).score >= ResaleEstimate(p2, avg).score
  {
  }

  /** The score names the band: the label, range and time follow from it. */
  lemma {:induction false} ScoreDeterminesEstimate(p1: real, p2: real, avg: real)
    requires avg > 0.0
    requires ResaleEstimate(p1, avg).score == ResaleEstimate(p2, avg).score
    ensures ResaleEstimate(p1, avg) == ResaleEstimate(p2, avg)
  {
  }

  /** `market_saturation_label(count)`. */
  function SaturationLabel(count: int): (r: string)
    ensures r == "Peu saturé" || r == "Moyennement saturé" || r == "Très saturé"
  {
    if count < 10 then "Peu saturé"
    else if count < 30 then "Moyennement saturé"
    else "Très saturé"
  }

  /** The three labels as count intervals, each an if-and-only-if. */
  lemma {:induction false} SaturationBands(count: int)
    ensures SaturationLabel(count) == "Peu saturé" <==> count < 10
    ensures SaturationLabel(count) == "Moyennement saturé" <==> 10 <= count < 30
    ensures SaturationLabel(count) == "Très saturé" <==> 30 <= count
  {
    assert "Peu saturé" != "Moyennement saturé" by { assert "Peu saturé"[0] != "Moyennement saturé"[0]; }
    assert "Peu saturé" != "Très saturé" by { assert "Peu saturé"[0] != "Très saturé"[0]; }
    assert "Moyennement saturé" != "Très saturé" by { assert "Moyennement saturé"[0] != "Très saturé"[0]; }
  }

  /** The boundary counts 9, 10, 29 and 30. */
  lemma {:induction false} SaturationBoundaries()
    ensures SaturationLabel(9) == "Peu saturé"
    ensures SaturationLabel(10) == "Moyennement saturé"
    ensures SaturationLabel(29) == "Moyennement saturé"
    ensures SaturationLabel(30) == "Très saturé"
  {
  }
}
