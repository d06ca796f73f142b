/** The radar patterns of the regulatory domains, from `dfs_pattern_detector.c`. */
module RadarTypes {
  import opened Options
  import opened Radar

  /** `nl80211_dfs_regions`. */
  datatype Region = Unset | Fcc | Etsi | Jp

  const WIDTH_TOLERANCE: nat := 5
  const MIN_PPB_THRESH: nat := 50

  function Threshold(ppb: nat, rate: nat): nat
    requires rate <= 100
  {
    (ppb * rate + 100 - rate) / 100
  }

  function PrfToPri(prf: nat): nat
    requires 0 < prf
  {
    (1000000 + prf / 2) / prf
  }

  function WidthLower(x: nat): nat { (x * (100 - WIDTH_TOLERANCE) + 50) / 100 }

  function WidthUpper(x: nat): nat { (x * (100 + WIDTH_TOLERANCE) + 50) / 100 }

  /** A pattern given by the range of its PRI. */
  function Pattern(wmin: nat, wmax: nat, pmin: nat, pmax: nat, prf: nat, ppb: nat, rate: nat, chirp: bool): Specs
    requires PRI_TOLERANCE <= pmin && rate <= 100
  {
    Specs(WidthLower(wmin), WidthUpper(wmax), pmin - PRI_TOLERANCE, pmax * prf + PRI_TOLERANCE, prf,
          ppb * prf, Threshold(ppb, rate), PRI_TOLERANCE, chirp)
  }

  /** `ETSI_PATTERN`: a pattern given by the range of its frequency. */
  function EtsiPattern(wmin: nat, wmax: nat, fmin: nat, fmax: nat, prf: nat, ppb: nat): Specs
    requires 0 < fmin && 0 < fmax && PRI_TOLERANCE <= PrfToPri(fmax)
  {
    Pattern(wmin, wmax, PrfToPri(fmax), PrfToPri(fmin), prf, ppb, MIN_PPB_THRESH, false)
  }

  const ETSI: seq<Specs> := [
    EtsiPattern(0, 1, 700, 700, 1, 18),
    EtsiPattern(0, 5, 200, 1000, 1, 10),
    EtsiPattern(0, 15, 200, 1600, 1, 15),
    EtsiPattern(0, 15, 2300, 4000, 1, 25),
    EtsiPattern(20, 30, 2000, 4000, 1, 20),
    EtsiPattern(0, 2, 300, 400, 3, 10),
    EtsiPattern(0, 2, 400, 1200, 3, 15)]

  const FCC: seq<Specs> := [
    Pattern(0, 1, 1428, 1428, 1, 18, MIN_PPB_THRESH, false),
    Pattern(0, 1, 518, 938, 1, 57, MIN_PPB_THRESH, false),
    Pattern(0, 1, 938, 2000, 1, 27, MIN_PPB_THRESH, false),
    Pattern(0, 1, 2000, 3066, 1, 18, MIN_PPB_THRESH, false),
    Pattern(0, 5, 150, 230, 1, 23, MIN_PPB_THRESH, false),
    Pattern(6, 10, 200, 500, 1, 16, MIN_PPB_THRESH, false),
    Pattern(11, 20, 200, 500, 1, 12, MIN_PPB_THRESH, false),
    Pattern(50, 100, 1000, 2000, 1, 1, MIN_PPB_THRESH, true),
    Pattern(0, 1, 333, 333, 1, 9, MIN_PPB_THRESH, false)]

  const JP: seq<Specs> := [
    Pattern(0, 1, 1428, 1428, 1, 18, 29, false),
    Pattern(2, 3, 3846, 3846, 1, 18, 29, false),
    Pattern(0, 1, 1388, 1388, 1, 18, 50, false),
    Pattern(1, 2, 4000, 4000, 1, 18, 50, false),
    Pattern(0, 5, 150, 230, 1, 23, 50, false),
    Pattern(6, 10, 200, 500, 1, 16, 50, false),
    Pattern(11, 20, 200, 500, 1, 12, 50, false),
    Pattern(50, 100, 1000, 2000, 1, 3, 50, false),
    Pattern(0, 1, 333, 333, 1, 9, 50, false)]

  /** `get_dfs_domain_radar_types`: every pattern of a supported domain is fit for a detector. */
  function Types(region: Region): (types: Option<seq<Specs>>)
    ensures types == None <==> region == Unset
    ensures types.Some? ==> forall i :: 0 <= i < |types.value| ==> SpecsOk(types.value[i])
  {
    match region
    case Unset => None
    case Etsi => Some(ETSI)
    case Fcc => Some(FCC)
    case Jp => Some(JP)
  }

  /** Rounding to the nearest: a PRI from a frequency, and a width 5% up or down. */
  lemma Rounded(x: nat)
    ensures 0 < x ==> 2 * 1000000 - x < 2 * x * PrfToPri(x) <= 2 * 1000000 + x
    ensures 95 * x - 50 <= 100 * WidthLower(x) <= 95 * x + 50
    ensures 105 * x - 50 <= 100 * WidthUpper(x) <= 105 * x + 50
  {
    if 0 < x { Nearest(1000000, x); }
  }

  lemma Nearest(a: nat, x: nat)
    requires 0 < x
    ensures 2 * a - x < 2 * x * ((a + x / 2) / x) <= 2 * a + x
  {
    var b, q := a + x / 2, (a + x / 2) / x;
    assert b == x * q + b % x;
    assert 2 * x * q == 2 * (x * q);
  }

  /** The threshold is the least number of pulses that is more than the given share of all but one. */
  lemma ThresholdLeast(ppb: nat, rate: nat)
    requires rate <= 100 && 1 <= ppb
    ensures (ppb - 1) * rate < 100 * Threshold(ppb, rate) <= (ppb - 1) * rate + 100
  {
    assert ppb * rate + 100 - rate == (ppb - 1) * rate + 100;
  }
}
