/**
 Radar patterns of `dfs_pri_detector.c`: pulse repetition intervals (PRI),
 multiples of them within a tolerance, and sequences of pulses that follow one.
 Time stamps are 64-bit microseconds; intervals are 32-bit.
 */
module Radar {

  const TWO32: nat := 0x1_0000_0000
  const TWO64: nat := 0x1_0000_0000_0000_0000
  const PRI_TOLERANCE: nat := 16

  /** `radar_detector_specs`. */
  datatype Specs = Specs(widthMin: nat, widthMax: nat, priMin: nat, priMax: nat, numPri: nat,
                         ppb: nat, ppbThresh: nat, tolerance: nat, chirp: bool)

  /** The field widths of the specs; the tolerance is never below the one that widens the PRI range. */
  predicate SpecsOk(rs: Specs) {
    && rs.priMin < 0x1_0000 && rs.priMax < 0x1_0000 && 1 <= rs.priMin
    && 1 <= rs.ppb < 256 && rs.numPri < 256 && rs.ppbThresh < 256
    && PRI_TOLERANCE <= rs.tolerance < 256
  }

  /** `delta` lies within the tolerance of a positive multiple of `pri`. */
  ghost predicate NearMultiple(delta: int, pri: int, tolerance: int) {
    exists k: int :: 1 <= k && -tolerance <= delta - k * pri <= tolerance
  }

  /** `pde_get_multiple`. */
  function Multiple(val: nat, fraction: nat, tolerance: nat): (factor: nat)
  {
    if fraction == 0 then 0 else
    var delta := if val < fraction then fraction - val else val - fraction;
    if delta <= tolerance then 1 else
    var factor, remainder := val / fraction, val % fraction;
    if remainder <= tolerance then factor
    else if fraction - remainder <= tolerance then factor + 1
    else 0
  }

  lemma Product(a: int, b: int, c: int)
    requires a <= b && 0 <= c
    ensures a * c <= b * c
  {
  }

  lemma Quotient(val: nat, f: nat)
    requires 0 < f
    ensures val == val / f * f + val % f && val % f < f
  {
  }

  lemma NearBy(val: nat, f: nat, tolerance: nat, k: int, product: int)
    requires 1 <= k && product == k * f && -(tolerance as int) <= val - product <= tolerance
    ensures NearMultiple(val, f, tolerance)
  {
  }

  /** A positive factor is itself a multiple within the tolerance. */
  lemma MultipleNear(val: nat, f: nat, tolerance: nat)
    requires 0 < Multiple(val, f, tolerance)
    ensures NearMultiple(val, f, tolerance)
  {
    hide NearMultiple;
    var delta := if val < f then f - val else val - f;
    var q, r := val / f, val % f;
    Quotient(val, f);
    if delta <= tolerance { NearBy(val, f, tolerance, 1, f); }
    else if r <= tolerance { NearBy(val, f, tolerance, q, q * f); }
    else { NearBy(val, f, tolerance, q + 1, q * f + f); }
  }

  /** The factor is positive exactly when some positive multiple lies within the tolerance. */
  lemma MultipleExact(val: nat, f: nat, tolerance: nat)
    requires 0 < f
    ensures 0 < Multiple(val, f, tolerance) <==> NearMultiple(val, f, tolerance)
  {
    if 0 < Multiple(val, f, tolerance) {
      MultipleNear(val, f, tolerance);
    } else {
      forall k: int | 1 <= k ensures !(-(tolerance as int) <= val - k * f <= tolerance) {
        Quotient(val, f);
        NoMultiple(val, f, tolerance, k, val / f, val % f, val / f * f, k * f);
      }
    }
  }

  lemma NoMultiple(val: nat, f: nat, tolerance: nat, k: int, q: nat, r: nat, below: int, there: int)
    requires 0 < f && below == q * f && there == k * f && val == below + r && r < f && 1 <= k
    requires if val < f then tolerance < f - val else tolerance < val - f
    requires (q == 0 && r <= tolerance) || (tolerance < r && tolerance < f - r)
    ensures !(-(tolerance as int) <= val - there <= tolerance)
  {
    if k <= q {
      Product(k, q, f);
    } else {
      Product(q + 1, k, f);
      assert (q + 1) * f == below + f;
    }
  }
}
