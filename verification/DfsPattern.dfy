/** The ETSI radar test-signal table of the DFS detector and the near-multiple
    test that every candidate interval goes through. */
module DfsPattern {
  import opened CInt

  const PRI_OFFSET: nat := 16

  /** One row of the reference table (`struct radar_pattern_param`). */
  datatype Pattern = Pattern(
    kind: nat, widthMin: nat, widthMax: nat, priMin: nat, priMax: nat,
    priNum: nat, ppb: nat, thresh: nat, tolerance: nat, chirp: nat)

  /** A received pulse; its power and frequency play no part in detection. */
  datatype Pulse = Pulse(ts: nat, width: nat, chirp: nat)

  function PrfToPri(prf: nat): nat
    requires prf > 0
  {
    (1000000 + prf / 2) / prf
  }

  function EtsiPattern(kind: nat, wMin: nat, wMax: nat, prfMin: nat, prfMax: nat,
                       prf: nat, ppb: nat, chirp: nat): Pattern
    requires prfMin > 0 && prfMax > 0 && PrfToPri(prfMax) >= PRI_OFFSET
  {
    Pattern(kind, (wMin * 95 + 50) / 100, (wMax * 105 + 50) / 100,
            PrfToPri(prfMax) - PRI_OFFSET, PrfToPri(prfMin) * prf + PRI_OFFSET,
            prf, ppb * prf, (ppb * 50 + 50) / 100, PRI_OFFSET, chirp)
  }

  const ETSI_PATTERNS: seq<Pattern> := [
    EtsiPattern(0, 0, 1, 700, 700, 1, 18, 0),
    EtsiPattern(1, 0, 5, 200, 1000, 1, 10, 0),
    EtsiPattern(2, 0, 15, 200, 1600, 1, 15, 0),
    EtsiPattern(3, 0, 15, 2300, 4000, 1, 25, 0),
    EtsiPattern(4, 20, 30, 2000, 4000, 1, 20, 0),
    EtsiPattern(5, 0, 2, 300, 400, 3, 10, 0),
    EtsiPattern(6, 0, 2, 400, 1200, 3, 15, 0)
  ]

  /** What the detector's arithmetic relies on: fields fit their C types, the
      tolerance separates neighbouring multiples, and a bare pair of pulses is
      never a detection. */
  ghost predicate Usable(p: Pattern) {
    && p.widthMin <= p.widthMax < TWO_8
    && 3 * p.tolerance < p.priMin <= p.priMax < TWO_16
    && PRI_OFFSET <= p.tolerance < TWO_8
    && 1 <= p.priNum < TWO_8
    && 3 <= p.thresh <= p.ppb < TWO_8
  }

  /** Every row of the reference table is usable. */
  lemma EtsiPatternsUsable(i: nat)
    requires i < |ETSI_PATTERNS|
    ensures Usable(ETSI_PATTERNS[i])
  {
    assert i == 0 || i == 1 || i == 2 || i == 3 || i == 4 || i == 5 || i == 6;
  }

  /** The table's rows as the reference tests give them: widths widened by 5 %, intervals in
      microseconds with 16 to spare, half the pulses of a burst to be heard. */
  lemma EtsiRows()
    ensures ETSI_PATTERNS == [
      Pattern(0, 0, 1, 1413, 1445, 1, 18, 9, 16, 0),
      Pattern(1, 0, 5, 984, 5016, 1, 10, 5, 16, 0),
      Pattern(2, 0, 16, 609, 5016, 1, 15, 8, 16, 0),
      Pattern(3, 0, 16, 234, 451, 1, 25, 13, 16, 0),
      Pattern(4, 19, 32, 234, 516, 1, 20, 10, 16, 0),
      Pattern(5, 0, 2, 2484, 10015, 3, 30, 5, 16, 0),
      Pattern(6, 0, 2, 817, 7516, 3, 45, 8, 16, 0)
    ]
  {
  }

  predicate Matches(p: Pattern, pulse: Pulse) {
    p.widthMin <= pulse.width <= p.widthMax && p.chirp == pulse.chirp
  }

  // ----- near multiples -----

  /** `val` lies within `tolerance` of `k` whole intervals. */
  predicate Near(val: int, k: nat, fraction: nat, tolerance: nat) {
    0 - tolerance <= val - k * fraction <= tolerance
  }

  /** etsi_get_multiple: how many intervals `val` spans, 0 when it spans none. */
  function GetMultiple(val: nat, fraction: nat, tolerance: nat): nat {
    if fraction == 0 then 0 else
    var delta := if val < fraction then fraction - val else val - fraction;
    if delta <= tolerance then 1 else
    var factor := val / fraction;
    var remainder := val % fraction;
    if remainder <= tolerance then factor
    else if fraction - remainder <= tolerance then factor + 1
    else 0
  }

  lemma {:induction false} MultipleOrder(k: nat, m: nat, fraction: nat)
    requires k <= m
    ensures k * fraction <= m * fraction
    ensures k < m ==> k * fraction + fraction <= m * fraction
    decreases m
  {
    if k < m {
      MultipleOrder(k, m - 1, fraction);
      assert m * fraction == (m - 1) * fraction + fraction;
    }
  }

  lemma QuotientAndRemainder(val: nat, fraction: nat) returns (factor: nat, remainder: nat)
    requires fraction > 0
    ensures factor == val / fraction && remainder == val % fraction < fraction
    ensures val == factor * fraction + remainder
    ensures (factor + 1) * fraction == factor * fraction + fraction
  {
    factor, remainder := val / fraction, val % fraction;
  }

  /** A positive answer is a real multiple, for every interval and tolerance. */
  lemma MultipleIsNear(val: nat, fraction: nat, tolerance: nat)
    ensures var k := GetMultiple(val, fraction, tolerance);
            k > 0 ==> Near(val, k, fraction, tolerance)
  {
    if fraction > 0 {
      var factor, remainder := QuotientAndRemainder(val, fraction);
    }
  }

  /** The answer is 0 exactly when no positive multiple is within tolerance. */
  lemma MultipleFindsOne(val: nat, fraction: nat, tolerance: nat, k: nat)
    requires fraction > 0 && k >= 1 && Near(val, k, fraction, tolerance)
    ensures GetMultiple(val, fraction, tolerance) > 0
  {
    var factor, remainder := QuotientAndRemainder(val, fraction);
    if k <= factor {
      MultipleOrder(k, factor, fraction);
    } else {
      MultipleOrder(factor + 1, k, fraction);
    }
  }

  /** Once intervals are wider than twice the tolerance the answer is the one
      positive k with |val - k * fraction| <= tolerance. */
  lemma MultipleIsUnique(val: nat, fraction: nat, tolerance: nat, k: nat)
    requires fraction > 2 * tolerance && k >= 1
    ensures GetMultiple(val, fraction, tolerance) == k <==> Near(val, k, fraction, tolerance)
  {
    MultipleIsNear(val, fraction, tolerance);
    var m := GetMultiple(val, fraction, tolerance);
    if Near(val, k, fraction, tolerance) {
      MultipleFindsOne(val, fraction, tolerance, k);
      if m < k {
        MultipleOrder(m, k, fraction);
      } else if k < m {
        MultipleOrder(k, m, fraction);
      }
    }
  }
}
