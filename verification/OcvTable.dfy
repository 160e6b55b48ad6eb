/** Open-circuit voltage to charge: a table look-up in the narrow integer types
    the driver uses, and the two scalings made of it. */
module OcvTable {
  import opened CInt

  const MAX_INTERPOLATE := 1000
  const MAX_PERCENTAGE := 100
  const MAX_INT := 0x7FFF
  const POINTS := 21

  /** First knot above the voltage; the comparison converts it to unsigned. */
  function Knot(value: int, table: seq<nat>, i: nat): (k: nat)
    requires i <= |table|
    ensures i <= k <= |table|
    ensures k < |table| ==> U32(value) < table[k]
    ensures forall j :: i <= j < k ==> table[j] <= U32(value)
    decreases |table| - i
  {
    if i == |table| || U32(value) < table[i] then i else Knot(value, table, i + 1)
  }

  /** What lies between two knots: an unsigned product cut to 16 bits, divided,
      and offset by the knot's share. */
  function Between(value: int, table: seq<nat>, i: nat): nat
    requires 0 < i < |table| && table[i - 1] < table[i]
  {
    var share := MAX_INTERPOLATE / (|table| - 1);
    var d := U16(U32((U32(value) - table[i - 1]) * share));
    U16(d / (table[i] - table[i - 1]) + (i - 1) * share)
  }

  ghost predicate Rising(table: seq<nat>) {
    && (forall i :: 0 <= i < |table| ==> table[i] < TWO_32)
    && (forall i, j :: 0 <= i < j < |table| ==> table[i] < table[j])
  }

  /** interpolate, on tables short enough for its 8-bit index. */
  method Interpolate(value: int, table: seq<nat>) returns (r: nat)
    requires Rising(table) && |table| <= 255
    ensures r == Interpolated(value, table)
  {
    if |table| < 2 {
      return 0;
    }
    var i := 0;
    while i < |table|
      invariant 0 <= i <= |table|
      invariant Knot(value, table, 0) == Knot(value, table, i)
    {
      if U32(value) < table[i] {
        break;
      }
      i := i + 1;
    }
    var d: nat;
    if 0 < i < |table| {
      d := Between(value, table, i);
    } else {
      d := U16(i * ((MAX_INTERPOLATE + |table| / 2) / |table|));
    }
    r := if d > 1000 then 1000 else d;
  }

  function Interpolated(value: int, table: seq<nat>): (d: nat)
    requires Rising(table)
    ensures d <= 1000
  {
    if |table| < 2 then 0
    else
      var i := Knot(value, table, 0);
      var d := if 0 < i < |table| then Between(value, table, i)
               else U16(i * ((MAX_INTERPOLATE + |table| / 2) / |table|));
      if d > 1000 then 1000 else d
  }

  /** ab_div_c: rounds, saturates at 0x7FFF, and takes its sign from the top bits. */
  function AbDivC(a: nat, b: nat, c: nat): int
    requires a < TWO_32 && b < TWO_32 && c < TWO_32
  {
    var sign := (a >= 0x8000_0000) != ((b >= 0x8000_0000) != (c >= 0x8000_0000));
    var ans := if c == 0 then MAX_INT else Saturated(Signed(Rounded(Product(a, b), Divisor(c, sign))));
    Signed(if sign then U32(-ans) else ans)
  }

  function Product(a: nat, b: nat): nat {
    a * b
  }

  /** The divisor, negated as a word when the result is to be negative. */
  function Divisor(c: nat, negate: bool): (d: nat)
    requires 0 < c < TWO_32
    ensures 0 < d < TWO_32
  {
    if negate then TWO_32 - c else c
  }

  /** Unsigned division rounded to nearest; only the sum wraps. */
  function Rounded(p: nat, d: nat): (r: nat)
    requires 0 < d < TWO_32
    ensures r < TWO_32
  {
    assert U32(p + d / 2) / d <= U32(p + d / 2) by { QuotientAtMost(U32(p + d / 2), d); }
    U32(p + d / 2) / d
  }

  lemma QuotientAtMost(x: nat, d: nat)
    requires 0 < d
    ensures x / d <= x
  {
    var q := x / d;
    QuotientTimes(x, d);
    ProductBelow(1, d, q);
  }

  function Saturated(tmp: int): nat {
    if tmp < MAX_INT then U32(tmp) else MAX_INT
  }

  /** Conversion of an unsigned word to `int`. */
  function Signed(x: nat): int
    requires x < TWO_32
  {
    if x < 0x8000_0000 then x else x - TWO_32
  }

  function VolToSoc(table: seq<nat>, voltage: int): int
    requires Rising(table)
  {
    AbDivC(Interpolated(voltage, table), MAX_PERCENTAGE, MAX_INTERPOLATE)
  }

  function VolToCap(table: seq<nat>, fcc: int, voltage: int): int
    requires Rising(table)
  {
    AbDivC(Interpolated(voltage, table), U32(fcc), MAX_INTERPOLATE)
  }

  // ----- the 21-point table -----

  /** A table whose neighbouring knots are at most 1310 mV apart. */
  ghost predicate Fine(table: seq<nat>) {
    |table| == POINTS && Rising(table) && forall i :: 0 < i < |table| ==> table[i] - table[i - 1] <= 1310
  }

  lemma QuotientBelow(x: nat, gap: nat)
    requires x < gap
    ensures x * 50 / gap < 50
  {
    var q := x * 50 / gap;
    assert q * gap <= x * 50 < 50 * gap;
    assert q < 50 by { ProductOrder(q, 50, gap); }
  }

  lemma UncutProduct(x: nat)
    requires x < TWO_16
    ensures U16(U32(x)) == x
  {
  }

  lemma UncutSum(q: nat, i: nat)
    requires q < 50 && 0 < i <= 20
    ensures U16(q + (i - 1) * 50) == q + (i - 1) * 50
  {
  }

  /** Nothing is truncated between two knots of a fine table. */
  lemma BetweenExact(value: nat, table: seq<nat>, i: nat)
    requires Fine(table) && value < TWO_32 && 0 < i < |table| && table[i - 1] <= value < table[i]
    ensures var gap := table[i] - table[i - 1];
            && Between(value, table, i) == (value - table[i - 1]) * 50 / gap + (i - 1) * 50
            && (i - 1) * 50 <= Between(value, table, i) < i * 50
  {
    var gap, x := table[i] - table[i - 1], value - table[i - 1];
    QuotientBelow(x, gap);
    assert MAX_INTERPOLATE / (|table| - 1) == 50;
    assert x <= 1309;
    UncutProduct(x * 50);
    var q := x * 50 / gap;
    UncutSum(q, i);
  }

  lemma KnotMonotone(v: nat, w: nat, table: seq<nat>)
    requires Rising(table) && v <= w < TWO_32
    ensures Knot(v, table, 0) <= Knot(w, table, 0)
  {
    var i, j := Knot(v, table, 0), Knot(w, table, 0);
    assert j < |table| ==> U32(v) < table[j];
  }

  /** The reading by the knot found: nothing below the table, a fiftieth-step
      share between knots, everything above the table. */
  lemma InterpolatedAt(v: nat, table: seq<nat>, i: nat)
    requires Fine(table) && v < TWO_32 && i == Knot(v, table, 0)
    ensures i == 0 ==> Interpolated(v, table) == 0
    ensures i == POINTS ==> Interpolated(v, table) == 1000
    ensures 0 < i < POINTS ==>
      && table[i - 1] <= v < table[i]
      && Interpolated(v, table) == (v - table[i - 1]) * 50 / (table[i] - table[i - 1]) + (i - 1) * 50
      && (i - 1) * 50 <= Interpolated(v, table) < i * 50
  {
    if 0 < i < POINTS {
      BetweenExact(v, table, i);
    }
  }

  lemma InterpolatedMonotone(v: nat, w: nat, table: seq<nat>)
    requires Fine(table) && v <= w < TWO_32
    ensures Interpolated(v, table) <= Interpolated(w, table)
  {
    var i, j := Knot(v, table, 0), Knot(w, table, 0);
    KnotMonotone(v, w, table);
    InterpolatedAt(v, table, i);
    InterpolatedAt(w, table, j);
    if i == j && 0 < i < POINTS {
      QuotientMonotone((v - table[i - 1]) * 50, (w - table[i - 1]) * 50, table[i] - table[i - 1]);
    }
  }

  lemma FirstKnots(v: nat, table: seq<nat>)
    requires Rising(table) && |table| == POINTS && v < TWO_32
    ensures v < table[0] ==> Knot(v, table, 0) == 0
    ensures v == table[0] ==> Knot(v, table, 0) == 1
    ensures v >= table[POINTS - 1] <==> Knot(v, table, 0) == POINTS
  {
    var i := Knot(v, table, 0);
    assert i > 0 ==> table[0] <= v;
    assert table[0] < table[1];
    assert i > 1 ==> table[1] <= v;
    assert i < POINTS - 1 ==> table[i] < table[POINTS - 1];
  }

  lemma InterpolatedEnds(v: nat, table: seq<nat>)
    requires Fine(table) && v < TWO_32
    ensures v <= table[0] ==> Interpolated(v, table) == 0
    ensures v >= table[POINTS - 1] <==> Interpolated(v, table) == 1000
  {
    FirstKnots(v, table);
    InterpolatedAt(v, table, Knot(v, table, 0));
  }

  lemma RoundedBelow(x: nat, b: nat)
    requires x <= 1000 * b
    ensures (x + 500) / 1000 <= b
  {
  }

  lemma RoundedExact(x: nat)
    requires x < 0x7fff_0000
    ensures Signed(Rounded(x, 1000)) == (x + 500) / 1000
  {
    assert U32(x + 500) == x + 500;
  }

  /** Rounding of a non-negative product, unsaturated. */
  lemma AbDivCExact(a: nat, b: nat)
    requires a <= 1000 && b < MAX_INT
    ensures AbDivC(a, b, 1000) == (a * b + 500) / 1000 <= b
  {
    var x := a * b;
    ProductBelow(a, 1000, b);
    RoundedExact(x);
    RoundedBelow(x, b);
  }

  lemma AbDivCMonotone(a: nat, a': nat, b: nat)
    requires a <= a' <= 1000 && b < MAX_INT
    ensures AbDivC(a, b, 1000) <= AbDivC(a', b, 1000)
  {
    AbDivCExact(a, b);
    AbDivCExact(a', b);
    ProductBelow(a, a', b);
    RoundedOrder(a * b, a' * b);
  }

  lemma RoundedOrder(x: nat, y: nat)
    requires x <= y
    ensures (x + 500) / 1000 <= (y + 500) / 1000
  {
  }

  /** Charge follows voltage: monotone, from 0 to 100 percent and to the full
      capacity, with both ends reached. */
  lemma ChargeFollowsVoltage(table: seq<nat>, fcc: nat, v: nat, w: nat)
    requires Fine(table) && fcc < MAX_INT && v <= w < TWO_32
    ensures 0 <= VolToSoc(table, v) <= VolToSoc(table, w) <= 100
    ensures 0 <= VolToCap(table, fcc, v) <= VolToCap(table, fcc, w) <= fcc
    ensures v <= table[0] ==> VolToSoc(table, v) == 0 && VolToCap(table, fcc, v) == 0
    ensures v >= table[POINTS - 1] ==> VolToSoc(table, v) == 100 && VolToCap(table, fcc, v) == fcc
  {
    InterpolatedMonotone(v, w, table);
    InterpolatedEnds(v, table);
    var d, e := Interpolated(v, table), Interpolated(w, table);
    AbDivCMonotone(d, e, 100);
    AbDivCMonotone(d, e, fcc);
    AbDivCExact(d, 100);
    AbDivCExact(d, fcc);
    AbDivCExact(e, 100);
    AbDivCExact(e, fcc);
  }

  /** Every voltage an `int` can hold. */
  predicate IsInt(v: int) {
    -0x8000_0000 <= v < 0x8000_0000
  }

  /** A fine table of voltages below 2^31, as every table of millivolts is. */
  ghost predicate Usable(table: seq<nat>) {
    Fine(table) && table[POINTS - 1] < 0x8000_0000
  }

  lemma NegativeInterpolates(table: seq<nat>, v: int)
    requires Usable(table) && -0x8000_0000 <= v < 0
    ensures Interpolated(v, table) == 1000
  {
    assert U32(v) == v + TWO_32;
    assert Knot(v, table, 0) == POINTS;
  }

  /** A negative voltage is converted to a huge one and reads as a full battery. */
  lemma NegativeReadsFull(table: seq<nat>, fcc: nat, v: int)
    requires Usable(table) && fcc < MAX_INT && -0x8000_0000 <= v < 0
    ensures VolToSoc(table, v) == 100 && VolToCap(table, fcc, v) == fcc
  {
    NegativeInterpolates(table, v);
    AbDivCExact(1000, 100);
    AbDivCExact(1000, fcc);
  }

  /** Over all voltages an `int` can hold, a higher voltage reads no less than a
      lower one unless the lower is negative and the higher lies between zero and
      the table's last knot. */
  lemma MonotoneExactly(table: seq<nat>, v: int, w: int)
    requires Usable(table) && IsInt(v) && IsInt(w) && v <= w
    ensures Interpolated(v, table) <= Interpolated(w, table)
      <==> v >= 0 || w < 0 || w >= table[POINTS - 1]
  {
    if v < 0 {
      NegativeInterpolates(table, v);
      if w < 0 {
        NegativeInterpolates(table, w);
      } else {
        InterpolatedEnds(w, table);
      }
    } else {
      InterpolatedMonotone(v, w, table);
    }
  }

  /** The voltage from which a fine table reads `r` thousandths: the share of a knot's
      fifty that `r` asks for, in the same share of the way to the next knot. */
  predicate Reaches(table: seq<nat>, w: int, r: int)
    requires |table| == POINTS
  {
    r <= 0 || (r == 1000 && w >= table[POINTS - 1]) ||
    (r < 1000 && 50 * (w - table[r / 50]) >= r % 50 * (table[r / 50 + 1] as int - table[r / 50]))
  }

  lemma ReachesInSegment(table: seq<nat>, w: nat, i: nat, s: nat)
    requires Fine(table) && w < TWO_32 && 0 < i < POINTS && i == Knot(w, table, 0) && s < 50
    ensures Interpolated(w, table) >= (i - 1) * 50 + s <==> 50 * (w - table[i - 1]) >= s * (table[i] - table[i - 1])
  {
    var gap, x := table[i] - table[i - 1], (w - table[i - 1]) * 50;
    InterpolatedAt(w, table, i);
    var q := x / gap;
    QuotientTimes(x, gap);
    if q >= s {
      ProductBelow(s, q, gap);
    } else {
      ProductBelow(q + 1, s, gap);
    }
  }

  lemma ShareOfStep(q: nat, s: nat, i: nat)
    requires s < 50 && q < i
    ensures q * 50 + s < i * 50
  {
  }

  /** The reading reaches a mark exactly from that voltage on. */
  lemma ReachesExactly(table: seq<nat>, w: nat, r: int)
    requires Fine(table) && w < TWO_32 && r <= 1000
    ensures Interpolated(w, table) >= r <==> Reaches(table, w, r)
  {
    var i := Knot(w, table, 0);
    InterpolatedAt(w, table, i);
    if r == 1000 {
      InterpolatedEnds(w, table);
    } else if r > 0 {
      var q, s := r / 50, r % 50;
      assert r == q * 50 + s;
      if i == q + 1 {
        ReachesInSegment(table, w, i, s);
      } else if i <= q {
        BelowSegment(table, w, q, s, i);
      } else {
        AboveSegment(table, w, q, s, i);
      }
    }
  }

  lemma BelowSegment(table: seq<nat>, w: nat, q: nat, s: nat, i: nat)
    requires Fine(table) && w < TWO_32 && i == Knot(w, table, 0) && i <= q < POINTS - 1 && s < 50 && 0 < q * 50 + s
    ensures Interpolated(w, table) < q * 50 + s
    ensures 50 * (w - table[q]) < s * (table[q + 1] - table[q])
  {
    InterpolatedAt(w, table, i);
    assert table[i] <= table[q];
    assert w < table[i];
    ProductBelow(0, s, table[q + 1] - table[q]);
  }

  lemma AboveSegment(table: seq<nat>, w: nat, q: nat, s: nat, i: nat)
    requires Fine(table) && w < TWO_32 && i == Knot(w, table, 0) && q + 1 < i <= POINTS && q < POINTS - 1 && s < 50
    ensures Interpolated(w, table) >= q * 50 + s
    ensures 50 * (w - table[q]) >= s * (table[q + 1] - table[q])
  {
    InterpolatedAt(w, table, i);
    ShareOfStep(q, s, q + 1);
    assert table[q + 1] <= w;
    ProductBelow(s, 50, table[q + 1] - table[q]);
  }

  /** The same for the percentage, which rounds the last readings up to 100: nine tenths
      of the way between the last two knots are enough. */
  lemma SocMonotoneExactly(table: seq<nat>, v: int, w: int)
    requires Usable(table) && IsInt(v) && IsInt(w) && v <= w
    ensures VolToSoc(table, v) <= VolToSoc(table, w)
      <==> v >= 0 || w < 0 || 10 * (w - table[19]) >= 9 * (table[20] - table[19])
  {
    var d, e := Interpolated(v, table), Interpolated(w, table);
    AbDivCExact(d, 100);
    AbDivCExact(e, 100);
    if v >= 0 {
      InterpolatedMonotone(v, w, table);
      AbDivCMonotone(d, e, 100);
    } else {
      NegativeInterpolates(table, v);
      if w < 0 {
        NegativeInterpolates(table, w);
      } else {
        ReachesExactly(table, w, 995);
      }
    }
  }

  /** The lowest reading that rounds to the full capacity. */
  function FullMark(fcc: nat): int {
    if fcc == 0 then 0 else 1000 - 500 / fcc
  }

  lemma RoundsToFull(d: nat, fcc: nat)
    requires d <= 1000
    ensures (d * fcc + 500) / 1000 >= fcc <==> d >= FullMark(fcc)
  {
    if fcc > 0 {
      var m := 500 / fcc;
      QuotientTimes(500, fcc);
      ProductOrder(0, m + 1, fcc);
      assert d * fcc + (1000 - d) * fcc == 1000 * fcc;
      if 1000 - d <= m {
        ProductBelow(1000 - d, m, fcc);
      } else {
        ProductBelow(m + 1, 1000 - d, fcc);
      }
    }
  }

  lemma FullMarkInRange(fcc: nat)
    ensures FullMark(fcc) <= 1000
  {
    if fcc > 0 {
      QuotientTimes(500, fcc);
      ProductOrder(0, 500 / fcc + 1, fcc);
    }
  }

  lemma ReadsFullExactly(table: seq<nat>, fcc: nat, w: nat)
    requires Fine(table) && fcc < MAX_INT && w < TWO_32
    ensures VolToCap(table, fcc, w) >= fcc <==> Reaches(table, w, FullMark(fcc))
  {
    var e := Interpolated(w, table);
    AbDivCExact(e, fcc);
    RoundsToFull(e, fcc);
    FullMarkInRange(fcc);
    ReachesExactly(table, w, FullMark(fcc));
  }

  /** And for the capacity, which rounds to whole units of charge. */
  lemma CapMonotoneExactly(table: seq<nat>, fcc: nat, v: int, w: int)
    requires Usable(table) && fcc < MAX_INT && IsInt(v) && IsInt(w) && v <= w
    ensures VolToCap(table, fcc, v) <= VolToCap(table, fcc, w)
      <==> v >= 0 || w < 0 || Reaches(table, w, FullMark(fcc))
  {
    var d, e := Interpolated(v, table), Interpolated(w, table);
    if v >= 0 {
      InterpolatedMonotone(v, w, table);
      AbDivCMonotone(d, e, fcc);
    } else {
      NegativeReadsFull(table, fcc, v);
      if w < 0 {
        NegativeReadsFull(table, fcc, w);
      } else {
        ReadsFullExactly(table, fcc, w);
      }
    }
  }

  /** The pair at zero: one millivolt less reads as full, zero as empty. */
  lemma MinusOneReadsAboveZero(table: seq<nat>, fcc: nat)
    requires Usable(table) && 0 < fcc < MAX_INT
    ensures VolToSoc(table, -1) == 100 && VolToSoc(table, 0) == 0
    ensures VolToCap(table, fcc, -1) == fcc > VolToCap(table, fcc, 0)
  {
    NegativeReadsFull(table, fcc, -1);
    InterpolatedEnds(0, table);
    AbDivCExact(0, 100);
    AbDivCExact(0, fcc);
  }
}
