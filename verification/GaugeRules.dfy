/** The arithmetic of the fuel gauge's display algorithms, in C's integer division. */
module GaugeRules {
  import opened CInt

  /** The driver's DIV macro. */
  function NonZero(x: int): (r: int)
    ensures r != 0 && (x != 0 ==> r == x)
  {
    if x != 0 then x else 1
  }

  function Larger(a: int, b: int): int {
    if a < b then b else a
  }

  /** What user space is shown. */
  function Published(dsoc: int): nat {
    if dsoc < 0 then 0 else dsoc
  }

  // ----- the smooth algorithm's slope -----

  /** rk817_bat_calc_sm_linek */
  function SmLinek(dsoc: int, rsoc: int, current: int): int {
    var delta: int := Abs(dsoc - rsoc);
    var diff := delta * 3;
    if current > 0 then
      if dsoc < rsoc then Quot(1000 * (delta + diff), NonZero(diff))
      else if dsoc > rsoc then Quot(1000 * diff, NonZero(delta + diff))
      else 1000
    else
      if dsoc < rsoc then Quot(-1000 * diff, NonZero(delta + diff))
      else if dsoc > rsoc then Quot(-1000 * (delta + diff), NonZero(diff))
      else -1000
  }

  lemma FixedQuotients(delta: nat)
    requires 0 < delta
    ensures 4000 * delta / (3 * delta) == 1333
    ensures 3000 * delta / (4 * delta) == 750
  {
    QuotientIs(4000 * delta, 3 * delta, 1333);
    QuotientIs(3000 * delta, 4 * delta, 750);
  }

  /** The slope has three sizes and the current's sign; it is steep exactly when
      the display has to catch up with the coulomb counter, and flat when ahead. */
  lemma SmLinekValues(dsoc: int, rsoc: int, current: int)
    ensures var k := SmLinek(dsoc, rsoc, current);
            && (k > 0 <==> current > 0)
            && (Abs(k) == 750 || Abs(k) == 1000 || Abs(k) == 1333)
            && (Abs(k) == 1333 <==> (if current > 0 then dsoc < rsoc else dsoc > rsoc))
            && (Abs(k) == 1000 <==> dsoc == rsoc)
  {
    if dsoc != rsoc {
      var delta := Abs(dsoc - rsoc);
      FixedQuotients(delta);
      assert 1000 * (delta + delta * 3) == 4000 * delta && delta + delta * 3 == 4 * delta;
      assert 1000 * (delta * 3) == 3000 * delta;
    }
  }

  /** The smooth step scales the counted charge. */
  function SmoothGain(linek: int, deltaCap: int, fcc: nat): int {
    Quot(linek * Abs(Quot(deltaCap, 10)), NonZero(fcc))
  }

  lemma QuotBounds(a: int, b: nat)
    requires b > 0
    ensures Abs(Quot(a, b)) * b <= Abs(a) < (Abs(Quot(a, b)) + 1) * b
  {
    QuotSize(a, b);
    QuotientTimes(Abs(a), b);
  }

  lemma QuotSize(a: int, b: nat)
    requires b > 0
    ensures Abs(Quot(a, b)) == Abs(a) / b
  {
    QuotientNatural(Abs(a), b);
  }

  lemma QuotientNatural(a: nat, b: nat)
    requires b > 0
    ensures a / b >= 0
  {
  }

  lemma AbsProduct(a: int, b: nat)
    ensures Abs(a * b) == Abs(a) * b
  {
  }

  /** The gain is the counted charge times the slope in thousandths of a percent of the
      full capacity, rounded toward zero, with the slope's sign. */
  lemma SmoothGainExactly(linek: int, deltaCap: int, fcc: nat)
    requires fcc > 0
    ensures var gain, moved := SmoothGain(linek, deltaCap, fcc), Abs(linek) * (Abs(deltaCap) / 10);
            && Abs(gain) * fcc <= moved < (Abs(gain) + 1) * fcc
            && (gain == 0 <==> moved < fcc)
    ensures SmoothGain(linek, deltaCap, fcc) > 0 ==> linek > 0
    ensures SmoothGain(linek, deltaCap, fcc) < 0 ==> linek < 0
  {
    var x := Abs(Quot(deltaCap, 10));
    AbsProduct(linek, x);
    QuotBounds(linek * x, fcc);
    SmoothGainSign(linek, deltaCap, fcc);
    ProductOrOver(Abs(SmoothGain(linek, deltaCap, fcc)), fcc);
  }

  lemma ProductOrOver(n: nat, d: nat)
    ensures n > 0 ==> n * d >= d
  {
  }

  lemma NoGain(linek: int, fcc: nat)
    ensures SmoothGain(linek, 0, fcc) == 0
  {
    assert linek * 0 == 0;
  }

  lemma SmoothGainSign(linek: int, deltaCap: int, fcc: nat)
    ensures SmoothGain(linek, deltaCap, fcc) > 0 ==> linek > 0
    ensures SmoothGain(linek, deltaCap, fcc) < 0 ==> linek < 0
  {
    var x := Abs(Quot(deltaCap, 10));
    if linek >= 0 {
      assert linek * x >= 0;
    } else {
      assert -(linek * x) >= 0;
    }
  }

  /** rk817_bat_calc_smooth_dischrg, for a smooth value already made non-negative: the
      display stays when the smooth value is above it or in the same whole percent, and
      else drops to it, a percent at most. */
  function SmoothDown(dsoc: int, smooth: nat): (d: int)
    ensures dsoc < 0 || smooth > dsoc || smooth / 1000 == dsoc / 1000 ==> d == dsoc
    ensures dsoc >= 0 && smooth / 1000 < dsoc / 1000 ==>
      dsoc - 1000 <= d < dsoc && d >= smooth && (d == smooth || d == dsoc - 1000)
  {
    if smooth / 1000 == Quot(dsoc, 1000) || smooth > dsoc then dsoc
    else
      var d := if smooth + 1000 > dsoc then smooth else dsoc - 1000;
      if d <= 0 then 0 else d
  }

  /** The charging branch of the smooth algorithm: the display jumps to a smooth value
      in a higher percent. */
  function SmoothUp(dsoc: int, smooth: nat): (d: int)
    ensures smooth > dsoc && smooth / 1000 != Quot(dsoc, 1000) ==> d == smooth
    ensures smooth <= dsoc || smooth / 1000 == Quot(dsoc, 1000) ==> d == dsoc
    ensures Quot(d, 1000) >= smooth / 1000
  {
    if smooth / 1000 == Quot(dsoc, 1000) || smooth < dsoc then dsoc else smooth
  }

  /** The display after discharge passes that leave these smooth values. */
  function FollowAll(dsoc: int, smooths: seq<nat>): int {
    if smooths == [] then dsoc
    else
      var n := |smooths| - 1;
      SmoothDown(FollowAll(dsoc, smooths[..n]), smooths[n])
  }

  /** While the smooth value is in or below percent `pc` each pass takes the display a
      percent towards it: it arrives after as many passes as it leads in percents. */
  lemma {:induction false} DisplayCatchesUp(dsoc: nat, smooths: seq<nat>, pc: nat)
    requires forall i :: 0 <= i < |smooths| ==> smooths[i] / 1000 <= pc
    ensures 0 <= FollowAll(dsoc, smooths) <= dsoc
    ensures FollowAll(dsoc, smooths) / 1000 <= pc || FollowAll(dsoc, smooths) / 1000 <= dsoc / 1000 - |smooths|
  {
    if smooths != [] {
      var n := |smooths| - 1;
      DisplayCatchesUp(dsoc, smooths[..n], pc);
    }
  }

  /** And it goes no further: not below the smooth percents, and a percent a pass. */
  lemma {:induction false} DisplayGoesNoFurther(dsoc: nat, smooths: seq<nat>, pc: nat)
    requires pc <= dsoc / 1000 && forall i :: 0 <= i < |smooths| ==> pc <= smooths[i] / 1000
    ensures FollowAll(dsoc, smooths) >= 0 && FollowAll(dsoc, smooths) / 1000 >= pc
    ensures FollowAll(dsoc, smooths) / 1000 >= dsoc / 1000 - |smooths|
  {
    if smooths != [] {
      var n := |smooths| - 1;
      DisplayGoesNoFurther(dsoc, smooths[..n], pc);
    }
  }

  /** So with the smooth value within one percent the display's percent is known. */
  lemma DisplayArrives(dsoc: nat, smooths: seq<nat>, pc: nat)
    requires pc <= dsoc / 1000 && forall i :: 0 <= i < |smooths| ==> smooths[i] / 1000 == pc
    ensures var d, n := FollowAll(dsoc, smooths), |smooths|;
            d >= 0 && d / 1000 == if n <= dsoc / 1000 - pc then dsoc / 1000 - n else pc
  {
    DisplayCatchesUp(dsoc, smooths, pc);
    DisplayGoesNoFurther(dsoc, smooths, pc);
  }

  // ----- the zero algorithm's slope -----

  /** The platform data; the reserve, the energy mode and the zero-mode voltage are
      unsigned words. */
  datatype Pdata = Pdata(pwroffVol: int, zeroReserveDsoc: nat, batRes: int, energyMode: nat, lowPwrSleep: nat,
                         zeroAlgorithmVol: nat)

  function MinGapXsoc(dsoc: int, xsoc: int, current: int, p: Pdata): int {
    (if Abs(current) > 1400 then 3 else if Abs(current) > 600 then 5 else 10)
    + if xsoc <= 30 && U32(dsoc) >= p.zeroReserveDsoc then 5 else 0
  }

  /** The slope before adjustment. */
  function RawZeroLinek(zeroDsoc: int, xsoc: int): int {
    Quot(zeroDsoc + Quot(xsoc, 2), NonZero(xsoc))
  }

  /** The adjustment chain of rk817_bat_calc_zero_linek. */
  function AdjustedZeroLinek(raw: int, dsoc: int, xsoc: int, current: int, p: Pdata): int {
    var soc := Quot(dsoc, 1000);
    var gap := MinGapXsoc(dsoc, xsoc, current, p);
    var lead := xsoc - soc;
    if p.energyMode != 0 && lead >= 3 && soc <= 10 && raw < 300 then 300
    else if lead >= gap || (lead >= 5 && soc <= 10 && xsoc > 15) then
      if xsoc <= 20 && U32(soc) >= p.zeroReserveDsoc then 1200
      else if lead >= 2 * gap then 400
      else if lead >= 3 + gap then 600
      else 800
    else if raw > 1800 && soc > 70 then 1800
    else if raw > 1000 && raw < 1200 then 1200
    else if soc <= 15 && dsoc > 5 && raw <= 1200 then
      if lead >= gap then 800 else 1200
    else if raw < 1000 && soc >= 5 then
      if lead < gap then 1200 else if Abs(current) > 500 then 900 else 1000
    else if raw < 1000 && soc <= 5 then
      if lead <= 3 then 1200 else 800
    else raw
  }

  /** The slope rk817_bat_calc_zero_linek settles on. */
  function ZeroLinek(dsoc: int, zeroDsoc: int, xsoc: int, current: int, p: Pdata): int {
    if Quot(dsoc, 1000) <= 1 && xsoc > 0 then 400
    else if xsoc >= 0 then AdjustedZeroLinek(RawZeroLinek(zeroDsoc, xsoc), dsoc, xsoc, current, p)
    else 1000
  }

  /** The zero slope never stalls or reverses the display, and a lead of the
      display's value over what the voltage allows is always worked off at full
      speed or more. */
  lemma ZeroLinekKeepsMoving(dsoc: int, zeroDsoc: int, xsoc: int, current: int, p: Pdata)
    ensures ZeroLinek(dsoc, zeroDsoc, xsoc, current, p) >= 300
    ensures xsoc < Quot(dsoc, 1000) && Quot(dsoc, 1000) > 1 ==> ZeroLinek(dsoc, zeroDsoc, xsoc, current, p) >= 1000
  {
  }

  /** Outside the energy mode and the last percent the slope is fixed by how far the voltage
      is ahead of the display: slow, in three steps, when it leads by the gap, full or fast
      when it does not. */
  lemma ZeroLinekExactly(dsoc: nat, zeroDsoc: int, xsoc: nat, current: int, p: Pdata)
    requires p.energyMode == 0 && 2000 <= dsoc < TWO_32
    ensures var soc, k := dsoc / 1000, ZeroLinek(dsoc, zeroDsoc, xsoc, current, p);
            var lead := xsoc - soc;
            var gap := (if Abs(current) > 1400 then 3 else if Abs(current) > 600 then 5 else 10) +
                       (if xsoc <= 30 && dsoc >= p.zeroReserveDsoc then 5 else 0);
            var raw := Quot(zeroDsoc + xsoc / 2, if xsoc == 0 then 1 else xsoc);
            if lead >= gap || (lead >= 5 && soc <= 10 && xsoc > 15) then
              k == if xsoc <= 20 && soc >= p.zeroReserveDsoc then 1200
                   else if lead >= 2 * gap then 400
                   else if lead >= gap + 3 then 600 else 800
            else if raw > 1800 && soc > 70 then k == 1800
            else if raw == 1000 && soc > 15 then k == 1000
            else k == Larger(raw, 1200)
  {
  }

  /** rk817_bat_calc_zero_algorithm: the display follows downwards, a percent at most. */
  function ZeroStep(dsoc: int, zeroDsoc: int): (d: int)
    ensures zeroDsoc > dsoc || Quot(zeroDsoc, 1000) == Quot(dsoc, 1000) ==> d == dsoc
    ensures zeroDsoc <= dsoc && Quot(zeroDsoc, 1000) != Quot(dsoc, 1000) ==>
      dsoc - 1000 <= d < dsoc && d >= zeroDsoc && (d == zeroDsoc || d == dsoc - 1000)
  {
    if Quot(zeroDsoc, 1000) == Quot(dsoc, 1000) || zeroDsoc > dsoc then dsoc
    else if zeroDsoc < dsoc - 1000 then dsoc - 1000
    else zeroDsoc
  }

  /** Thousandths of a percent used since the last recomputation, on the zero slope. */
  function ZeroUsed(linek: int, used: int, fcc: nat): int {
    Quot(Quot(linek * used, NonZero(fcc)), 10)
  }

  lemma ZeroUsedExactly(linek: nat, used: nat, fcc: nat)
    requires fcc > 0
    ensures var u := ZeroUsed(linek, used, fcc); u >= 0 && u * 10 * fcc <= linek * used < (u + 1) * 10 * fcc
  {
    var q: nat := linek * used / fcc;
    QuotientTimes(linek * used, fcc);
    var u := q / 10;
    ProductBelow(u * 10, q, fcc);
    ProductBelow(q + 1, (u + 1) * 10, fcc);
  }

  // ----- clocks -----

  /** base2sec */
  function Since(base: nat, now: nat): nat {
    if base != 0 && now > base then now - base else 0
  }

  /** A timer field: zero means not started. */
  function Started(base: nat, now: nat): nat {
    if base == 0 then now else base
  }

  /** The battery has been below the dead voltage for 15 s. */
  predicate ZeroDrop(xsoc: int, base: nat, now: nat) {
    xsoc < 0 && Since(Started(base, now), now) >= 15
  }

  /** The system has been far below power-off for more than 30 s. */
  predicate ShutdownDrop(base: nat, now: nat) {
    Since(Started(base, now), now) > 30
  }

  /** The display after the two low-voltage timers: nothing left once the system has been
      far below power-off for more than 30 s, a percent less once the battery has been
      below the dead voltage for 15 s. */
  function DsocAfterTimers(dsoc: int, xsoc: int, low: bool, zeroBase: nat, shtdBase: nat, now: nat): (d: int)
    ensures Published(d) <= Published(dsoc)
    ensures low && shtdBase != 0 && now > shtdBase + 30 ==> d == 0
    ensures !low || shtdBase == 0 || now <= shtdBase + 30 ==>
      d == if xsoc < 0 && zeroBase != 0 && now >= zeroBase + 15 then Published(dsoc - 1000) else dsoc
  {
    if low && ShutdownDrop(shtdBase, now) then 0
    else if ZeroDrop(xsoc, zeroBase, now) then
      if dsoc < 1000 then 0 else dsoc - 1000
    else dsoc
  }

  // ----- the coulomb counter -----

  /** rsoc after the counter is set to `capacity` mAh: unsigned all the way. */
  function CounterRsoc(capacity: int, fcc: nat): int
    requires fcc < TWO_32
  {
    var q := U32(capacity * 100000) / NonZero(fcc);
    if q < 0x8000_0000 then q else q - TWO_32
  }

  /** For a capacity that does not wrap it is the thousandths of a percent, rounded down. */
  lemma CounterRsocExactly(capacity: nat, fcc: nat)
    requires 0 < fcc < TWO_32 && capacity * 100000 < 0x8000_0000
    ensures CounterRsoc(capacity, fcc) * fcc <= capacity * 100000 < (CounterRsoc(capacity, fcc) + 1) * fcc
  {
    QuotientTimes(capacity * 100000, fcc);
    QuotientSmall(capacity * 100000, fcc);
    assert U32(capacity * 100000) == capacity * 100000;
  }

  lemma QuotientSmall(x: nat, d: nat)
    requires 0 < d
    ensures x / d <= x
  {
    QuotientNatural(x, d);
    var q: nat := x / d;
    QuotientTimes(x, d);
    TimesAtLeast(q, d);
  }

  lemma TimesAtLeast(q: nat, d: nat)
    requires 0 < d
    ensures q <= q * d
  {
  }

  // ----- sleep catch-up -----

  function SleepCurrent(behind: bool, p: Pdata): nat {
    if behind then (if p.lowPwrSleep != 0 then 1 else 6) else if p.lowPwrSleep != 0 then 20 else 40
  }

  /** A display at or below the counter: it drops by what the sleep used, but not from
      above 5 % to below, and a percent at a time from there on. */
  function CatchUpBehind(dsoc: int, sleepSoc: int): (d: int)
    ensures d <= dsoc
    ensures sleepSoc <= 0 ==> d == dsoc
    ensures sleepSoc > 0 && dsoc < 6000 ==> d == dsoc - 1000
    ensures sleepSoc > 0 && dsoc >= 6000 && dsoc - sleepSoc * 1000 >= 6000 ==> d == dsoc - sleepSoc * 1000
    ensures sleepSoc > 0 && dsoc >= 6000 && dsoc - sleepSoc * 1000 < 5000 ==> d == 5000
    ensures sleepSoc > 0 && dsoc >= 6000 && 5000 <= dsoc - sleepSoc * 1000 < 6000 ==> d == dsoc
  {
    var target := dsoc - sleepSoc * 1000;
    if sleepSoc <= 0 then dsoc
    else if Quot(dsoc, 1000) < 5 then dsoc - 1000
    else if Quot(target, 1000) < 5 then
      if Quot(dsoc, 1000) == 5 then dsoc - 1000 else 5000
    else if Quot(target, 1000) > 5 then target
    else dsoc
  }

  /** A display above the counter: drops toward it, at double speed when more than 5 %
      would be left, and never past it. */
  function CatchUpAhead(dsoc: int, rsoc: int, sleepSoc: nat): (d: int)
    requires dsoc > rsoc
    ensures rsoc <= d <= dsoc
    ensures dsoc - rsoc < sleepSoc * 1000 + 1000 ==> d == rsoc
    ensures sleepSoc * 1000 + 1000 <= dsoc - rsoc <= sleepSoc * 2000 + 5000 ==> d == dsoc - sleepSoc * 1000
    ensures sleepSoc * 2000 + 5000 < dsoc - rsoc ==> d == dsoc - sleepSoc * 2000
  {
    var gap := dsoc - rsoc;
    if gap / 1000 > sleepSoc then
      if gap - 5000 > sleepSoc * 2 * 1000 then dsoc - sleepSoc * 2 * 1000 else dsoc - sleepSoc * 1000
    else rsoc
  }

  /** Percents a sleep of this length is taken to have used. */
  function SleepSoc(dsoc: int, rsoc: int, seconds: nat, fcc: nat, p: Pdata): nat {
    var cap := SleepCap(dsoc <= rsoc, seconds, p);
    if dsoc <= rsoc then Over(cap * 100, fcc) else Over(cap, fcc / 100)
  }

  /** The percents are those of the sleep current, 1 or 6 mA for a display at or below the
      counter and 20 or 40 mA for one above, over the seconds slept, rounded down. */
  lemma SleepSocExactly(dsoc: int, rsoc: int, seconds: nat, fcc: nat, p: Pdata)
    requires fcc >= 100
    ensures var soc := SleepSoc(dsoc, rsoc, seconds, fcc, p);
            var low := p.lowPwrSleep != 0;
            if dsoc <= rsoc
            then soc * fcc <= (if low then 1 else 6) * seconds / 3600 * 100 < (soc + 1) * fcc
            else soc * (fcc / 100) <= (if low then 20 else 40) * seconds / 3600 < (soc + 1) * (fcc / 100)
  {
    var cap := SleepCap(dsoc <= rsoc, seconds, p);
    QuotientTimes(cap * 100, fcc);
    QuotientTimes(cap, fcc / 100);
  }

  function SleepCap(behind: bool, seconds: nat, p: Pdata): nat {
    SleepCurrent(behind, p) * seconds / 3600
  }

  /** Division guarded against a zero divisor. */
  function Over(x: nat, d: nat): nat {
    if d == 0 then x else x / d
  }

  /** After a fresh calibration a low display near the counter gives up one more percent. */
  predicate ReserveRule(dsoc: int, rsoc: int, sleepSoc: nat, calibrated: bool) {
    calibrated && sleepSoc != 0 && rsoc - dsoc < 5000 && dsoc < 40 * 1000
  }

  function CatchUp(dsoc: int, rsoc: int, sleepSoc: nat, low: bool): int {
    if low then 0
    else if dsoc <= rsoc then CatchUpBehind(dsoc, sleepSoc)
    else CatchUpAhead(dsoc, rsoc, sleepSoc)
  }

  /** The display rk817_bat_sleep_dischrg leaves, from the values after calibration. */
  function SleepDsoc(dsoc: int, rsoc: int, sleepSoc: nat, low: bool, calibrated: bool): (d: nat)
  {
    var c := CatchUp(dsoc, rsoc, sleepSoc, low);
    Published(if ReserveRule(c, rsoc, sleepSoc, calibrated) then c - 1000 else c)
  }

  /** A catch-up never raises what is shown, and one that starts above the counter
      stays there unless the low-voltage or the reserve rule fires. */
  lemma SleepDsocBounds(dsoc: int, rsoc: int, sleepSoc: nat, low: bool, calibrated: bool)
    ensures var d := SleepDsoc(dsoc, rsoc, sleepSoc, low, calibrated);
            var c := CatchUp(dsoc, rsoc, sleepSoc, low);
            var reserve := calibrated && sleepSoc != 0 && rsoc - c < 5000 && c < 40000;
            && d == Larger(if reserve then c - 1000 else c, 0) <= Published(dsoc)
            && (dsoc > rsoc && !low && !reserve ==> d >= rsoc)
            && (dsoc > rsoc && !low ==> d >= rsoc - 1000)
            && (low ==> d == 0)
  {
  }

  // ----- charge finish -----

  function FinishCurrent(rsoc: int, dsoc: int): nat {
    if rsoc - dsoc > 40 * 1000 then 6000 else if rsoc - dsoc > 20 * 1000 then 1500 else 1000
  }

  /** Seconds credited for one percent. */
  function SocSec(fcc: nat, current: nat): (s: nat)
    ensures s >= 1
  {
    var s := fcc * 3600 / 100 / (if current == 0 then 1 else current);
    if s == 0 then 1 else s
  }

  /** The price of a percent is the whole seconds in which the finish current, 6 A for a
      display more than 40 % behind the counter, 1.5 A for one more than 20 % behind and
      else 1 A, delivers a hundredth of the full capacity; a second at least. */
  lemma PriceExactly(rsoc: int, dsoc: int, fcc: nat)
    ensures var behind := rsoc - dsoc;
            var current := if behind > 40000 then 6000 else if behind > 20000 then 1500 else 1000;
            var s := SocSec(fcc, FinishCurrent(rsoc, dsoc));
            && s * current * 100 <= Larger(fcc * 3600, current * 100)
            && fcc * 3600 < (s + 1) * current * 100
  {
  }

  /** What the finish algorithm keeps between passes. */
  datatype Finish = Finish(dsoc: int, base: nat)

  /** One pass below full: whole percents are credited, the rest of the time stays pending. */
  function FinishPass(f: Finish, rsoc: int, fcc: nat, now: nat): Finish {
    if f.dsoc >= 100 * 1000 then f
    else
      var base := Started(f.base, now);
      var soc := SocSec(fcc, FinishCurrent(rsoc, f.dsoc));
      var sec := Since(base, now);
      if sec > soc then Finish(f.dsoc + sec / soc * 1000, if now > sec % soc then now - sec % soc else now)
      else Finish(f.dsoc, base)
  }

  /** A pass as the environment makes it: counter, full capacity and clock. */
  datatype FinishInput = FinishInput(rsoc: int, fcc: nat, now: nat)

  function FinishRun(f: Finish, inputs: seq<FinishInput>, n: nat): Finish
    requires n <= |inputs|
  {
    if n == 0 then f
    else FinishPass(FinishRun(f, inputs, n - 1), inputs[n - 1].rsoc, inputs[n - 1].fcc, inputs[n - 1].now)
  }

  /** Seconds turned into percents by pass `n`: its percents times its own price. */
  function Credited(f: Finish, inputs: seq<FinishInput>, n: nat): int
    requires n < |inputs|
  {
    var before := FinishRun(f, inputs, n);
    var gained := FinishRun(f, inputs, n + 1).dsoc - before.dsoc;
    gained / 1000 * SocSec(inputs[n].fcc, FinishCurrent(inputs[n].rsoc, before.dsoc))
  }

  function TotalCredited(f: Finish, inputs: seq<FinishInput>, n: nat): int
    requires n <= |inputs|
  {
    if n == 0 then 0 else TotalCredited(f, inputs, n - 1) + Credited(f, inputs, n - 1)
  }

  ghost predicate ClockRuns(inputs: seq<FinishInput>) {
    forall i, j :: 0 <= i <= j < |inputs| ==> inputs[i].now <= inputs[j].now
  }

  lemma WholeAndRest(sec: nat, soc: nat)
    requires soc > 0
    ensures sec / soc * soc + sec % soc == sec && sec % soc < soc
  {
  }

  lemma ThousandPercents(n: nat)
    ensures n * 1000 / 1000 == n
  {
  }

  /** One pass neither loses nor invents time, and below full leaves no more than the price
      of a percent pending. */
  lemma FinishPassConserves(f: Finish, rsoc: int, fcc: nat, now: nat)
    requires f.base != 0
    ensures var g := FinishPass(f, rsoc, fcc, now);
            && g.base >= f.base && g.dsoc >= f.dsoc
            && (g.dsoc - f.dsoc) / 1000 * SocSec(fcc, FinishCurrent(rsoc, f.dsoc)) + Since(g.base, now) ==
                 Since(f.base, now)
            && (now >= f.base ==> now >= g.base) && (now < f.base ==> g == f)
            && (f.dsoc < 100000 ==> Since(g.base, now) <= SocSec(fcc, FinishCurrent(rsoc, f.dsoc)))
            && (f.dsoc >= 100000 ==> g == f)
  {
    var soc, sec := SocSec(fcc, FinishCurrent(rsoc, f.dsoc)), Since(f.base, now);
    if f.dsoc < 100 * 1000 && sec > soc {
      WholeAndRest(sec, soc);
      ThousandPercents(sec / soc);
    }
  }

  /** Over any run the seconds credited and the seconds pending are the seconds
      elapsed, although the price of a percent changes from pass to pass. */
  lemma {:induction false} FinishTimeIsConserved(f: Finish, inputs: seq<FinishInput>, n: nat)
    requires f.base != 0 && 0 < n <= |inputs| && ClockRuns(inputs)
    ensures var g, now := FinishRun(f, inputs, n), inputs[n - 1].now;
            && g.base >= f.base && g.dsoc >= f.dsoc
            && (g.base <= now || (g.base == f.base && TotalCredited(f, inputs, n) == 0))
            && TotalCredited(f, inputs, n) + Since(g.base, now) == Since(f.base, now)
  {
    var now := inputs[n - 1].now;
    var before := FinishRun(f, inputs, n - 1);
    if n > 1 {
      FinishTimeIsConserved(f, inputs, n - 1);
      assert inputs[n - 2].now <= now;
    }
    FinishPassConserves(before, inputs[n - 1].rsoc, inputs[n - 1].fcc, now);
    assert FinishRun(f, inputs, n) == FinishPass(before, inputs[n - 1].rsoc, inputs[n - 1].fcc, now);
  }
}
