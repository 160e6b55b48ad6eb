/** The battery struct and the passes that change it: slopes, the zero, smooth and
    finish algorithms, the display step and the catch-up after a sleep. */
module Gauge {
  import opened CInt
  import opened GaugeRules
  import opened OcvTable

  datatype WorkMode = ZeroMode | FinishMode | SmoothMode

  /** The two comparisons with the zero-mode voltage convert the reading to unsigned. */
  predicate BelowZeroVol(voltage: int, p: Pdata) {
    U32(voltage) < p.zeroAlgorithmVol
  }

  predicate AboveZeroVol(voltage: int, p: Pdata) {
    U32(voltage) >= U32(p.zeroAlgorithmVol + 50)
  }

  /** Where one display pass leads, given the pass's readings. */
  function NextMode(mode: WorkMode, current: int, voltage: int, p: Pdata, finish: bool, fake: bool): WorkMode {
    match mode
    case FinishMode =>
      if finish || fake then FinishMode
      else if current < 0 && BelowZeroVol(voltage, p) then ZeroMode
      else SmoothMode
    case ZeroMode =>
      if AboveZeroVol(voltage, p) || current >= 0 then SmoothMode
      else if finish || fake then FinishMode
      else ZeroMode
    case SmoothMode =>
      if current < 0 && BelowZeroVol(voltage, p) then ZeroMode
      else if finish || fake then FinishMode
      else SmoothMode
  }

  /** Finish mode waits for a full or faked charge, and comes after the low-voltage mode when
      the current and the voltage ask for that. */
  lemma NextModeExactly(mode: WorkMode, current: int, voltage: nat, p: Pdata, finish: bool, fake: bool)
    requires voltage < TWO_32 && p.zeroAlgorithmVol + 50 < TWO_32
    ensures NextMode(mode, current, voltage, p, finish, fake).FinishMode? <==>
      && (finish || fake)
      && (mode.FinishMode? || (if mode.ZeroMode? then current < 0 && voltage < p.zeroAlgorithmVol + 50
                               else current >= 0 || voltage >= p.zeroAlgorithmVol))
    ensures NextMode(mode, current, voltage, p, finish, fake).ZeroMode? <==>
      && current < 0 && voltage < p.zeroAlgorithmVol + (if mode.ZeroMode? then 50 else 0)
      && (mode.SmoothMode? || !(finish || fake))
  {
  }

  /** The discharge modes follow the voltage, with 50 mV between entering and leaving zero
      mode, for readings from 0 on; a negative reading counts as a high one. */
  lemma ZeroModeExactly(mode: WorkMode, current: int, voltage: int, p: Pdata)
    requires -0x8000_0000 <= voltage < 0x8000_0000 && p.zeroAlgorithmVol + 50 < 0x8000_0000
    ensures NextMode(mode, current, voltage, p, false, false).ZeroMode? <==>
      && current < 0 && voltage >= 0
      && voltage < if mode.ZeroMode? then p.zeroAlgorithmVol + 50 else p.zeroAlgorithmVol
  {
  }

  /** The power-off voltage for a display of `d` at this current: 50 mV more for a light load
      above 5 %. */
  function PwroffVol(p: Pdata, current: int, d: int): (v: int)
    ensures v == p.pwroffVol || v == p.pwroffVol + 50
    ensures v > p.pwroffVol <==> -400 < current < 400 && d >= 6000
  {
    if Abs(current) < 400 && Quot(d, 1000) > 5 then p.pwroffVol + 50 else p.pwroffVol
  }

  /** Charge left above the voltage at which the system dies, in percent. */
  function Xsoc(table: seq<nat>, p: Pdata, voltage: int, current: int, d: int): int
    requires Rising(table)
  {
    VolToSoc(table, voltage - Quot(current * p.batRes, 1000))
    - VolToSoc(table, PwroffVol(p, current, d) - Quot(current * (p.batRes + 50), 1000))
  }

  /** What the low-voltage part of a pass goes by: the readings, the two timers and the clock. */
  datatype Readings = Readings(voltage: int, current: int, zeroBase: nat, shtdBase: nat, now: nat)

  /** A display of `d` after rk817_bat_calc_zero_linek. */
  function AfterZeroLinek(table: seq<nat>, p: Pdata, r: Readings, d: int): (after: int)
    requires Rising(table)
    ensures Published(after) <= Published(d)
  {
    DsocAfterTimers(d, Xsoc(table, p, r.voltage, r.current, d), r.voltage < PwroffVol(p, r.current, d) - 70,
                    r.zeroBase, r.shtdBase, r.now)
  }

  class Battery {
    const fcc: nat
    const pdata: Pdata
    const ocvTable: seq<nat>
    var dsoc: int
    var rsoc: int
    var remainCap: nat
    var ageAdjustCap: int
    var currentAvg: int
    var voltageAvg: int
    var voltageRelax: int
    var workMode: WorkMode
    var s2r: bool
    var sleepChrgOnline: bool
    var smoothSoc: int
    var smLinek: int
    var smRemainCap: int
    var zeroDsoc: int
    var zeroLinek: int
    var zeroRemainCap: int
    var zeroTimeoutCnt: nat
    var zeroBatocvToCap: int
    var zeroDropSec: nat
    var shtdDropSec: nat
    var finishBase: nat
    var sleepSumCap: int
    var sleepDischrgSec: nat

    constructor (fcc: nat, pdata: Pdata, ocvTable: seq<nat>, dsoc: int, rsoc: int, mode: WorkMode)
      requires fcc < TWO_32 && Rising(ocvTable)
      ensures this.fcc == fcc && this.pdata == pdata && this.ocvTable == ocvTable
      ensures this.dsoc == dsoc && this.rsoc == rsoc && workMode == mode && Sensible()
    {
      this.fcc, this.pdata, this.ocvTable, this.dsoc, this.rsoc := fcc, pdata, ocvTable, dsoc, rsoc;
      workMode, s2r, sleepChrgOnline := mode, false, false;
      remainCap, ageAdjustCap, currentAvg, voltageAvg, voltageRelax := 0, 0, 0, 0, 0;
      smoothSoc, smLinek, smRemainCap := dsoc, 0, 0;
      zeroDsoc, zeroLinek, zeroRemainCap, zeroTimeoutCnt, zeroBatocvToCap := dsoc, 0, 0, 0, 0;
      zeroDropSec, shtdDropSec, finishBase, sleepSumCap, sleepDischrgSec := 0, 0, 0, 0, 0;
    }

    /** The slope is unset or one of the six values, the zero slope unset or at least 300. */
    ghost predicate Sensible()
      reads this
    {
      && fcc < TWO_32 && Rising(ocvTable)
      && smLinek in {0, 750, 1000, 1333, -750, -1000, -1333}
      && (zeroLinek == 0 || zeroLinek >= 300)
    }

    // ----- what a pass sees -----

    function Seen(now: nat): Readings
      reads this`voltageAvg, this`currentAvg, this`zeroDropSec, this`shtdDropSec
    {
      Readings(voltageAvg, currentAvg, zeroDropSec, shtdDropSec, now)
    }

    // ----- slopes -----

    /** rk817_bat_calc_sm_linek */
    method CalcSmLinek()
      requires Sensible()
      modifies this`smLinek, this`smRemainCap
      ensures Sensible() && smLinek == SmLinek(dsoc, rsoc, currentAvg) && smRemainCap == remainCap
    {
      SmLinekValues(dsoc, rsoc, currentAvg);
      smLinek := SmLinek(dsoc, rsoc, currentAvg);
      smRemainCap := remainCap;
    }

    /** rk817_bat_smooth_algo_prepare */
    method SmoothAlgoPrepare()
      requires Sensible()
      modifies this`smoothSoc, this`smLinek, this`smRemainCap
      ensures Sensible() && smoothSoc == dsoc && smLinek == SmLinek(dsoc, rsoc, currentAvg) && smRemainCap == remainCap
    {
      smoothSoc := dsoc;
      CalcSmLinek();
    }

    /** The timers of rk817_bat_calc_zero_linek. */
    method RunTimers(xsoc: int, low: bool, now: nat)
      modifies this`dsoc, this`zeroDsoc, this`zeroDropSec, this`shtdDropSec
      ensures dsoc == DsocAfterTimers(old(dsoc), xsoc, low, old(zeroDropSec), old(shtdDropSec), now)
      ensures zeroDsoc == if ZeroDrop(xsoc, old(zeroDropSec), now) then Published(old(dsoc) - 1000) else old(zeroDsoc)
      ensures zeroDropSec == if xsoc >= 0 || ZeroDrop(xsoc, old(zeroDropSec), now) then 0
        else Started(old(zeroDropSec), now)
      ensures shtdDropSec == if !low || ShutdownDrop(old(shtdDropSec), now) then 0 else Started(old(shtdDropSec), now)
    {
      if xsoc >= 0 {
        zeroDropSec := 0;
      } else {
        zeroDropSec := Started(zeroDropSec, now);
        if Since(zeroDropSec, now) >= 15 {
          zeroDropSec := 0;
          dsoc := dsoc - 1000;
          if dsoc < 0 {
            dsoc := 0;
          }
          zeroDsoc := dsoc;
        }
      }
      if low {
        shtdDropSec := Started(shtdDropSec, now);
        if Since(shtdDropSec, now) > 30 {
          shtdDropSec := 0;
          dsoc := 0;
        }
      } else {
        shtdDropSec := 0;
      }
    }

    /** rk817_bat_calc_zero_linek once the charge left and the voltage are known. */
    method ApplyXsoc(xsoc: int, low: bool, now: nat)
      requires Sensible()
      modifies this`dsoc, this`zeroDsoc, this`zeroLinek, this`zeroRemainCap, this`zeroTimeoutCnt, this`zeroDropSec,
               this`shtdDropSec
      ensures Sensible() && dsoc == DsocAfterTimers(old(dsoc), xsoc, low, old(zeroDropSec), old(shtdDropSec), now)
      ensures zeroLinek == ZeroLinek(old(dsoc), old(zeroDsoc), xsoc, currentAvg, pdata) && zeroLinek >= 300
      ensures zeroDsoc == if ZeroDrop(xsoc, old(zeroDropSec), now) then Published(old(dsoc) - 1000) else old(zeroDsoc)
      ensures zeroRemainCap == remainCap && zeroTimeoutCnt == 0
    {
      ZeroLinekKeepsMoving(dsoc, zeroDsoc, xsoc, currentAvg, pdata);
      zeroRemainCap := remainCap;
      zeroTimeoutCnt := 0;
      zeroLinek := ZeroLinek(dsoc, zeroDsoc, xsoc, currentAvg, pdata);
      RunTimers(xsoc, low, now);
    }

    /** rk817_bat_calc_zero_linek */
    method CalcZeroLinek(now: nat)
      requires Sensible()
      modifies this`dsoc, this`zeroDsoc, this`zeroLinek, this`zeroRemainCap, this`zeroTimeoutCnt,
               this`zeroBatocvToCap, this`zeroDropSec, this`shtdDropSec
      ensures Sensible() && dsoc == AfterZeroLinek(ocvTable, pdata, old(Seen(now)), old(dsoc))
      ensures var xsoc := Xsoc(ocvTable, pdata, voltageAvg, currentAvg, old(dsoc));
              && zeroLinek == ZeroLinek(old(dsoc), old(zeroDsoc), xsoc, currentAvg, pdata) >= 300
              && zeroDsoc ==
                   if ZeroDrop(xsoc, old(zeroDropSec), now) then Published(old(dsoc) - 1000) else old(zeroDsoc)
      ensures zeroRemainCap == remainCap && zeroTimeoutCnt == 0
    {
      zeroBatocvToCap := VolToCap(ocvTable, fcc, voltageAvg - Quot(currentAvg * pdata.batRes, 1000));
      ApplyXsoc(Xsoc(ocvTable, pdata, voltageAvg, currentAvg, dsoc),
                voltageAvg < PwroffVol(pdata, currentAvg, dsoc) - 70, now);
    }

    /** rk817_bat_zero_algo_prepare */
    method ZeroAlgoPrepare(now: nat)
      requires Sensible()
      modifies this`dsoc, this`zeroDsoc, this`zeroLinek, this`zeroRemainCap, this`zeroTimeoutCnt,
               this`zeroBatocvToCap, this`zeroDropSec, this`shtdDropSec
      ensures Sensible() && dsoc == AfterZeroLinek(ocvTable, pdata, old(Seen(now)), old(dsoc)) && zeroLinek >= 300
      ensures Published(dsoc) <= Published(old(dsoc))
    {
      if Quot(zeroDsoc, 1000) != Quot(smoothSoc, 1000) {
        zeroDsoc := smoothSoc;
      }
      CalcZeroLinek(now);
    }

    // ----- algorithms -----

    /** rk817_bat_init_coulomb_cap */
    method InitCoulombCap(capacity: int)
      requires fcc < TWO_32
      modifies this`rsoc, this`remainCap
      ensures rsoc == CounterRsoc(capacity, fcc) && remainCap == U32(capacity * 1000)
    {
      rsoc := CounterRsoc(capacity, fcc);
      remainCap := U32(capacity * 1000);
    }

    /** Charge used since the last recomputation, on the zero slope. */
    function ZeroDelta(): int
      reads this
    {
      ZeroUsed(zeroLinek, zeroRemainCap - remainCap, fcc)
    }

    /** The due part of rk817_bat_zero_algorithm. */
    method ZeroRecalc(deltaSoc: int, now: nat)
      requires Sensible()
      modifies this`dsoc, this`zeroDsoc, this`zeroLinek, this`zeroRemainCap, this`zeroTimeoutCnt,
               this`zeroBatocvToCap, this`zeroDropSec, this`shtdDropSec
      ensures Sensible() && zeroLinek >= 300
      ensures dsoc == AfterZeroLinek(ocvTable, pdata, old(Seen(now)), ZeroStep(old(dsoc), old(zeroDsoc) - deltaSoc))
    {
      ghost var seen, stepped := Seen(now), ZeroStep(dsoc, zeroDsoc - deltaSoc);
      zeroTimeoutCnt := 0;
      zeroDsoc := zeroDsoc - deltaSoc;
      dsoc := ZeroStep(dsoc, zeroDsoc);
      assert Seen(now) == seen && dsoc == stepped;
      CalcZeroLinek(now);
      assert dsoc == AfterZeroLinek(ocvTable, pdata, seen, stepped);
    }

    /** The calibration at the end of rk817_bat_zero_algorithm. */
    method ZeroCalibrate(now: nat)
      requires Sensible()
      modifies this`dsoc, this`rsoc, this`remainCap, this`zeroDsoc, this`zeroLinek, this`zeroRemainCap,
               this`zeroTimeoutCnt, this`zeroBatocvToCap, this`zeroDropSec, this`shtdDropSec
      ensures Sensible() && zeroLinek >= 300 && Published(dsoc) <= Published(old(dsoc))
      ensures rsoc == CounterRsoc(old(zeroBatocvToCap), fcc) && remainCap == U32(old(zeroBatocvToCap) * 1000)
    {
      InitCoulombCap(zeroBatocvToCap);
      CalcZeroLinek(now);
    }

    /** The first half of rk817_bat_zero_algorithm. */
    method ZeroRecalcIfDue(deltaSoc: int, now: nat)
      requires Sensible()
      modifies this`dsoc, this`zeroDsoc, this`zeroLinek, this`zeroRemainCap, this`zeroTimeoutCnt,
               this`zeroBatocvToCap, this`zeroDropSec, this`shtdDropSec
      ensures Sensible()
      ensures var stepped := ZeroStep(old(dsoc), old(zeroDsoc) - deltaSoc);
              if deltaSoc >= 10 || old(zeroTimeoutCnt) >= 100 || old(zeroLinek) == 0
              then && dsoc == AfterZeroLinek(ocvTable, pdata, old(Seen(now)), stepped) && zeroLinek >= 300
                   && Published(dsoc) <= Published(stepped) <= Published(old(dsoc))
              else dsoc == old(dsoc) && zeroDsoc == old(zeroDsoc) && zeroLinek == old(zeroLinek)
    {
      ghost var seen, stepped := Seen(now), ZeroStep(dsoc, zeroDsoc - deltaSoc);
      zeroTimeoutCnt := zeroTimeoutCnt + 1;
      if deltaSoc >= 10 || zeroTimeoutCnt > 100 || zeroLinek == 0 {
        assert Seen(now) == seen && ZeroStep(dsoc, zeroDsoc - deltaSoc) == stepped;
        ZeroRecalc(deltaSoc, now);
        assert dsoc == AfterZeroLinek(ocvTable, pdata, seen, stepped);
      }
    }

    /** The second half. */
    method CalibrateIfEmpty(now: nat)
      requires Sensible()
      modifies this`dsoc, this`rsoc, this`remainCap, this`zeroDsoc, this`zeroLinek, this`zeroRemainCap,
               this`zeroTimeoutCnt, this`zeroBatocvToCap, this`zeroDropSec, this`shtdDropSec
      ensures Sensible() && Published(dsoc) <= Published(old(dsoc))
      ensures zeroLinek >= 300 || zeroLinek == old(zeroLinek)
      ensures Quot(old(rsoc), 1000) >= 1 ==>
        rsoc == old(rsoc) && remainCap == old(remainCap) && dsoc == old(dsoc) && zeroDsoc == old(zeroDsoc)
    {
      if Quot(rsoc, 1000) < 1 && zeroBatocvToCap > fcc / 100 {
        ZeroCalibrate(now);
      }
    }

    /** Both halves, once the charge used is known. */
    method ZeroPass(deltaSoc: int, now: nat)
      requires Sensible()
      modifies this`dsoc, this`rsoc, this`remainCap, this`zeroDsoc, this`zeroLinek, this`zeroRemainCap,
               this`zeroTimeoutCnt, this`zeroBatocvToCap, this`zeroDropSec, this`shtdDropSec
      ensures Sensible() && Published(dsoc) <= Published(old(dsoc))
      ensures deltaSoc >= 10 || old(zeroTimeoutCnt) >= 100 || old(zeroLinek) == 0 ==>
        zeroLinek >= 300 && Published(dsoc) <= Published(ZeroStep(old(dsoc), old(zeroDsoc) - deltaSoc))
      ensures Quot(old(rsoc), 1000) >= 1 ==> rsoc == old(rsoc) && remainCap == old(remainCap)
      ensures var stepped := ZeroStep(old(dsoc), old(zeroDsoc) - deltaSoc);
              Quot(old(rsoc), 1000) >= 1 ==>
                if deltaSoc >= 10 || old(zeroTimeoutCnt) >= 100 || old(zeroLinek) == 0
                then dsoc == AfterZeroLinek(ocvTable, pdata, old(Seen(now)), stepped)
                else dsoc == old(dsoc) && zeroDsoc == old(zeroDsoc)
    {
      ZeroRecalcIfDue(deltaSoc, now);
      CalibrateIfEmpty(now);
    }

    /** rk817_bat_zero_algorithm: the display never rises; it moves only when the
        algorithm is due, and then to the zero value, a percent at most, less what the
        low-voltage timers take, or when the counter is calibrated. */
    method ZeroAlgorithm(now: nat)
      requires Sensible()
      modifies this`dsoc, this`rsoc, this`remainCap, this`zeroDsoc, this`zeroLinek, this`zeroRemainCap,
               this`zeroTimeoutCnt, this`zeroBatocvToCap, this`zeroDropSec, this`shtdDropSec
      ensures Sensible() && Published(dsoc) <= Published(old(dsoc))
      ensures var deltaSoc := old(ZeroDelta());
              deltaSoc >= 10 || old(zeroTimeoutCnt) >= 100 || old(zeroLinek) == 0 ==>
                zeroLinek >= 300 && Published(dsoc) <= Published(ZeroStep(old(dsoc), old(zeroDsoc) - deltaSoc))
      ensures Quot(old(rsoc), 1000) >= 1 ==> rsoc == old(rsoc) && remainCap == old(remainCap)
      ensures var deltaSoc := old(ZeroDelta());
              var stepped := ZeroStep(old(dsoc), old(zeroDsoc) - deltaSoc);
              Quot(old(rsoc), 1000) >= 1 ==>
                if deltaSoc >= 10 || old(zeroTimeoutCnt) >= 100 || old(zeroLinek) == 0
                then dsoc == AfterZeroLinek(ocvTable, pdata, old(Seen(now)), stepped)
                else dsoc == old(dsoc) && zeroDsoc == old(zeroDsoc)
    {
      ZeroPass(ZeroDelta(), now);
    }

    /** What the pass adds to the smooth value: the slope is renewed, and the charge
        counted from the last reading, when the current has changed direction. */
    function SmoothDelta(capUah: nat): int
      reads this
    {
      if smLinek * currentAvg <= 0 then SmoothGain(SmLinek(dsoc, rsoc, currentAvg), capUah - remainCap, fcc)
      else SmoothGain(smLinek, capUah - smRemainCap, fcc)
    }

    lemma SlopeFollowsCurrent()
      requires smLinek * currentAvg > 0
      ensures smLinek != 0 && (smLinek > 0 <==> currentAvg > 0)
    {
    }

    /** The slope is renewed when the current has changed direction. */
    method FollowCurrent()
      requires Sensible()
      modifies this`smLinek, this`smRemainCap
      ensures Sensible() && smLinek != 0 && (smLinek > 0 <==> currentAvg > 0)
      ensures old(smLinek * currentAvg) <= 0 ==> smLinek == SmLinek(dsoc, rsoc, currentAvg) && smRemainCap == remainCap
      ensures old(smLinek * currentAvg) > 0 ==> smLinek == old(smLinek) && smRemainCap == old(smRemainCap)
    {
      if smLinek * currentAvg <= 0 {
        SmLinekValues(dsoc, rsoc, currentAvg);
        CalcSmLinek();
      } else {
        SlopeFollowsCurrent();
      }
    }

    /** The display follows a gain of the smooth value. */
    method SmoothMove(ydsoc: int)
      requires Sensible() && ydsoc != 0
      modifies this`dsoc, this`smoothSoc, this`smLinek, this`smRemainCap, this`s2r
      ensures Sensible() && smoothSoc == Published(old(smoothSoc) + ydsoc)
      ensures dsoc == if ydsoc < 0 then SmoothDown(old(dsoc), smoothSoc) else SmoothUp(old(dsoc), smoothSoc)
      ensures smLinek == old(smLinek) || smLinek == SmLinek(dsoc, rsoc, currentAvg)
    {
      smoothSoc := Published(smoothSoc + ydsoc);
      if ydsoc < 0 {
        dsoc := SmoothDown(dsoc, smoothSoc);
      } else {
        if smoothSoc / 1000 != Quot(dsoc, 1000) && smoothSoc < dsoc {
          return;
        }
        dsoc := SmoothUp(dsoc, smoothSoc);
      }
      if s2r {
        s2r := false;
        CalcSmLinek();
      }
    }

    /** rk817_bat_smooth_algorithm with the counter read once. On discharge the display stays
        when the smooth value is above it or in its percent and else drops to it, a percent
        at most; on charge it ends in the smooth value's percent or above. */
    method SmoothAlgorithm(capUah: nat)
      requires Sensible()
      modifies this`dsoc, this`smoothSoc, this`smLinek, this`smRemainCap, this`remainCap, this`s2r
      ensures Sensible() && remainCap == capUah
      ensures currentAvg <= 0 ==> Published(dsoc) <= Published(old(dsoc)) <= Published(dsoc) + 1000
      ensures currentAvg > 0 ==> dsoc >= old(dsoc)
      ensures smLinek != 0 && (smLinek > 0 <==> currentAvg > 0)
      ensures var gain := old(SmoothDelta(capUah));
              && (currentAvg > 0 ==> gain >= 0) && (currentAvg <= 0 ==> gain <= 0)
              && (gain < 0 && old(dsoc) >= 0 ==>
                    dsoc == if smoothSoc >= old(dsoc) || smoothSoc / 1000 == old(dsoc) / 1000 then old(dsoc)
                            else Larger(smoothSoc, old(dsoc) - 1000))
              && (gain > 0 ==> Quot(dsoc, 1000) >= smoothSoc / 1000)
              && (gain > 0 && dsoc != old(dsoc) ==> dsoc == smoothSoc)
      ensures var gain := old(SmoothDelta(capUah));
              && smoothSoc == (if gain == 0 then old(smoothSoc) else Published(old(smoothSoc) + gain))
              && dsoc == (if gain == 0 then old(dsoc)
                          else if gain < 0 then SmoothDown(old(dsoc), smoothSoc)
                          else SmoothUp(old(dsoc), smoothSoc))
    {
      FollowCurrent();
      var base := smRemainCap;
      remainCap := capUah;
      var deltaCap := remainCap - base;
      ghost var gain := SmoothGain(smLinek, deltaCap, fcc);
      assert gain == old(SmoothDelta(capUah));
      if deltaCap == 0 {
        NoGain(smLinek, fcc);
        return;
      }
      var ydsoc := SmoothGain(smLinek, deltaCap, fcc);
      if ydsoc == 0 {
        return;
      }
      SmoothGainSign(smLinek, deltaCap, fcc);
      SmLinekValues(dsoc, rsoc, currentAvg);
      smRemainCap := remainCap;
      SmoothMove(ydsoc);
      SmLinekValues(dsoc, rsoc, currentAvg);
    }

    /** A smooth pass on battery moves both values down or leaves both alone. */
    method DischargePass(capUah: nat) returns (ghost moved: bool)
      requires Sensible() && currentAvg <= 0 && dsoc >= 0 && smoothSoc >= 0
      modifies this`dsoc, this`smoothSoc, this`smLinek, this`smRemainCap, this`remainCap, this`s2r
      ensures Sensible() && dsoc >= 0 && moved == (old(SmoothDelta(capUah)) != 0)
      ensures if moved then 0 <= smoothSoc <= old(smoothSoc) && (smoothSoc < old(smoothSoc) || smoothSoc == 0)
              else smoothSoc == old(smoothSoc)
      ensures dsoc == if moved then SmoothDown(old(dsoc), smoothSoc) else old(dsoc)
    {
      moved := SmoothDelta(capUah) != 0;
      SmoothAlgorithm(capUah);
    }

    /** Any run of smooth passes on battery, whatever is counted: every pass that counts some
        charge takes the display a percent towards the smooth value, until it is there. */
    method Discharge(passes: nat) returns (ghost smooths: seq<nat>)
      requires Sensible() && dsoc >= 0 && smoothSoc >= 0
      modifies this`dsoc, this`smoothSoc, this`smLinek, this`smRemainCap, this`remainCap, this`s2r, this`currentAvg
      ensures Sensible() && dsoc == FollowAll(old(dsoc), smooths) >= 0
      ensures 0 <= smoothSoc <= old(smoothSoc)
      ensures dsoc / 1000 <= old(smoothSoc) / 1000 || dsoc / 1000 <= old(dsoc) / 1000 - |smooths|
      ensures smoothSoc / 1000 <= old(dsoc) / 1000 ==> dsoc / 1000 >= smoothSoc / 1000
      ensures dsoc / 1000 >= old(dsoc) / 1000 - |smooths|
    {
      smooths := [];
      var i := 0;
      while i < passes
        invariant Sensible() && dsoc == FollowAll(old(dsoc), smooths) >= 0
        invariant 0 <= smoothSoc <= old(smoothSoc)
        invariant forall i :: 0 <= i < |smooths| ==> smoothSoc <= smooths[i] <= old(smoothSoc)
      {
        var current: int, cap: nat := *, *;
        currentAvg := if current > 0 then 0 else current;
        ghost var moved := DischargePass(cap);
        if moved {
          assert (smooths + [smoothSoc])[..|smooths|] == smooths;
          smooths := smooths + [smoothSoc];
        }
        i := i + 1;
      }
      DisplayCatchesUp(old(dsoc), smooths, old(smoothSoc) / 1000);
      DisplayGoesNoFurther(old(dsoc), smooths, 0);
      if smoothSoc / 1000 <= old(dsoc) / 1000 {
        DisplayGoesNoFurther(old(dsoc), smooths, smoothSoc / 1000);
      }
    }

    /** rk817_bat_finish_algo_prepare */
    method FinishAlgoPrepare(now: nat)
      modifies this`finishBase
      ensures finishBase == if now == 0 then 1 else now
    {
      finishBase := now;
      if finishBase == 0 {
        finishBase := 1;
      }
    }

    /** rk817_bat_finish_algorithm */
    method FinishAlgorithm(now: nat, finish: bool)
      requires fcc < TWO_32
      modifies this`dsoc, this`rsoc, this`remainCap, this`ageAdjustCap, this`finishBase
      ensures Finish(dsoc, finishBase) == FinishPass(Finish(old(dsoc), old(finishBase)), rsoc, fcc, now)
      ensures dsoc >= old(dsoc)
      ensures finish && old(remainCap) != fcc ==>
        rsoc == CounterRsoc(fcc, fcc) && remainCap == U32(fcc * 1000) &&
        ageAdjustCap == old(ageAdjustCap) + fcc * 1000 - old(remainCap)
      ensures !finish || old(remainCap) == fcc ==>
        rsoc == old(rsoc) && remainCap == old(remainCap) && ageAdjustCap == old(ageAdjustCap)
    {
      if remainCap != fcc && finish {
        ageAdjustCap := ageAdjustCap + (fcc * 1000 - remainCap);
        InitCoulombCap(fcc);
      }
      if dsoc < 100 * 1000 {
        if finishBase == 0 {
          finishBase := now;
        }
        var finishSec := Since(finishBase, now);
        var socSec := SocSec(fcc, FinishCurrent(rsoc, dsoc));
        var plusSoc := finishSec / socSec;
        if finishSec > socSec {
          var rest := finishSec % socSec;
          dsoc := dsoc + plusSoc * 1000;
          finishBase := now;
          if finishBase > rest {
            finishBase := now - rest;
          }
        }
      }
    }

    /** The change to zero mode. */
    method EnterZero(now: nat)
      requires Sensible()
      modifies this`workMode, this`dsoc, this`zeroDsoc, this`zeroLinek, this`zeroRemainCap, this`zeroTimeoutCnt,
               this`zeroBatocvToCap, this`zeroDropSec, this`shtdDropSec
      ensures Sensible() && workMode == ZeroMode && Published(dsoc) <= Published(old(dsoc))
    {
      ZeroAlgoPrepare(now);
      workMode := ZeroMode;
    }

    /** The finish branch of rk817_bat_display_smooth. */
    method DisplayFinish(now: nat, finish: bool, fake: bool)
      requires Sensible() && workMode.FinishMode?
      modifies this
      ensures Sensible() && workMode == NextMode(FinishMode, old(currentAvg), old(voltageAvg), pdata, finish, fake)
      ensures currentAvg == old(currentAvg) && voltageAvg == old(voltageAvg)
      ensures !workMode.ZeroMode? ==> dsoc >= old(dsoc)
    {
      FinishAlgorithm(now, finish);
      if !finish && !fake {
        if currentAvg < 0 && U32(voltageAvg) < pdata.zeroAlgorithmVol {
          EnterZero(now);
        } else {
          SmoothAlgoPrepare();
          workMode := SmoothMode;
        }
      }
    }

    /** The zero branch. */
    method DisplayZero(now: nat, finish: bool, fake: bool)
      requires Sensible() && workMode.ZeroMode?
      modifies this
      ensures Sensible() && workMode == NextMode(ZeroMode, old(currentAvg), old(voltageAvg), pdata, finish, fake)
      ensures currentAvg == old(currentAvg) && voltageAvg == old(voltageAvg)
      ensures Published(dsoc) <= Published(old(dsoc))
    {
      ZeroAlgorithm(now);
      if U32(voltageAvg) >= U32(pdata.zeroAlgorithmVol + 50) || currentAvg >= 0 {
        SmoothAlgoPrepare();
        workMode := SmoothMode;
      } else if finish || fake {
        FinishAlgoPrepare(now);
        workMode := FinishMode;
      }
    }

    /** What the display step relies on of the smooth algorithm. */
    method SmoothPass(capUah: nat)
      requires Sensible()
      modifies this`dsoc, this`smoothSoc, this`smLinek, this`smRemainCap, this`remainCap, this`s2r
      ensures Sensible()
      ensures currentAvg <= 0 ==> Published(dsoc) <= Published(old(dsoc))
      ensures currentAvg > 0 ==> dsoc >= old(dsoc)
    {
      SmoothAlgorithm(capUah);
    }

    /** The smooth branch. */
    method DisplaySmoothMode(now: nat, capUah: nat, finish: bool, fake: bool)
      requires Sensible() && workMode.SmoothMode?
      modifies this
      ensures Sensible() && workMode == NextMode(SmoothMode, old(currentAvg), old(voltageAvg), pdata, finish, fake)
      ensures currentAvg == old(currentAvg) && voltageAvg == old(voltageAvg)
      ensures currentAvg <= 0 ==> Published(dsoc) <= Published(old(dsoc))
      ensures currentAvg > 0 ==> dsoc >= old(dsoc)
    {
      SmoothPass(capUah);
      if currentAvg < 0 && U32(voltageAvg) < pdata.zeroAlgorithmVol {
        EnterZero(now);
      } else if finish || fake {
        FinishAlgoPrepare(now);
        workMode := FinishMode;
      }
    }

    /** After a sleep on battery both algorithms restart instead of moving the display. */
    method Resume(now: nat)
      requires Sensible()
      modifies this`s2r, this`dsoc, this`smoothSoc, this`smLinek, this`smRemainCap, this`zeroDsoc, this`zeroLinek,
               this`zeroRemainCap, this`zeroTimeoutCnt, this`zeroBatocvToCap, this`zeroDropSec, this`shtdDropSec
      ensures Sensible() && !s2r && Published(dsoc) <= Published(old(dsoc))
    {
      s2r := false;
      ZeroAlgoPrepare(now);
      SmoothAlgoPrepare();
    }

    /** The three modes of rk817_bat_display_smooth. */
    method DisplayMode(now: nat, capUah: nat, finish: bool, fake: bool)
      requires Sensible()
      modifies this
      ensures Sensible()
      ensures workMode == NextMode(old(workMode), old(currentAvg), old(voltageAvg), pdata, finish, fake)
      ensures old(workMode).ZeroMode? ==> Published(dsoc) <= Published(old(dsoc))
      ensures old(workMode).SmoothMode? && old(currentAvg) <= 0 ==> Published(dsoc) <= Published(old(dsoc))
      ensures !old(workMode).ZeroMode? && old(currentAvg) > 0 ==> dsoc >= old(dsoc)
    {
      match workMode
      case FinishMode => DisplayFinish(now, finish, fake);
      case ZeroMode => DisplayZero(now, finish, fake);
      case SmoothMode => DisplaySmoothMode(now, capUah, finish, fake);
    }

    /** A sleep on battery came before this pass. */
    predicate Resuming()
      reads this
    {
      s2r && !sleepChrgOnline
    }

    /** rk817_bat_display_smooth: outside finish mode what is shown never rises
        without a charging current, and outside zero mode it never falls with one. */
    method DisplaySmooth(now: nat, capUah: nat, finish: bool, fake: bool)
      requires Sensible()
      modifies this
      ensures Sensible()
      ensures workMode == if old(Resuming()) then old(workMode)
                          else NextMode(old(workMode), old(currentAvg), old(voltageAvg), pdata, finish, fake)
      ensures old(Resuming()) || old(workMode).ZeroMode? ==> Published(dsoc) <= Published(old(dsoc))
      ensures old(workMode).SmoothMode? && old(currentAvg) <= 0 ==> Published(dsoc) <= Published(old(dsoc))
      ensures !old(Resuming()) && !old(workMode).ZeroMode? && old(currentAvg) > 0 ==> dsoc >= old(dsoc)
    {
      if s2r && !sleepChrgOnline {
        Resume(now);
      } else {
        DisplayMode(now, capUah, finish, fake);
      }
    }

    // ----- sleep -----

    /** The counter is set and both algorithms start over. */
    method RestartFrom(cap: int, now: nat)
      requires Sensible()
      modifies this`dsoc, this`rsoc, this`remainCap, this`smoothSoc, this`smLinek, this`smRemainCap, this`zeroDsoc,
               this`zeroLinek, this`zeroRemainCap, this`zeroTimeoutCnt, this`zeroBatocvToCap, this`zeroDropSec,
               this`shtdDropSec
      ensures Sensible() && Published(dsoc) <= Published(old(dsoc)) && rsoc == CounterRsoc(cap, fcc)
    {
      InitCoulombCap(cap);
      SmoothAlgoPrepare();
      ZeroAlgoPrepare(now);
    }

    /** rk817_bat_init_capacity: the counter jumps unless it already reads `cap`. */
    method InitCapacity(cap: int, now: nat)
      requires Sensible()
      modifies this`ageAdjustCap, this`dsoc, this`rsoc, this`remainCap, this`smoothSoc, this`smLinek,
               this`smRemainCap, this`zeroDsoc, this`zeroLinek, this`zeroRemainCap, this`zeroTimeoutCnt,
               this`zeroBatocvToCap, this`zeroDropSec, this`shtdDropSec
      ensures Sensible() && Published(dsoc) <= Published(old(dsoc))
      ensures rsoc == if U32(cap - old(remainCap)) == 0 then old(rsoc) else CounterRsoc(cap, fcc)
    {
      var deltaCap := Signed(U32(cap - remainCap));
      if deltaCap == 0 {
        return;
      }
      ageAdjustCap := ageAdjustCap + deltaCap;
      RestartFrom(cap, now);
    }

    /** rk817_bat_sleep_dischrg. `d` and `r` are display and counter once the relaxed
        voltage, if it is no lower than the present one, has recalibrated them. */
    method SleepDischrg(now: nat) returns (sleepSoc: nat, ghost d: int, ghost r: int)
      requires Sensible()
      modifies this
      ensures Sensible() && 0 <= dsoc <= Published(old(dsoc))
      ensures Published(d) <= Published(old(dsoc)) && rsoc == r && workMode == old(workMode)
      ensures old(voltageRelax < voltageAvg) ==> d == old(dsoc) && r == old(rsoc)
      ensures sleepSoc == SleepSoc(d, r, old(sleepDischrgSec), fcc, pdata)
      ensures var low, calibrated := old(voltageAvg) <= pdata.pwroffVol - 70, old(voltageRelax >= voltageAvg);
              dsoc == SleepDsoc(d, r, sleepSoc, low, calibrated)
    {
      var calibrated := false;
      if voltageRelax >= voltageAvg {
        InitCapacity(VolToCap(ocvTable, fcc, voltageRelax), now);
        calibrated := true;
      }
      d, r := dsoc, rsoc;
      var low := voltageAvg <= pdata.pwroffVol - 70;
      sleepSoc := SleepSoc(dsoc, rsoc, sleepDischrgSec, fcc, pdata);
      sleepSumCap := SleepCap(dsoc <= rsoc, sleepDischrgSec, pdata);
      SleepDsocBounds(dsoc, rsoc, sleepSoc, low, calibrated);
      if dsoc <= rsoc {
        dsoc := CatchUpBehind(dsoc, sleepSoc);
      } else {
        dsoc := CatchUpAhead(dsoc, rsoc, sleepSoc);
      }
      if low {
        dsoc := 0;
      }
      if calibrated && sleepSoc != 0 && rsoc - dsoc < 5000 && dsoc < 40 * 1000 {
        dsoc := dsoc - 1000;
      }
      if dsoc <= 0 {
        dsoc := 0;
      }
    }

    /** One pass of the monitor: fresh readings, then the display step. */
    method Monitor(voltage: int, current: int, relax: int, cap: nat, rsoc: int, now: nat, finish: bool, fake: bool)
      requires Sensible()
      modifies this
      ensures Sensible()
      ensures current <= 0 && !old(workMode).FinishMode? ==> Published(dsoc) <= Published(old(dsoc))
      ensures !old(workMode).FinishMode? && !finish && !fake ==> !workMode.FinishMode?
    {
      voltageAvg, currentAvg, voltageRelax, remainCap, this.rsoc := voltage, current, relax, cap, rsoc;
      DisplaySmooth(now, cap, finish, fake);
    }

    /** rk817_bat_resume_work on battery: fresh readings, then the catch-up when the
        sleep was long enough. */
    method Wake(voltage: int, current: int, relax: int, cap: nat, rsoc: int, seconds: nat, now: nat)
      requires Sensible()
      modifies this
      ensures Sensible() && Published(dsoc) <= Published(old(dsoc)) && workMode == old(workMode)
    {
      s2r, sleepChrgOnline, sleepDischrgSec := true, false, sleepDischrgSec + seconds;
      voltageAvg, currentAvg, voltageRelax, remainCap, this.rsoc := voltage, current, relax, cap, rsoc;
      var timeStep := if voltageAvg <= pdata.pwroffVol + 50 then 10 * 60 else 60 * 60;
      if sleepDischrgSec > timeStep {
        var sleepSoc;
        ghost var d, r;
        sleepSoc, d, r := SleepDischrg(now);
        if sleepSoc != 0 {
          sleepDischrgSec := 0;
        }
      }
    }

    /** Any run on battery, whatever is read and however often it sleeps: what is
        shown never rises while no charge is reported finished. */
    method RunOnBattery(passes: nat)
      requires Sensible() && !workMode.FinishMode?
      modifies this
      ensures Sensible() && !workMode.FinishMode? && Published(dsoc) <= Published(old(dsoc))
    {
      var i := 0;
      while i < passes
        invariant Sensible() && !workMode.FinishMode? && Published(dsoc) <= Published(old(dsoc))
      {
        var voltage, current, relax, soc: int := *, *, *, *;
        var cap: nat, now: nat, seconds: nat := *, *, *;
        if * {
          Wake(voltage, current, relax, cap, soc, seconds, now);
        } else {
          Monitor(voltage, if current > 0 then 0 else current, relax, cap, soc, now, false, false);
        }
        i := i + 1;
      }
    }
  }
}
