/** Inputs for the completeness results: an even burst with any number of pulses halfway
    before its last, where the number alone decides, and streams whose other pulses are
    reported for themselves. */
module DfsHalfway {
  import opened CInt
  import opened DfsPattern
  import opened DfsScan
  import opened Optional
  import opened DfsSound
  import opened DfsBurst
  import opened DfsNoise
  import opened DfsComplete
  import opened DfsReport

  // ----- parts of a stream put together -----

  lemma {:induction false} PartBoth(a: seq<nat>, aMarks: seq<bool>, b: seq<nat>, bMarks: seq<bool>, mark: bool)
    requires |a| == |aMarks| && |b| == |bMarks|
    ensures Part(a + b, aMarks + bMarks, mark) == Part(a, aMarks, mark) + Part(b, bMarks, mark)
    decreases |b|
  {
    if b == [] {
      assert a + b == a && aMarks + bMarks == aMarks;
    } else {
      var n := |b| - 1;
      PartBoth(a, aMarks, b[..n], bMarks[..n], mark);
      assert (a + b)[..|a| + n] == a + b[..n] && (aMarks + bMarks)[..|a| + n] == aMarks + bMarks[..n];
    }
  }

  function Same<T>(x: T, n: nat): (xs: seq<T>)
    ensures |xs| == n && forall i :: 0 <= i < n ==> xs[i] == x
  {
    seq(n, _ => x)
  }

  lemma {:induction false} PartSame(a: seq<nat>, mark: bool)
    ensures Part(a, Same(mark, |a|), mark) == a && Part(a, Same(!mark, |a|), mark) == []
  {
    if a != [] {
      var n := |a| - 1;
      PartSame(a[..n], mark);
      assert Same(mark, |a|)[..n] == Same(mark, n) && Same(!mark, |a|)[..n] == Same(!mark, n);
      assert a == a[..n] + [a[n]];
    }
  }

  // ----- other pulses before the last of an even burst -----

  /** All but the last of c pulses evenly spaced, the others, and the last. */
  function MixedTimes(start: nat, gap: nat, c: nat, others: seq<nat>): seq<nat>
    requires c >= 2
  {
    EvenTrain(start, gap, c - 1) + others + [start + (c - 1) * gap]
  }

  function MixedMarks(c: nat, n: nat): seq<bool>
    requires c >= 2
  {
    Same(true, c - 1) + Same(false, n) + [true]
  }

  lemma MixedParts(start: nat, gap: nat, c: nat, others: seq<nat>, k: nat)
    requires c >= 2 && k <= |others|
    ensures Radar(MixedTimes(start, gap, c, others), MixedMarks(c, |others|), c - 1 + k) == EvenTrain(start, gap, c - 1)
  {
    var times, marks := MixedTimes(start, gap, c, others), MixedMarks(c, |others|);
    var even, some := EvenTrain(start, gap, c - 1), others[..k];
    assert times[..c - 1 + k] == even + some && marks[..c - 1 + k] == Same(true, c - 1) + Same(false, k);
    PartBoth(even, Same(true, c - 1), some, Same(false, k), true);
    PartSame(even, true);
    PartSame(some, true);
  }

  lemma MixedRadar(start: nat, gap: nat, c: nat, others: seq<nat>)
    requires c >= 2
    ensures var times := MixedTimes(start, gap, c, others);
            Radar(times, MixedMarks(c, |others|), |times|) == EvenTrain(start, gap, c)
  {
    var times, marks := MixedTimes(start, gap, c, others), MixedMarks(c, |others|);
    MixedParts(start, gap, c, others, |others|);
    RadarStep(times, marks, c - 1 + |others|);
    assert EvenTrain(start, gap, c) == EvenTrain(start, gap, c - 1) + [start + (c - 1) * gap];
  }

  lemma MixedOthers(start: nat, gap: nat, c: nat, others: seq<nat>)
    requires c >= 3
    ensures Others(MixedTimes(start, gap, c, others), MixedMarks(c, |others|), 1) == others
  {
    var times, marks := MixedTimes(start, gap, c, others), MixedMarks(c, |others|);
    var even, last, n := EvenTrain(start, gap, c - 1)[2..], [start + (c - 1) * gap], |others|;
    assert times[2..] == even + others + last;
    assert marks[2..] == Same(true, c - 3) + Same(false, n) + [true];
    PartBoth(even + others, Same(true, c - 3) + Same(false, n), last, [true], false);
    assert Part(last, [true], false) == [];
    calc {
      Part(even + others, Same(true, c - 3) + Same(false, n), false);
    == { PartBoth(even, Same(true, c - 3), others, Same(false, n), false); }
      Part(even, Same(true, c - 3), false) + Part(others, Same(false, n), false);
    == { PartSame(even, false); PartSame(others, false); }
      [] + others;
    }
  }

  /** The others come in order between the last two of the burst, none of them a whole
      number of intervals after the first of these. */
  ghost predicate Between(others: seq<nat>, from: int, gap: nat, tolerance: nat) {
    InOrder(others) && forall i :: 0 <= i < |others| ==>
      from <= others[i] <= from + gap && !OnGrid(others[i] as int - from, gap, tolerance)
  }

  lemma MixedInOrder(start: nat, gap: nat, c: nat, others: seq<nat>, tolerance: nat)
    requires c >= 3 && Between(others, start + (c - 2) * gap, gap, tolerance)
    ensures InOrder(MixedTimes(start, gap, c, others))
  {
    var times := MixedTimes(start, gap, c, others);
    assert (c - 1) * gap == (c - 2) * gap + gap;
    forall i, k | 0 <= i <= k < |times| ensures times[i] <= times[k] {
      if i < c - 1 {
        MultipleOrder(i, if k < c - 1 then k else c - 2, gap);
      }
    }
  }

  lemma MixedIsOff(p: Pattern, start: nat, gap: nat, c: nat, others: seq<nat>, k: nat)
    requires 3 <= c && k < |others| && Between(others, start + (c - 2) * gap, gap, p.tolerance)
    ensures OffGrid(p, gap, MixedTimes(start, gap, c, others), MixedMarks(c, |others|), c - 1 + k)
  {
    MixedParts(start, gap, c, others, k);
    assert MixedTimes(start, gap, c, others)[c - 1 + k] == others[k];
  }

  lemma MixedIsNoisy(p: Pattern, start: nat, gap: nat, c: nat, others: seq<nat>)
    requires Usable(p) && c == p.thresh && p.priMin <= gap <= p.priMax && PriToUse(p, gap) == gap
    requires start + (c - 1) * gap < TWO_64 && Between(others, start + (c - 2) * gap, gap, p.tolerance)
    ensures NoisyBurst(p, gap, MixedTimes(start, gap, c, others), MixedMarks(c, |others|), 1)
  {
    var times, marks := MixedTimes(start, gap, c, others), MixedMarks(c, |others|);
    MixedInOrder(start, gap, c, others, p.tolerance);
    MixedRadar(start, gap, c, others);
    EvenTrainIsClean(p, start, gap);
    forall k | 1 < k < |times| && !marks[k] ensures OffGrid(p, gap, times, marks, k) {
      MixedIsOff(p, start, gap, c, others, k - (c - 1));
    }
  }

  // ----- pulses halfway -----

  function Halfway(start: nat, gap: nat, c: nat, n: nat): seq<nat>
    requires c >= 2
  {
    Same(start + (c - 2) * gap + gap / 2, n)
  }

  /** Off the grid when neither at the burst's last pulse nor at its next. */
  lemma InsideIsOff(gap: nat, tolerance: nat, x: nat)
    requires tolerance < x && x + tolerance < gap
    ensures !OnGrid(x, gap, tolerance)
  {
    forall k: nat | k >= 1 ensures !Near(x, k, gap, tolerance) {
      MultipleOrder(1, k, gap);
    }
  }

  lemma HalfwayIsBetween(p: Pattern, start: nat, gap: nat, n: nat)
    requires Usable(p) && p.priMin <= gap
    ensures Between(Halfway(start, gap, p.thresh, n), start + (p.thresh - 2) * gap, gap, p.tolerance)
  {
    InsideIsOff(gap, p.tolerance, gap / 2);
  }

  /** Whatever the pattern, an even burst is reported at its last pulse despite up to
      thresh * priNum pulses halfway before it. */
  lemma HalfwayIsReported(p: Pattern, start: nat, gap: nat, n: nat, d: Detector, width: nat, m: Memory)
    requires Usable(p) && p.priMin <= gap <= p.priMax && PriToUse(p, gap) == gap
    requires start + (p.thresh - 1) * gap < TWO_64 && n <= p.thresh * p.priNum
    requires Ready(p, d, MixedTimes(start, gap, p.thresh, Halfway(start, gap, p.thresh, n)), width, m)
    ensures var times := MixedTimes(start, gap, p.thresh, Halfway(start, gap, p.thresh, n));
            Call(p, d, times, |times| - 1, width, m).1.Some?
  {
    var others := Halfway(start, gap, p.thresh, n);
    var times, marks := MixedTimes(start, gap, p.thresh, others), MixedMarks(p.thresh, n);
    HalfwayIsBetween(p, start, gap, n);
    MixedIsNoisy(p, start, gap, p.thresh, others);
    MixedOthers(start, gap, p.thresh, others);
    NoisyBurstIsReported(p, gap, d, times, marks, 1, |times| - 1, width, m);
  }

  // ----- where the number alone decides -----

  /** The pattern prescribes its interval, and half of it is more than the drift of a burst. */
  ghost predicate Fixed(p: Pattern, gap: nat) {
    && p.priMin + PRI_OFFSET == gap == p.priMax - PRI_OFFSET
    && gap / 2 > p.tolerance + PRI_OFFSET * p.thresh
  }

  /** Some intervals and half a one are no whole number of intervals. */
  lemma HalfIsApart(p: Pattern, gap: nat, m: nat, half: nat)
    requires Usable(p) && Fixed(p, gap) && m < p.thresh && gap / 2 <= half <= gap - gap / 2
    ensures NoInterval(p, m * gap + half)
  {
    var val := m * gap + half;
    forall n: nat, pri: nat | n >= 1 && p.priMin <= pri <= p.priMax ensures !Near(val, n, pri, p.tolerance) {
      if n <= m {
        Drift(n, m, pri, gap + PRI_OFFSET);
        assert m * (gap + PRI_OFFSET) == m * gap + m * PRI_OFFSET;
      } else {
        Drift(m + 1, n, gap - PRI_OFFSET, pri);
        assert (m + 1) * (gap - PRI_OFFSET) == m * gap + gap - (m + 1) * PRI_OFFSET;
      }
    }
  }

  lemma Drift(n: nat, m: nat, x: nat, y: nat)
    requires n <= m && x <= y
    ensures n * x <= m * y
  {
    MultipleOrder(n, m, x);
    MultipleOrder(x, y, m);
  }

  lemma SameIsApart(p: Pattern)
    requires Usable(p)
    ensures NoInterval(p, 0)
  {
    forall n: nat, pri: nat | n >= 1 && p.priMin <= pri <= p.priMax ensures !Near(0, n, pri, p.tolerance) {
      MultipleOrder(1, n, pri);
    }
  }

  lemma HalfwayAt(start: nat, gap: nat, c: nat, n: nat, i: nat)
    requires c >= 2 && i < c + n
    ensures MixedMarks(c, n)[i] == (i < c - 1 || i == c + n - 1)
    ensures MixedTimes(start, gap, c, Halfway(start, gap, c, n))[i]
         == if i < c - 1 then start + i * gap
            else if i < c + n - 1 then start + (c - 2) * gap + gap / 2 else start + (c - 1) * gap
  {
  }

  lemma HalfwayPair(p: Pattern, start: nat, gap: nat, n: nat, times: seq<nat>, i: nat, k: nat)
    requires Usable(p) && Fixed(p, gap) && i < k < p.thresh + n
    requires times == MixedTimes(start, gap, p.thresh, Halfway(start, gap, p.thresh, n))
    requires !(MixedMarks(p.thresh, n)[i] && MixedMarks(p.thresh, n)[k])
    ensures NoInterval(p, times[k] as int - times[i])
  {
    var c := p.thresh;
    HalfwayAt(start, gap, c, n, i);
    HalfwayAt(start, gap, c, n, k);
    if i < c - 1 {
      assert (c - 2 - i) * gap == (c - 2) * gap - i * gap;
      HalfIsApart(p, gap, c - 2 - i, gap / 2);
    } else if k < c + n - 1 {
      SameIsApart(p);
    } else {
      assert (c - 1) * gap == (c - 2) * gap + gap && 0 * gap == 0;
      HalfIsApart(p, gap, 0, gap - gap / 2);
    }
  }

  lemma HalfwayIsApart(p: Pattern, start: nat, gap: nat, n: nat)
    requires Usable(p) && Fixed(p, gap)
    ensures Apart(p, MixedTimes(start, gap, p.thresh, Halfway(start, gap, p.thresh, n)), MixedMarks(p.thresh, n))
  {
    var times, marks := MixedTimes(start, gap, p.thresh, Halfway(start, gap, p.thresh, n)), MixedMarks(p.thresh, n);
    forall i, k | 0 <= i < k < |times| && !(marks[i] && marks[k])
      ensures NoInterval(p, times[k] as int - times[i])
    {
      HalfwayPair(p, start, gap, n, times, i, k);
    }
  }

  /** For such a pattern the call at position k reports exactly when it is the last and
      the pulses halfway are no more than thresh * priNum. */
  lemma HalfwayExactly(p: Pattern, start: nat, gap: nat, n: nat, d: Detector, k: nat, width: nat, m: Memory)
    requires Usable(p) && Fixed(p, gap) && start + (p.thresh - 1) * gap < TWO_64 && k < p.thresh + n
    requires Ready(p, d, MixedTimes(start, gap, p.thresh, Halfway(start, gap, p.thresh, n)), width, m)
    ensures Call(p, d, MixedTimes(start, gap, p.thresh, Halfway(start, gap, p.thresh, n)), k, width, m).1.Some? <==>
      k + 1 == p.thresh + n && n <= p.thresh * p.priNum
  {
    var others := Halfway(start, gap, p.thresh, n);
    HalfwayIsBetween(p, start, gap, n);
    MixedIsNoisy(p, start, gap, p.thresh, others);
    MixedOthers(start, gap, p.thresh, others);
    HalfwayIsApart(p, start, gap, n);
    ApartNoiseExactly(p, gap, d, MixedTimes(start, gap, p.thresh, others), MixedMarks(p.thresh, n), 1, k, width, m);
  }

  /** The first row of the table is such a pattern: nine pulses 1429 us apart are reported
      with nine others halfway before the last, and not with ten. */
  lemma FirstRowDecides(d: Detector, m: Memory)
    requires d == Reset(0) && m.sequences >= 36 && m.element
    ensures Call(ETSI_PATTERNS[0], d, MixedTimes(1000, 1429, 9, Halfway(1000, 1429, 9, 9)), 17, 0, m).1.Some?
    ensures Call(ETSI_PATTERNS[0], d, MixedTimes(1000, 1429, 9, Halfway(1000, 1429, 9, 10)), 18, 0, m).1.None?
  {
    var p := ETSI_PATTERNS[0];
    EtsiPatternsUsable(0);
    assert p.thresh == 9 && p.priNum == 1 && p.ppb == 18 && p.priMin == 1413 && p.priMax == 1445;
    HalfwayExactly(p, 1000, 1429, 9, d, 17, 0, m);
    HalfwayExactly(p, 1000, 1429, 10, d, 18, 0, m);
  }

  // ----- one stray pulse, and a radar through the others -----

  /** Five pulses of a burst and a stray one after the third. */
  function StrayTimes(a: nat, gap: nat, x: nat): seq<nat> {
    [a, a + gap, a + 2 * gap, a + 2 * gap + x, a + 3 * gap, a + 4 * gap]
  }

  const STRAY_MARKS: seq<bool> := [true, true, true, false, true, true]

  lemma StrayRadar(times: seq<nat>, marks: seq<bool>)
    requires |times| == 6 && marks == STRAY_MARKS
    ensures Radar(times, marks, 3) == [times[0], times[1], times[2]]
    ensures Radar(times, marks, 6) == [times[0], times[1], times[2], times[4], times[5]]
  {
    OpenedRadar(times, marks, 1);
    RadarStep(times, marks, 2);
    RadarStep(times, marks, 3);
    RadarStep(times, marks, 4);
    RadarStep(times, marks, 5);
  }

  lemma StrayOthers(times: seq<nat>, marks: seq<bool>)
    requires |times| == 6 && marks == STRAY_MARKS
    ensures |Others(times, marks, 1)| == 1
  {
    OpenedRadar(times, marks, 1);
    NoiseStep(times, marks, 1, 2);
    NoiseStep(times, marks, 1, 3);
    NoiseStep(times, marks, 1, 4);
    NoiseStep(times, marks, 1, 5);
    assert times[2..6] == times[2..] && marks[2..6] == marks[2..];
  }

  lemma StrayIsClean(p: Pattern, a: nat, gap: nat)
    requires Usable(p) && p.thresh == 5 && p.priMin <= gap <= p.priMax && PriToUse(p, gap) == gap
    ensures CleanBurst(p, gap, [a, a + gap, a + 2 * gap, a + 3 * gap, a + 4 * gap])
  {
    EvenTrainIsClean(p, a, gap);
    var even := EvenTrain(a, gap, 5);
    assert even == [a, a + gap, a + 2 * gap, a + 3 * gap, a + 4 * gap] by {
      assert even[0] == a + 0 * gap && even[1] == a + 1 * gap;
    }
  }

  lemma StrayIsNoisy(p: Pattern, a: nat, gap: nat, x: nat, times: seq<nat>, marks: seq<bool>)
    requires Usable(p) && p.thresh == 5 && p.priMin <= gap <= p.priMax && PriToUse(p, gap) == gap
    requires p.tolerance < x && x + p.tolerance < gap && a + 4 * gap < TWO_64
    requires times == StrayTimes(a, gap, x) && marks == STRAY_MARKS
    ensures NoisyBurst(p, gap, times, marks, 1)
  {
    StrayRadar(times, marks);
    StrayIsClean(p, a, gap);
    InsideIsOff(gap, p.tolerance, x);
    assert times[3] as int - LastOf(Radar(times, marks, 3)) == x;
    assert OffGrid(p, gap, times, marks, 3);
  }

  /** One stray pulse off the grid does not hide a burst of a pattern that needs five. */
  lemma StrayPulseIsTolerated(p: Pattern, a: nat, gap: nat, x: nat, d: Detector, width: nat, m: Memory)
    requires Usable(p) && p.thresh == 5 && p.priMin <= gap <= p.priMax && PriToUse(p, gap) == gap
    requires p.tolerance < x && x + p.tolerance < gap && a + 4 * gap < TWO_64
    requires Ready(p, d, StrayTimes(a, gap, x), width, m)
    ensures Call(p, d, StrayTimes(a, gap, x), 5, width, m).1.Some?
  {
    var times := StrayTimes(a, gap, x);
    StrayIsNoisy(p, a, gap, x, times, STRAY_MARKS);
    StrayOthers(times, STRAY_MARKS);
    MultipleOrder(1, p.thresh, p.priNum);
    NoisyBurstIsReported(p, gap, d, times, STRAY_MARKS, 1, 5, width, m);
  }

  /** So the second row's pulses 100000, 101000, 102000, 103000, 104000 are reported at the
      last, with one at 102500 among them. */
  lemma SecondRowTolerates(d: Detector, m: Memory)
    requires d == Reset(0) && m.sequences >= 20 && m.element
    ensures Call(ETSI_PATTERNS[1], d, [100000, 101000, 102000, 102500, 103000, 104000], 5, 0, m).1.Some?
  {
    var p := ETSI_PATTERNS[1];
    EtsiPatternsUsable(1);
    assert p.thresh == 5 && p.priNum == 1 && p.ppb == 10 && p.priMin == 984 && p.priMax == 5016 && p.tolerance == 16;
    StrayPulseIsTolerated(p, 100000, 1000, 500, d, 0, m);
  }

  lemma HeldIsFound(p: Pattern, ss: seq<PriSequence>, s: PriSequence)
    requires s in ss && s.count >= p.thresh && s.count * p.priNum >= s.falses
    ensures FirstDetected(p, ss).Some?
  {
    var i :| 0 <= i < |ss| && ss[i] == s;
  }

  /** A held sequence grows by a pulse on its grid. */
  lemma GrowStep(p: Pattern, e: Detector, s: PriSequence, ts: nat, width: nat, m: Memory)
    requires p.ppb > 0 && p.widthMin <= width <= p.widthMax && m.element && |e.pulses| <= m.sequences
    requires s in e.sequences && s.pri > 0
    requires s.lastTs <= ts <= s.deadline && ts - s.lastTs < TWO_32 && OnGrid(ts - s.lastTs, s.pri, p.tolerance)
    ensures var (e', found) := AddPulse(p, e, Pulse(ts, width, p.chirp), m);
            && s.(count := s.count + 1, lastTs := ts) in e'.sequences && |e'.pulses| <= |e.pulses| + 1
            && found == FirstDetected(p, e'.sequences)
  {
    IsNear(p, s, ts);
    OwnIsKept(p, e.sequences, s, ts);
    var created := CreateScan(p, ts, LargestGrown(p, e.sequences, ts), e.pulses, []);
    CreatedAreLonger(p, ts, LargestGrown(p, e.sequences, ts), e.pulses, []);
    AddPulseParts(p, e, ts, width, m, created, ExtendAll(p, e.sequences, ts));
  }

  /** A usable pattern that needs three pulses and allows a false one for each. */
  const THREE: Pattern := Pattern(0, 0, 5, 100, 2000, 1, 20, 3, 16, 0)

  /** Pulses 200 us apart. */
  function FourOthers(): (others: seq<nat>)
    ensures |others| == 4 && forall i :: 0 <= i < 4 ==> others[i] == 1200 + 200 * i
  {
    [1200, 1400, 1600, 1800]
  }

  /** A burst of three pulses 1000 us apart with the four before its last. */
  function RivalTimes(): (times: seq<nat>)
    ensures |times| == 7 && times[0] == 0 && times[1] == 1000 && times[2] == 1200
    ensures times[3] == 1400 && times[4] == 1600 && times[5] == 1800 && times[6] == 2000
  {
    MixedTimes(0, 1000, 3, FourOthers())
  }

  lemma RivalIsNoisy(p: Pattern, others: seq<nat>)
    requires p == THREE && others == FourOthers()
    ensures Usable(p) && NoisyBurst(p, 1000, MixedTimes(0, 1000, 3, others), MixedMarks(3, 4), 1)
  {
    forall i | 0 <= i < 4 ensures !OnGrid(others[i] - 1000, 1000, p.tolerance) {
      InsideIsOff(1000, 16, 200 + 200 * i);
    }
    MixedIsNoisy(p, 0, 1000, 3, others);
  }

  /** The sequence of the pulses 200 us apart, from 1000 on. */
  function Rival(i: nat): PriSequence {
    PriSequence(200, 3832, 2 + i, 0, 1000, 1200 + 200 * i, 4832)
  }

  lemma RivalStarts(p: Pattern, e: Detector, m: Memory)
    requires p == THREE && m.sequences >= 40 && m.element
    requires e.pulses == [1000, 0] && e.sequences == [Pair(p, 1000, 0, 1000)]
    ensures var e' := AddPulse(p, e, Pulse(1200, 0, 0), m).0;
            Rival(0) in e'.sequences && |e'.pulses| <= 3
  {
    var own := Pair(p, 1000, 0, 1000);
    InsideIsOff(1000, 16, 200);
    NotNear(p, own, 1200);
    assert !Grows(p, own, 1200) && [own][1..] == [];
    assert LargestGrown(p, [own], 1200) == 0;
    var c := Candidate(p, 1200, 1000, [0]);
    assert MinValid(1200, 3832) > 0 && c == Rival(0);
    assert [1000, 0][1..] == [0];
    CreateScanKeepsMade(p, 1200, 0, [0], [c]);
    var created := CreateScan(p, 1200, 0, [1000, 0], []);
    assert created == CreateScan(p, 1200, 0, [0], [c]);
    assert c in created[|created| - 1..];
    CreatedAreLonger(p, 1200, 0, [1000, 0], []);
    AddPulseParts(p, e, 1200, 0, m, created, ExtendAll(p, e.sequences, 1200));
  }

  lemma TwoQueued(p: Pattern, a: nat, b: nat)
    requires Usable(p) && p.ppb >= 2 && a <= b <= p.priMax
    ensures Enqueue(p, [a], b) == [b, a]
  {
    EnqueueDropsNoMore(p, [a], b);
    WindowIsWide(p);
    assert [b] + [a] == [b, a];
  }

  lemma RivalSecond(p: Pattern, d: Detector, times: seq<nat>, m: Memory)
    requires p == THREE && d == Reset(0) && m.sequences >= 40 && m.element
    requires |times| >= 2 && times[0] == 0 && times[1] == 1000
    ensures var e := HearAll(p, d, times[..2], 0, m);
            e.pulses == [1000, 0] && e.sequences == [Pair(p, 1000, 0, 1000)]
  {
    HearSecond(p, d, times, 0, m);
    SecondPulse(p, 1000, Detector(0, [0], []), 0, 1000, 0, m);
    TwoQueued(p, 0, 1000);
  }

  lemma RivalGrows(p: Pattern, e: Detector, i: nat, ts: nat, m: Memory)
    requires p == THREE && m.sequences >= 40 && m.element && i < 4 && ts == 1400 + 200 * i
    requires Rival(i) in e.sequences && |e.pulses| <= 3 + i
    ensures var (e', found) := AddPulse(p, e, Pulse(ts, 0, 0), m);
            && Rival(i + 1) in e'.sequences && |e'.pulses| <= 4 + i && found == FirstDetected(p, e'.sequences)
  {
    assert Near(200, 1, 200, p.tolerance);
    GrowStep(p, e, Rival(i), ts, 0, m);
  }

  lemma RivalNext(p: Pattern, d: Detector, times: seq<nat>, i: nat, k: nat, e: Detector, m: Memory)
      returns (e': Detector)
    requires p == THREE && m.sequences >= 40 && m.element && i < 4
    requires 0 < k < |times| && times[k] == 1400 + 200 * i
    requires e == Call(p, d, times, k - 1, 0, m).0 && Rival(i) in e.sequences && |e.pulses| <= 3 + i
    ensures e' == Call(p, d, times, k, 0, m).0 && Rival(i + 1) in e'.sequences && |e'.pulses| <= 4 + i
    ensures Call(p, d, times, k, 0, m).1 == FirstDetected(p, e'.sequences)
  {
    CallNext(p, d, times, k, 0, m);
    RivalGrows(p, e, i, times[k], m);
    e' := Call(p, d, times, k, 0, m).0;
  }

  lemma RivalIsReported(p: Pattern, d: Detector, times: seq<nat>, m: Memory)
    requires p == THREE && d == Reset(0) && m.sequences >= 40 && m.element
    requires |times| == 7 && times[0] == 0 && times[1] == 1000 && times[2] == 1200
    requires times[3] == 1400 && times[4] == 1600 && times[5] == 1800 && times[6] == 2000
    ensures Call(p, d, times, 6, 0, m).1.Some?
  {
    RivalSecond(p, d, times, m);
    RivalStarts(p, HearAll(p, d, times[..2], 0, m), m);
    var e := Call(p, d, times, 2, 0, m).0;
    e := RivalNext(p, d, times, 0, 3, e, m);
    e := RivalNext(p, d, times, 1, 4, e, m);
    e := RivalNext(p, d, times, 2, 5, e, m);
    e := RivalNext(p, d, times, 3, 6, e, m);
    HeldIsFound(p, e.sequences, Rival(4));
  }

  /** More than thresh * priNum others do not always hide the burst: here four come to its
      three, and its last pulse is reported, for it ends a radar of those others. */
  lemma RadarThroughNoiseIsReported(d: Detector, m: Memory)
    requires d == Reset(0) && m.sequences >= 40 && m.element
    ensures Usable(THREE) && NoisyBurst(THREE, 1000, RivalTimes(), MixedMarks(3, 4), 1)
    ensures |Others(RivalTimes(), MixedMarks(3, 4), 1)| > THREE.thresh * THREE.priNum
    ensures Call(THREE, d, RivalTimes(), 6, 0, m).1.Some?
  {
    RivalIsNoisy(THREE, FourOthers());
    MixedOthers(0, 1000, 3, FourOthers());
    RivalIsReported(THREE, d, RivalTimes(), m);
  }
}
