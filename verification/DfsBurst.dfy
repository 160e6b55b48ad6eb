/** Bounds and completeness of detection: how long a new sequence can be, and
    that a clean radar burst is always reported. */
module DfsBurst {
  import opened CInt
  import opened DfsPattern
  import opened DfsScan
  import opened Optional
  import opened DfsSound

  // ----- a newly created sequence holds at most ppb + 1 pulses -----

  /** Only n multiples of an interval are near a value up to n intervals and a bit. */
  lemma FewMultiples(pri: nat, n: nat, tolerance: nat, val: nat, k: nat)
    requires 3 * tolerance < pri && val <= pri * n + 2 * tolerance && Near(val, k, pri, tolerance)
    ensures k <= n
  {
    if k > n {
      MultipleOrder(n, k, pri);
    }
  }

  lemma {:induction false} ScanCountsFewFactors(p: Pattern, pri: nat, ts: nat, minValid: nat, older: seq<nat>, a: Tally)
    requires Usable(p) && p.priMin <= pri <= p.priMax
    requires NotAfter(older, ts) && ts - minValid <= Duration(p, pri) < TWO_32
    requires a.minFactor <= p.ppb - 1 && a.count <= a.minFactor + 2
    ensures ScanOlder(p, pri, ts, minValid, older, a).count <= p.ppb + 1
    decreases |older|
  {
    if older != [] && older[0] >= minValid {
      var val := ts - older[0];
      var k := GetMultiple(U32(val), pri, p.tolerance);
      MultipleIsNear(val, pri, p.tolerance);
      if k > a.minFactor {
        FewMultiples(pri, p.ppb - 1, p.tolerance, val, k);
      }
      ScanCountsFewFactors(p, pri, ts, minValid, older[1..], CountOlder(p, pri, ts, older[0], a));
    }
  }

  lemma CandidateIsShort(p: Pattern, ts: nat, p0: nat, older: seq<nat>)
    requires Usable(p) && ts < TWO_64 && NotAfter(older, ts)
    requires p.priMin <= U32(ts - p0) <= p.priMax
    ensures Candidate(p, ts, p0, older).count <= p.ppb + 1
  {
    var pri := PriToUse(p, ts - p0);
    PriInRange(p, ts - p0);
    DurationFits(p, pri);
    var dur := Duration(p, pri);
    MinValidMeans(ts, dur);
    ScanCountsFewFactors(p, pri, ts, MinValid(ts, dur), older, FirstTally(p0));
  }

  /** One more than the pulses of a burst: the scan starts from factor 0, so a second
      pulse one interval back counts as well. */
  lemma CandidateCanBeLonger()
    ensures var p := Pattern(0, 0, 5, 100, 2000, 1, 3, 3, 16, 0);
            Usable(p) && Candidate(p, 10000, 9000, [8990, 8000]).count == p.ppb + 1
  {
    var p := Pattern(0, 0, 5, 100, 2000, 1, 3, 3, 16, 0);
    assert U32(1000) == 1000 && PriToUse(p, 1000) == 1000 && Duration(p, 1000) == 2032;
    assert U64(7968) == 7968 && MinValid(10000, 2032) == 7968;
    NearMultiple(1010, 1000, 16, 1);
    NearMultiple(2000, 1000, 16, 2);
    var one := CountOlder(p, 1000, 10000, 8990, FirstTally(9000));
    ScanTwo(p, 1000, 10000, 7968, 8990, 8000, FirstTally(9000));
    assert one.count == 3 && one.minFactor == 1 && CountOlder(p, 1000, 10000, 8000, one).count == 4;
    CandidateIs(p, 10000, 9000, [8990, 8000], 1000, 2032);
  }

  lemma NearMultiple(val: nat, pri: nat, tolerance: nat, k: nat)
    requires 0 < k && 2 * tolerance < pri && k * pri <= val <= k * pri + tolerance < TWO_32
    ensures GetMultiple(U32(val), pri, tolerance) == k
  {
    MultipleIsUnique(val, pri, tolerance, k);
  }

  lemma ScanTwo(p: Pattern, pri: nat, ts: nat, minValid: nat, x: nat, y: nat, a: Tally)
    requires x >= minValid && y >= minValid
    ensures ScanOlder(p, pri, ts, minValid, [x, y], a) == CountOlder(p, pri, ts, y, CountOlder(p, pri, ts, x, a))
  {
    var b := CountOlder(p, pri, ts, x, a);
    assert [x, y][1..] == [y] && [y][1..] == [];
    assert ScanOlder(p, pri, ts, minValid, [y], b) == ScanOlder(p, pri, ts, minValid, [], CountOlder(p, pri, ts, y, b));
  }

  ghost predicate NoLonger(ss: seq<PriSequence>, n: nat) {
    forall i :: 0 <= i < |ss| ==> ss[i].count <= n
  }

  /** The older pulses take strictly increasing multiples of the interval, and
      only ppb - 1 of those fit in a burst. */
  lemma {:induction false} NewSequencesAreShort(p: Pattern, ts: nat, minCount: nat, pulses: seq<nat>,
      made: seq<PriSequence>)
    requires Usable(p) && ts < TWO_64 && NotAfter(pulses, ts)
    requires NoLonger(made, p.ppb + 1)
    ensures NoLonger(CreateScan(p, ts, minCount, pulses, made), p.ppb + 1)
    decreases |pulses|
  {
    if pulses != [] {
      var delta := U32(ts - pulses[0]);
      if delta < p.priMin {
        NewSequencesAreShort(p, ts, minCount, pulses[1..], made);
      } else if delta <= p.priMax {
        CandidateIsShort(p, ts, pulses[0], pulses[1..]);
        var c := Candidate(p, ts, pulses[0], pulses[1..]);
        NewSequencesAreShort(p, ts, minCount, pulses[1..], if c.count <= minCount then made else [c] + made);
      }
    }
  }

  // ----- a clean burst is reported -----

  /** A radar burst with missed pulses and jitter: the first two pulses fix the
      interval, every later one comes a whole number of intervals after the one
      before it, and the last arrives before the burst is over. */
  ghost predicate CleanBurst(p: Pattern, pri: nat, times: seq<nat>) {
    && |times| == p.thresh >= 2
    && p.priMin <= times[1] - times[0] <= p.priMax && pri == PriToUse(p, times[1] - times[0])
    && (forall i, j :: 1 <= i && j == i + 1 && j < |times| ==> OnGrid(times[j] as int - times[i], pri, p.tolerance))
    && forall i :: 0 <= i < |times| ==> times[i] <= times[0] + Duration(p, pri)
  }

  /** The detector after hearing these stamps with the right width and chirp. */
  function HearAll(p: Pattern, d: Detector, times: seq<nat>, width: nat, m: Memory): Detector
    requires p.ppb > 0
  {
    if times == [] then d
    else
      var n := |times| - 1;
      AddPulse(p, HearAll(p, d, times[..n], width, m), Pulse(times[n], width, p.chirp), m).0
  }

  lemma {:induction false} ScanCountsEachOnce(p: Pattern, pri: nat, ts: nat, minValid: nat, older: seq<nat>, a: Tally)
    ensures ScanOlder(p, pri, ts, minValid, older, a).count <= a.count + |older|
    decreases |older|
  {
    if older != [] && older[0] >= minValid {
      ScanCountsEachOnce(p, pri, ts, minValid, older[1..], CountOlder(p, pri, ts, older[0], a));
    }
  }

  /** No candidate beats a sequence that already holds more pulses than the queue. */
  lemma {:induction false} NothingBeatsLongSequence(p: Pattern, ts: nat, minCount: nat, pulses: seq<nat>)
    requires p.ppb > 0 && |pulses| + 1 <= minCount
    ensures CreateScan(p, ts, minCount, pulses, []) == []
    decreases |pulses|
  {
    if pulses != [] {
      var pri := PriToUse(p, ts - pulses[0]);
      ScanCountsEachOnce(p, pri, ts, MinValid(ts, Duration(p, pri)), pulses[1..], FirstTally(pulses[0]));
      NothingBeatsLongSequence(p, ts, minCount, pulses[1..]);
    }
  }

  lemma EnqueueGrowsByOne(p: Pattern, pulses: seq<nat>, ts: nat)
    ensures |Enqueue(p, pulses, ts)| <= |pulses| + 1
  {
    if ts > WindowSize(p) {
      DropOldIsPrefix([ts] + pulses, ts - WindowSize(p));
    }
  }

  /** The one sequence a clean burst builds. */
  function BurstSequence(p: Pattern, pri: nat, times: seq<nat>, k: nat): PriSequence
    requires p.ppb > 0 && 2 <= k <= |times|
  {
    PriSequence(pri, Duration(p, pri), k, 0, times[0], times[k - 1], times[0] + Duration(p, pri))
  }

  lemma FirstPulse(p: Pattern, d: Detector, ts: nat, width: nat, m: Memory)
    requires Usable(p) && p.widthMin <= width <= p.widthMax && m.element
    requires d.pulses == [] && d.sequences == []
    ensures AddPulse(p, d, Pulse(ts, width, p.chirp), m) == (Detector(ts, [ts], []), None)
  {
    assert [ts] + [] == [ts];
    assert CreateScan(p, ts, 0, [], []) == [] && ExtendAll(p, [], ts) == [];
    assert FirstDetected(p, []) == None;
  }

  /** The parts of one call when the pulse matches and allocations succeed. */
  lemma AddPulseParts(p: Pattern, d: Detector, ts: nat, width: nat, m: Memory, created: seq<PriSequence>,
      kept: seq<PriSequence>)
    requires p.ppb > 0 && p.widthMin <= width <= p.widthMax && m.element && |created| <= m.sequences
    requires created == CreateScan(p, ts, LargestGrown(p, d.sequences, ts), d.pulses, [])
    requires kept == ExtendAll(p, d.sequences, ts)
    ensures var (e, found) := AddPulse(p, d, Pulse(ts, width, p.chirp), m);
            && e.sequences == created + kept && found == FirstDetected(p, created + kept)
            && |e.pulses| <= |d.pulses| + 1
  {
    EnqueueGrowsByOne(p, d.pulses, ts);
  }

  lemma SingleDetection(p: Pattern, s: PriSequence)
    requires Usable(p) && s.falses == 0
    ensures FirstDetected(p, [s]) == if s.count >= p.thresh then Some(s) else None
  {
    assert [s][1..] == [];
    assert s.count * p.priNum >= 0;
  }

  function Pair(p: Pattern, pri: nat, p0: nat, ts: nat): PriSequence
    requires p.ppb > 0
  {
    PriSequence(pri, Duration(p, pri), 2, 0, p0, ts, p0 + Duration(p, pri))
  }

  lemma PairCandidate(p: Pattern, p0: nat, ts: nat)
    requires p.ppb > 0
    ensures Candidate(p, ts, p0, []) == Pair(p, PriToUse(p, ts - p0), p0, ts)
  {
  }

  lemma OneCandidate(p: Pattern, p0: nat, ts: nat, c: PriSequence)
    requires p.ppb > 0 && p.priMin <= U32(ts - p0) <= p.priMax
    requires c == Candidate(p, ts, p0, []) && c.count == 2
    ensures CreateScan(p, ts, 0, [p0], []) == [c]
  {
    assert [p0][1..] == [];
    assert [c] + [] == [c];
    assert CreateScan(p, ts, 0, [], [c]) == [c];
  }

  lemma SecondPulse(p: Pattern, pri: nat, d: Detector, p0: nat, ts: nat, width: nat, m: Memory)
    requires Usable(p) && p.widthMin <= width <= p.widthMax && m.sequences >= 1 && m.element
    requires p.priMin <= ts - p0 <= p.priMax && pri == PriToUse(p, ts - p0)
    requires d == Detector(p0, [p0], [])
    ensures var (e, found) := AddPulse(p, d, Pulse(ts, width, p.chirp), m);
            |e.pulses| <= 2 && e.sequences == [Pair(p, pri, p0, ts)] && found == None
  {
    var c := Pair(p, pri, p0, ts);
    PairCandidate(p, p0, ts);
    OneCandidate(p, p0, ts, c);
    AddPulseParts(p, d, ts, width, m, [c], []);
    assert [c] + [] == [c];
    SingleDetection(p, c);
  }

  lemma ExtendOne(p: Pattern, s: PriSequence, ts: nat)
    requires s.lastTs <= ts <= s.deadline && ts - s.lastTs < TWO_32
    requires s.pri > 0 && OnGrid(ts - s.lastTs, s.pri, p.tolerance)
    ensures var grown := s.(count := s.count + 1, lastTs := ts);
            ExtendAll(p, [s], ts) == [grown] && LargestGrown(p, [s], ts) == grown.count
  {
    var gap := ts - s.lastTs;
    var j: nat :| j >= 1 && Near(gap, j, s.pri, p.tolerance);
    MultipleFindsOne(gap, s.pri, p.tolerance, j);
    assert [s][1..] == [];
    assert Extend(p, s, ts) == s.(count := s.count + 1, lastTs := ts);
  }

  /** A pulse a whole number of intervals on extends the only sequence and creates no other. */
  lemma NextPulse(p: Pattern, d: Detector, s: PriSequence, ts: nat, width: nat, m: Memory)
    requires Usable(p) && p.widthMin <= width <= p.widthMax && m.element
    requires d.sequences == [s] && |d.pulses| <= s.count && s.falses == 0
    requires s.lastTs <= ts <= s.deadline && ts - s.lastTs < TWO_32
    requires s.pri > 0 && OnGrid(ts - s.lastTs, s.pri, p.tolerance)
    ensures var (e, found) := AddPulse(p, d, Pulse(ts, width, p.chirp), m);
            var grown := s.(count := s.count + 1, lastTs := ts);
            && |e.pulses| <= s.count + 1 && e.sequences == [grown]
            && found == if grown.count >= p.thresh then Some(grown) else None
  {
    var grown := s.(count := s.count + 1, lastTs := ts);
    ExtendOne(p, s, ts);
    NothingBeatsLongSequence(p, ts, grown.count, d.pulses);
    AddPulseParts(p, d, ts, width, m, [], [grown]);
    assert [] + [grown] == [grown];
    SingleDetection(p, grown);
  }

  lemma GapIsForward(pri: nat, tolerance: nat, gap: int)
    requires OnGrid(gap, pri, tolerance) && tolerance < pri
    ensures gap > 0
  {
    var j: nat :| j >= 1 && Near(gap, j, pri, tolerance);
    MultipleOrder(1, j, pri);
  }

  lemma {:induction false} BurstIsOrdered(p: Pattern, pri: nat, times: seq<nat>, k: nat)
    requires p.tolerance < pri && CleanBurst(p, pri, times) && 1 <= k < |times|
    ensures times[0] <= times[k]
  {
    if k > 1 {
      BurstIsOrdered(p, pri, times, k - 1);
      GapIsForward(pri, p.tolerance, times[k] as int - times[k - 1]);
    }
  }

  /** The k-th pulse of the burst, once the sequence holds the first k. */
  lemma BurstPulse(p: Pattern, pri: nat, d: Detector, times: seq<nat>, k: nat, width: nat, m: Memory)
    requires Usable(p) && p.widthMin <= width <= p.widthMax && m.element
    requires CleanBurst(p, pri, times) && 2 <= k < |times|
    requires |d.pulses| <= k && d.sequences == [BurstSequence(p, pri, times, k)]
    ensures var (e, found) := AddPulse(p, d, Pulse(times[k], width, p.chirp), m);
            && |e.pulses| <= k + 1 && e.sequences == [BurstSequence(p, pri, times, k + 1)]
            && (found.Some? <==> k + 1 == p.thresh)
  {
    PriInRange(p, times[1] - times[0]);
    DurationFits(p, pri);
    GapIsForward(pri, p.tolerance, times[k] as int - times[k - 1]);
    BurstIsOrdered(p, pri, times, k - 1);
    NextPulse(p, d, BurstSequence(p, pri, times, k), times[k], width, m);
  }

  /** The detector's one sequence holds the first k pulses of the burst. */
  ghost predicate Follows(p: Pattern, pri: nat, e: Detector, times: seq<nat>, k: nat)
    requires p.ppb > 0 && 2 <= k <= |times|
  {
    |e.pulses| <= k && e.sequences == [BurstSequence(p, pri, times, k)]
  }

  lemma BurstStarts(p: Pattern, pri: nat, d: Detector, times: seq<nat>, width: nat, m: Memory)
    requires Usable(p) && p.widthMin <= width <= p.widthMax && m.sequences >= 1 && m.element
    requires CleanBurst(p, pri, times) && d.pulses == [] && d.sequences == [] && 2 <= |times|
    ensures Follows(p, pri, HearAll(p, d, times[..2], width, m), times, 2)
  {
    HearSecond(p, d, times, width, m);
    SecondPulse(p, pri, Detector(times[0], [times[0]], []), times[0], times[1], width, m);
  }

  lemma HearSecond(p: Pattern, d: Detector, times: seq<nat>, width: nat, m: Memory)
    requires Usable(p) && p.widthMin <= width <= p.widthMax && m.element && |times| >= 2
    requires d.pulses == [] && d.sequences == []
    ensures HearAll(p, d, times[..2], width, m)
         == AddPulse(p, Detector(times[0], [times[0]], []), Pulse(times[1], width, p.chirp), m).0
  {
    HearNext(p, d, times, 1, width, m);
    HearFirst(p, d, times, width, m);
  }

  lemma BurstContinues(p: Pattern, pri: nat, d: Detector, times: seq<nat>, k: nat, width: nat, m: Memory)
    requires Usable(p) && p.widthMin <= width <= p.widthMax && m.element
    requires CleanBurst(p, pri, times) && 2 <= k < |times|
    requires Follows(p, pri, HearAll(p, d, times[..k], width, m), times, k)
    ensures Follows(p, pri, HearAll(p, d, times[..k + 1], width, m), times, k + 1)
  {
    HearNext(p, d, times, k, width, m);
    BurstPulse(p, pri, HearAll(p, d, times[..k], width, m), times, k, width, m);
  }

  lemma {:induction false} BurstIsFollowed(p: Pattern, pri: nat, d: Detector, times: seq<nat>, k: nat, width: nat,
      m: Memory)
    requires Usable(p) && p.widthMin <= width <= p.widthMax && m.sequences >= 1 && m.element
    requires CleanBurst(p, pri, times) && d.pulses == [] && d.sequences == [] && 2 <= k <= |times|
    ensures Follows(p, pri, HearAll(p, d, times[..k], width, m), times, k)
  {
    if k == 2 {
      BurstStarts(p, pri, d, times, width, m);
    } else {
      BurstIsFollowed(p, pri, d, times, k - 1, width, m);
      BurstContinues(p, pri, d, times, k - 1, width, m);
    }
  }

  lemma HearNext(p: Pattern, d: Detector, times: seq<nat>, k: nat, width: nat, m: Memory)
    requires p.ppb > 0 && k < |times|
    ensures HearAll(p, d, times[..k + 1], width, m)
         == AddPulse(p, HearAll(p, d, times[..k], width, m), Pulse(times[k], width, p.chirp), m).0
  {
    assert times[..k + 1][..k] == times[..k];
  }

  lemma HearFirst(p: Pattern, d: Detector, times: seq<nat>, width: nat, m: Memory)
    requires Usable(p) && p.widthMin <= width <= p.widthMax && m.element && times != []
    requires d.pulses == [] && d.sequences == []
    ensures HearAll(p, d, times[..1], width, m) == Detector(times[0], [times[0]], [])
  {
    HearNext(p, d, times, 0, width, m);
    assert times[..0] == [];
    FirstPulse(p, d, times[0], width, m);
  }

  /** Completeness: an empty detector that can allocate reports a clean burst at
      its thresh-th pulse and not before. */
  lemma CleanBurstIsDetected(p: Pattern, pri: nat, d: Detector, times: seq<nat>, k: nat, width: nat, m: Memory)
    requires Usable(p) && p.widthMin <= width <= p.widthMax && m.sequences >= 1 && m.element
    requires CleanBurst(p, pri, times) && d.pulses == [] && d.sequences == [] && k < |times|
    ensures var found := AddPulse(p, HearAll(p, d, times[..k], width, m), Pulse(times[k], width, p.chirp), m).1;
            found.Some? <==> k + 1 == p.thresh
  {
    if k == 0 {
      assert times[..0] == [];
      FirstPulse(p, d, times[0], width, m);
    } else if k == 1 {
      HearFirst(p, d, times, width, m);
      SecondPulse(p, pri, Detector(times[0], [times[0]], []), times[0], times[1], width, m);
    } else {
      BurstIsFollowed(p, pri, d, times, k, width, m);
      BurstPulse(p, pri, HearAll(p, d, times[..k], width, m), times, k, width, m);
    }
  }

  /** Pulses at one fixed spacing. */
  function EvenTrain(start: nat, gap: nat, n: nat): (times: seq<nat>)
    ensures |times| == n
  {
    seq(n, i requires 0 <= i < n => start + i * gap)
  }

  lemma NextEven(start: nat, gap: nat, n: nat, i: nat)
    requires i + 1 < n
    ensures EvenTrain(start, gap, n)[i + 1] == EvenTrain(start, gap, n)[i] + gap
  {
    assert (i + 1) * gap == i * gap + gap;
  }

  lemma EvenInBurst(p: Pattern, start: nat, gap: nat, i: nat)
    requires Usable(p) && i < p.thresh
    ensures EvenTrain(start, gap, p.thresh)[i] <= EvenTrain(start, gap, p.thresh)[0] + Duration(p, gap)
  {
    var last := p.ppb - 1;
    MultipleOrder(i, last, gap);
    assert Duration(p, gap) == gap * last + 2 * p.tolerance && gap * last == last * gap;
    assert EvenTrain(start, gap, p.thresh)[0] == start + 0 * gap;
  }

  lemma EvenOnGrid(start: nat, gap: nat, n: nat, tolerance: nat, i: nat)
    requires i + 1 < n
    ensures OnGrid(EvenTrain(start, gap, n)[i + 1] as int - EvenTrain(start, gap, n)[i], gap, tolerance)
  {
    NextEven(start, gap, n, i);
    assert Near(gap, 1, gap, tolerance);
  }

  /** Any allowed spacing, unless the pattern prescribes another, makes a clean burst. */
  lemma EvenTrainIsClean(p: Pattern, start: nat, gap: nat)
    requires Usable(p) && p.priMin <= gap <= p.priMax && PriToUse(p, gap) == gap
    ensures CleanBurst(p, gap, EvenTrain(start, gap, p.thresh))
  {
    var times := EvenTrain(start, gap, p.thresh);
    NextEven(start, gap, p.thresh, 0);
    forall i, j | 1 <= i && j == i + 1 && j < |times| ensures OnGrid(times[j] as int - times[i], gap, p.tolerance) {
      EvenOnGrid(start, gap, p.thresh, p.tolerance, i);
    }
    forall i | 0 <= i < |times| ensures times[i] <= times[0] + Duration(p, gap) {
      EvenInBurst(p, start, gap, i);
    }
  }

  /** So the thresh-th of evenly spaced pulses, and no earlier one, is reported. */
  lemma EvenTrainIsDetected(p: Pattern, start: nat, gap: nat, d: Detector, k: nat, width: nat, m: Memory)
    requires Usable(p) && p.priMin <= gap <= p.priMax && PriToUse(p, gap) == gap
    requires p.widthMin <= width <= p.widthMax && m.sequences >= 1 && m.element
    requires d.pulses == [] && d.sequences == [] && k < p.thresh
    ensures var times := EvenTrain(start, gap, p.thresh);
            AddPulse(p, HearAll(p, d, times[..k], width, m), Pulse(times[k], width, p.chirp), m).1.Some? <==>
              k + 1 == p.thresh
  {
    EvenTrainIsClean(p, start, gap);
    CleanBurstIsDetected(p, gap, d, EvenTrain(start, gap, p.thresh), k, width, m);
  }
}
