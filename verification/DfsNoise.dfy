/** Completeness of detection under noise: a burst whose pulses come mixed with others
    is reported as long as no more than `priNum` false pulses come to each of its own. */
module DfsNoise {
  import opened CInt
  import opened DfsPattern
  import opened DfsScan
  import opened Optional
  import opened DfsSound
  import opened DfsBurst

  // ----- a stream and its two parts -----

  /** The stamps whose mark is `mark`, in order. */
  function Part(times: seq<nat>, marks: seq<bool>, mark: bool): seq<nat>
    requires |times| == |marks|
  {
    if times == [] then []
    else
      var n := |times| - 1;
      Part(times[..n], marks[..n], mark) + if marks[n] == mark then [times[n]] else []
  }

  /** The burst's own pulses among the first k. */
  function Radar(times: seq<nat>, marks: seq<bool>, k: nat): seq<nat>
    requires k <= |times| == |marks|
  {
    Part(times[..k], marks[..k], true)
  }

  /** The other pulses among the first k that come after position j. */
  function Noise(times: seq<nat>, marks: seq<bool>, j: nat, k: nat): seq<nat>
    requires j < k <= |times| == |marks|
  {
    Part(times[j + 1..k], marks[j + 1..k], false)
  }

  lemma RadarStep(times: seq<nat>, marks: seq<bool>, k: nat)
    requires k < |times| == |marks|
    ensures Radar(times, marks, k + 1) == Radar(times, marks, k) + if marks[k] then [times[k]] else []
  {
    assert times[..k + 1][..k] == times[..k] && marks[..k + 1][..k] == marks[..k];
  }

  lemma NoiseStep(times: seq<nat>, marks: seq<bool>, j: nat, k: nat)
    requires j < k < |times| == |marks|
    ensures Noise(times, marks, j, k + 1) == Noise(times, marks, j, k) + if marks[k] then [] else [times[k]]
  {
    var n := k - j - 1;
    assert times[j + 1..k + 1][..n] == times[j + 1..k] && marks[j + 1..k + 1][..n] == marks[j + 1..k];
  }

  lemma NoRadar(times: seq<nat>, marks: seq<bool>)
    requires |times| == |marks|
    ensures Radar(times, marks, 0) == []
  {
  }

  /** What is heard first stays a prefix. */
  lemma {:induction false} RadarGrows(times: seq<nat>, marks: seq<bool>, k: nat, n: nat)
    requires k <= n <= |times| == |marks|
    ensures Radar(times, marks, k) <= Radar(times, marks, n)
    ensures k < n && marks[n - 1] ==> |Radar(times, marks, k)| < |Radar(times, marks, n)|
    decreases n - k
  {
    if k < n {
      RadarGrows(times, marks, k, n - 1);
      RadarStep(times, marks, n - 1);
    }
  }

  /** The first pulse is the burst's, its second comes at position j, others between. */
  ghost predicate Opens(marks: seq<bool>, j: nat) {
    0 < j < |marks| && marks[0] && marks[j] && forall i :: 0 < i < j ==> !marks[i]
  }

  lemma {:induction false} OpeningRadar(times: seq<nat>, marks: seq<bool>, j: nat, k: nat)
    requires |times| == |marks| && Opens(marks, j) && 0 < k <= j
    ensures Radar(times, marks, k) == [times[0]]
    decreases k
  {
    RadarStep(times, marks, k - 1);
    if k == 1 {
      NoRadar(times, marks);
    } else {
      OpeningRadar(times, marks, j, k - 1);
    }
  }

  lemma OpenedRadar(times: seq<nat>, marks: seq<bool>, j: nat)
    requires |times| == |marks| && Opens(marks, j)
    ensures Radar(times, marks, j + 1) == [times[0], times[j]] && Noise(times, marks, j, j + 1) == []
  {
    OpeningRadar(times, marks, j, j);
    RadarStep(times, marks, j);
  }

  function FirstOf(times: seq<nat>): nat { if times == [] then 0 else times[0] }

  function LastOf(times: seq<nat>): nat { if times == [] then 0 else times[|times| - 1] }

  ghost predicate InOrder(times: seq<nat>) {
    forall i, j :: 0 <= i <= j < |times| ==> times[i] <= times[j]
  }

  /** A clean burst, marked, its second pulse at position j, with other pulses between its
      own: before the second too young to pair with the first and too few to push it out
      of the queue, after it none a whole number of intervals after the burst's last one. */
  ghost predicate NoisyBurst(p: Pattern, pri: nat, times: seq<nat>, marks: seq<bool>, j: nat) {
    && |times| == |marks| && Opens(marks, j) && marks[|marks| - 1]
    && InOrder(times) && times[|times| - 1] < TWO_64
    && CleanBurst(p, pri, Radar(times, marks, |times|))
    && j < 2 * p.ppb - 1 && (forall k :: 0 < k < j ==> times[k] - times[0] < p.priMin)
    && forall k :: j < k < |times| && !marks[k] ==> OffGrid(p, pri, times, marks, k)
  }

  ghost predicate OffGrid(p: Pattern, pri: nat, times: seq<nat>, marks: seq<bool>, k: nat)
    requires k < |times| == |marks|
  {
    !OnGrid(times[k] as int - LastOf(Radar(times, marks, k)), pri, p.tolerance)
  }

  /** The pulses of the stream, all of one width. */
  function Pulses(p: Pattern, times: seq<nat>, width: nat): (heard: seq<Pulse>)
    ensures |heard| == |times|
  {
    seq(|times|, i requires 0 <= i < |times| => Pulse(times[i], width, p.chirp))
  }

  lemma PulsesStep(p: Pattern, times: seq<nat>, k: nat, width: nat)
    requires k < |times|
    ensures Pulses(p, times[..k + 1], width) == Pulses(p, times[..k], width) + [Pulse(times[k], width, p.chirp)]
  {
  }

  // ----- trains through noise -----

  /** One of these positions is not marked. */
  ghost predicate Crosses(ids: seq<nat>, marks: seq<bool>) {
    exists j :: 0 <= j < |ids| && ids[j] < |marks| && !marks[ids[j]]
  }

  /** The sequence holds a pulse that is not the burst's. */
  ghost predicate ThroughNoise(p: Pattern, heard: seq<Pulse>, marks: seq<bool>, s: PriSequence) {
    exists t :: Backed(p, heard, s, t) && Crosses(t.ids, marks)
  }

  /** Enough pulses of the stream, one of them not the burst's, make a radar train. */
  ghost predicate RadarThroughNoise(p: Pattern, heard: seq<Pulse>, marks: seq<bool>) {
    exists s, t :: Backed(p, heard, s, t) && |t.ids| >= p.thresh && Crosses(t.ids, marks)
  }

  lemma CrossesMore(ids: seq<nat>, more: seq<nat>, marks: seq<bool>, mark: bool)
    requires Crosses(ids, marks) && ids <= more
    ensures Crosses(more, marks + [mark])
  {
    var j :| 0 <= j < |ids| && ids[j] < |marks| && !marks[ids[j]];
    assert more[j] == ids[j] && (marks + [mark])[ids[j]] == marks[ids[j]];
  }

  /** Pulses that are all the burst's are no more than the burst has. */
  lemma {:induction false} MarkedAreFew(ids: seq<nat>, times: seq<nat>, marks: seq<bool>, k: nat)
    requires k <= |times| == |marks| && Ascending(ids)
    requires forall j :: 0 <= j < |ids| ==> ids[j] < k && marks[ids[j]]
    ensures |ids| <= |Radar(times, marks, k)|
    decreases k
  {
    if ids != [] {
      var n := |ids| - 1;
      assert ids[n] < k;
      RadarStep(times, marks, k - 1);
      if ids[n] == k - 1 {
        MarkedAreFew(ids[..n], times, marks, k - 1);
      } else {
        MarkedAreFew(ids, times, marks, k - 1);
      }
    }
  }

  lemma BackedMore(p: Pattern, heard: seq<Pulse>, pulse: Pulse, s: PriSequence, t: Train)
    requires Backed(p, heard, s, t)
    ensures Backed(p, heard + [pulse], s, t)
  {
    HearMore(p, heard, pulse, t.ids, t.times);
    FalsesStay(p, heard, pulse, t.ids, s.falses);
  }

  /** A live sequence through noise stays one. */
  lemma ExtendStaysThrough(p: Pattern, heard: seq<Pulse>, pulse: Pulse, marks: seq<bool>, mark: bool, s: PriSequence)
    requires Usable(p) && Matches(p, pulse) && s.lastTs <= pulse.ts <= s.deadline
    requires ThroughNoise(p, heard, marks, s)
    ensures ThroughNoise(p, heard + [pulse], marks + [mark], Extend(p, s, pulse.ts))
  {
    var t :| Backed(p, heard, s, t) && Crosses(t.ids, marks);
    var t' := ExtendTrain(p, heard, pulse, s, t);
    CrossesMore(t.ids, t'.ids, marks, mark);
  }

  // ----- the sequences of one call -----

  lemma {:induction false} ExtendedIsHeld(p: Pattern, ss: seq<PriSequence>, ts: nat, i: nat)
    requires i < |ss| && ts <= ss[i].deadline
    ensures Extend(p, ss[i], ts) in ExtendAll(p, ss, ts)
  {
    if i > 0 {
      ExtendedIsHeld(p, ss[1..], ts, i - 1);
    }
  }

  lemma {:induction false} ExtendedFrom(p: Pattern, ss: seq<PriSequence>, ts: nat, s: PriSequence) returns (i: nat)
    requires s in ExtendAll(p, ss, ts)
    ensures i < |ss| && ts <= ss[i].deadline && s == Extend(p, ss[i], ts)
  {
    if ts <= ss[0].deadline && s == Extend(p, ss[0], ts) {
      i := 0;
    } else {
      i := ExtendedFrom(p, ss[1..], ts, s);
      i := i + 1;
    }
  }

  ghost predicate Longer(ss: seq<PriSequence>, n: nat) {
    forall i :: 0 <= i < |ss| ==> ss[i].count > n
  }

  /** A new sequence beats every one that grew, and there is at most one for each
      queued pulse. */
  lemma {:induction false} CreatedAreLonger(p: Pattern, ts: nat, minCount: nat, pulses: seq<nat>,
      made: seq<PriSequence>)
    requires p.ppb > 0 && Longer(made, minCount)
    ensures var created := CreateScan(p, ts, minCount, pulses, made);
            Longer(created, minCount) && |created| <= |made| + |pulses|
    decreases |pulses|
  {
    if pulses != [] {
      var c := Candidate(p, ts, pulses[0], pulses[1..]);
      CreatedAreLonger(p, ts, minCount, pulses[1..], made);
      if c.count > minCount {
        CreatedAreLonger(p, ts, minCount, pulses[1..], [c] + made);
      }
    }
  }

  lemma TrainIsHeard(p: Pattern, heard: seq<Pulse>, s: PriSequence, t: Train)
    requires Backed(p, heard, s, t)
    ensures |t.ids| == s.count >= 2 && Ascending(t.ids)
    ensures forall j :: 0 <= j < |t.ids| ==> t.ids[j] < |heard|
  {
    forall j | 0 <= j < |t.ids| ensures t.ids[j] < |heard| {
      assert Heard(p, heard, t.ids[j], t.times[j]);
    }
  }

  lemma ManyCross(ids: seq<nat>, times: seq<nat>, marks: seq<bool>, k: nat)
    requires k <= |times| == |marks| && Ascending(ids) && forall j :: 0 <= j < |ids| ==> ids[j] < k
    requires |ids| > |Radar(times, marks, k)|
    ensures Crosses(ids, marks[..k])
  {
    if forall j :: 0 <= j < |ids| ==> marks[ids[j]] {
      MarkedAreFew(ids, times, marks, k);
    } else {
      var j :| 0 <= j < |ids| && !marks[ids[j]];
      assert !marks[..k][ids[j]];
    }
  }

  lemma FewUncrossed(ids: seq<nat>, times: seq<nat>, marks: seq<bool>, k: nat)
    requires k <= |times| == |marks| && Ascending(ids) && forall j :: 0 <= j < |ids| ==> ids[j] < k
    requires !Crosses(ids, marks[..k])
    ensures |ids| <= |Radar(times, marks, k)| && forall j :: 0 <= j < |ids| ==> marks[ids[j]]
  {
    forall j | 0 <= j < |ids| ensures marks[ids[j]] {
      assert marks[..k][ids[j]] == marks[ids[j]];
    }
    MarkedAreFew(ids, times, marks, k);
  }

  /** A new sequence holds a pulse that is not the burst's: the new pulse itself, or, when
      that makes the burst's own sequence grow, one among more pulses than the burst has. */
  lemma CreatedThroughNoise(p: Pattern, heard: seq<Pulse>, times: seq<nat>, marks: seq<bool>, k: nat, c: PriSequence)
    requires k < |times| == |marks| && |heard| == k + 1
    requires HasFreshTrain(p, heard, c) && (marks[k] ==> c.count > |Radar(times, marks, k)| + 1)
    ensures ThroughNoise(p, heard, marks[..k + 1], c)
  {
    var t :| Backed(p, heard, c, t) && EndsNow(heard, t);
    TrainIsHeard(p, heard, c, t);
    if marks[k] {
      RadarStep(times, marks, k);
      ManyCross(t.ids, times, marks, k + 1);
    } else {
      assert !marks[..k + 1][t.ids[|t.ids| - 1]];
    }
  }

  // ----- the burst's own sequence -----

  /** The burst's sequence after k pulses: it counts the burst's, and the others since its
      second as false. */
  function Own(p: Pattern, pri: nat, times: seq<nat>, marks: seq<bool>, j: nat, k: nat): PriSequence
    requires p.ppb > 0 && j < k <= |times| == |marks|
  {
    var radar, dur := Radar(times, marks, k), Duration(p, pri);
    PriSequence(pri, dur, |radar|, |Noise(times, marks, j, k)|, FirstOf(radar), LastOf(radar), FirstOf(radar) + dur)
  }

  /** The burst's pulses so far are the first of the clean burst, and there is time left. */
  lemma BurstSoFar(p: Pattern, pri: nat, times: seq<nat>, marks: seq<bool>, j: nat, k: nat)
    requires NoisyBurst(p, pri, times, marks, j) && j < k <= |times|
    ensures var radar, all := Radar(times, marks, k), Radar(times, marks, |times|);
            && 2 <= |radar| <= |all| == p.thresh && radar <= all
            && radar[0] == times[0] && radar[|radar| - 1] <= times[k - 1]
            && (|radar| == p.thresh <==> k == |times|)
            && times[k - 1] <= times[0] + Duration(p, pri)
  {
    var n := |times|;
    OpenedRadar(times, marks, j);
    RadarGrows(times, marks, j + 1, k);
    RadarGrows(times, marks, k, n);
    LastIsBefore(times, marks, k);
    RadarStep(times, marks, n - 1);
    var all := Radar(times, marks, n);
    assert all[|all| - 1] == times[n - 1];
  }

  lemma {:induction false} LastIsBefore(times: seq<nat>, marks: seq<bool>, k: nat)
    requires 0 < k <= |times| == |marks| && InOrder(times) && Radar(times, marks, k) != []
    ensures var radar := Radar(times, marks, k); radar[|radar| - 1] <= times[k - 1]
  {
    RadarStep(times, marks, k - 1);
    if !marks[k - 1] {
      if k == 1 {
        NoRadar(times, marks);
      } else {
        LastIsBefore(times, marks, k - 1);
      }
    }
  }

  lemma NotNear(p: Pattern, s: PriSequence, ts: nat)
    requires s.lastTs <= ts && ts - s.lastTs < TWO_32 && !OnGrid(ts - s.lastTs, s.pri, p.tolerance)
    ensures Extend(p, s, ts) == s.(falses := s.falses + 1)
  {
    MultipleIsNear(ts - s.lastTs, s.pri, p.tolerance);
  }

  lemma IsNear(p: Pattern, s: PriSequence, ts: nat)
    requires s.pri > 0 && s.lastTs <= ts && ts - s.lastTs < TWO_32 && OnGrid(ts - s.lastTs, s.pri, p.tolerance)
    ensures Extend(p, s, ts) == s.(count := s.count + 1, lastTs := ts)
    ensures ts <= s.deadline ==> Grows(p, s, ts)
  {
    var gap := ts - s.lastTs;
    var j: nat :| j >= 1 && Near(gap, j, s.pri, p.tolerance);
    MultipleFindsOne(gap, s.pri, p.tolerance, j);
  }

  lemma OwnIsLive(p: Pattern, pri: nat, times: seq<nat>, marks: seq<bool>, j: nat, k: nat)
    requires Usable(p) && NoisyBurst(p, pri, times, marks, j) && j < k < |times|
    ensures Radar(times, marks, k) != []
    ensures var s := Own(p, pri, times, marks, j, k);
            s.pri > 0 && s.lastTs <= times[k] <= s.deadline && times[k] - s.lastTs < TWO_32
  {
    BurstSoFar(p, pri, times, marks, j, k);
    BurstSoFar(p, pri, times, marks, j, k + 1);
    BurstIsLong(p, pri, times, marks, j, k);
  }

  lemma BurstIsLong(p: Pattern, pri: nat, times: seq<nat>, marks: seq<bool>, j: nat, k: nat)
    requires Usable(p) && NoisyBurst(p, pri, times, marks, j) && j < k < |times|
    ensures pri > 0 && 0 <= Duration(p, pri) < TWO_32
    ensures Radar(times, marks, k) != [] && times[0] <= Radar(times, marks, k)[|Radar(times, marks, k)| - 1]
  {
    var all := Radar(times, marks, |times|);
    PriInRange(p, all[1] - all[0]);
    DurationFits(p, pri);
    BurstSoFar(p, pri, times, marks, j, k);
    BurstIsOrdered(p, pri, all, |Radar(times, marks, k)| - 1);
  }

  lemma OwnGrows(p: Pattern, pri: nat, times: seq<nat>, marks: seq<bool>, j: nat, k: nat)
    requires Usable(p) && NoisyBurst(p, pri, times, marks, j) && j < k < |times| && marks[k]
    ensures Radar(times, marks, k) != []
    ensures OnGrid(times[k] as int - Own(p, pri, times, marks, j, k).lastTs, pri, p.tolerance)
  {
    var radar, all := Radar(times, marks, k), Radar(times, marks, |times|);
    BurstSoFar(p, pri, times, marks, j, k);
    BurstSoFar(p, pri, times, marks, j, k + 1);
    RadarStep(times, marks, k);
    var n := |radar|;
    assert all[n - 1] == radar[n - 1];
    assert all[n] == Radar(times, marks, k + 1)[n] == times[k];
  }

  lemma OwnNext(p: Pattern, pri: nat, times: seq<nat>, marks: seq<bool>, j: nat, k: nat)
    requires p.ppb > 0 && j < k < |times| == |marks| && Radar(times, marks, k) != []
    ensures var s := Own(p, pri, times, marks, j, k);
            Own(p, pri, times, marks, j, k + 1)
            == if marks[k] then s.(count := s.count + 1, lastTs := times[k]) else s.(falses := s.falses + 1)
  {
    RadarStep(times, marks, k);
    NoiseStep(times, marks, j, k);
  }

  /** Each pulse is taken by the burst's own sequence as what it is. */
  lemma OwnStep(p: Pattern, pri: nat, times: seq<nat>, marks: seq<bool>, j: nat, k: nat)
    requires Usable(p) && NoisyBurst(p, pri, times, marks, j) && j < k < |times|
    ensures Radar(times, marks, k) != []
    ensures var s := Own(p, pri, times, marks, j, k);
            && s.lastTs <= times[k] <= s.deadline
            && Extend(p, s, times[k]) == Own(p, pri, times, marks, j, k + 1)
            && (marks[k] ==> Grows(p, s, times[k]))
  {
    OwnIsLive(p, pri, times, marks, j, k);
    OwnNext(p, pri, times, marks, j, k);
    if marks[k] {
      OwnGrows(p, pri, times, marks, j, k);
      IsNear(p, Own(p, pri, times, marks, j, k), times[k]);
    } else {
      assert OffGrid(p, pri, times, marks, k);
      NotNear(p, Own(p, pri, times, marks, j, k), times[k]);
    }
  }
}
