/** Which calls report a burst whose pulses come mixed with others, and inputs that show
    what the other pulses can do. */
module DfsReport {
  import opened CInt
  import opened DfsPattern
  import opened DfsScan
  import opened Optional
  import opened DfsSound
  import opened DfsBurst
  import opened DfsNoise
  import opened DfsComplete

  /** The call that hears the pulse at position k, after those before it. */
  function Call(p: Pattern, d: Detector, times: seq<nat>, k: nat, width: nat, m: Memory): (Detector,
      Option<PriSequence>)
    requires p.ppb > 0 && k < |times|
  {
    AddPulse(p, HearAll(p, d, times[..k], width, m), Pulse(times[k], width, p.chirp), m)
  }

  lemma BurstOpens(p: Pattern, pri: nat, times: seq<nat>, marks: seq<bool>, j: nat)
    requires NoisyBurst(p, pri, times, marks, j)
    ensures times[0] <= times[j] < TWO_64
    ensures p.priMin <= times[j] - times[0] <= p.priMax && pri == PriToUse(p, times[j] - times[0])
  {
    OpenedRadar(times, marks, j);
    RadarGrows(times, marks, j + 1, |times|);
    var first, all := Radar(times, marks, j + 1), Radar(times, marks, |times|);
    assert all[0] == first[0] && all[1] == first[1];
    assert times[j] <= times[|times| - 1];
  }

  lemma CallNext(p: Pattern, d: Detector, times: seq<nat>, k: nat, width: nat, m: Memory)
    requires p.ppb > 0 && 0 < k < |times|
    ensures Call(p, d, times, k, width, m)
         == AddPulse(p, Call(p, d, times, k - 1, width, m).0, Pulse(times[k], width, p.chirp), m)
  {
    HearNext(p, d, times, k - 1, width, m);
  }

  /** The pulses heard, their marks and the burst's sequence after k pulses. */
  ghost predicate Told(p: Pattern, pri: nat, times: seq<nat>, marks: seq<bool>, j: nat, k: nat, width: nat,
      heard: seq<Pulse>, before: seq<bool>, own: PriSequence)
    requires p.ppb > 0 && j < k <= |times| == |marks|
  {
    heard == Pulses(p, times[..k], width) && before == marks[..k] && own == Own(p, pri, times, marks, j, k)
  }

  /** What a call leaves and reports. */
  ghost predicate Leads(p: Pattern, heard: seq<Pulse>, before: seq<bool>, own: PriSequence, ts: nat, e: Detector,
      found: Option<PriSequence>)
  {
    Holds(p, heard, before, own, e) && e.lastTs == ts && found == FirstDetected(p, e.sequences)
  }

  lemma SecondLeads(p: Pattern, pri: nat, d: Detector, times: seq<nat>, marks: seq<bool>, j: nat, width: nat, m: Memory)
      returns (heard: seq<Pulse>, before: seq<bool>, own: PriSequence)
    requires Ready(p, d, times, width, m) && NoisyBurst(p, pri, times, marks, j)
    ensures Told(p, pri, times, marks, j, j + 1, width, heard, before, own)
    ensures var (e, found) := Call(p, d, times, j, width, m); Leads(p, heard, before, own, times[j], e, found)
  {
    OpeningHolds(p, pri, d, times, marks, j, j, width, m);
    BurstOpens(p, pri, times, marks, j);
    SecondPulseHolds(p, pri, Pulses(p, times[..j], width), HearAll(p, d, times[..j], width, m), times, marks, j,
      width, m);
    heard, before, own := Pulses(p, times[..j + 1], width), marks[..j + 1], Own(p, pri, times, marks, j, j + 1);
  }

  lemma NextLeads(p: Pattern, pri: nat, times: seq<nat>, marks: seq<bool>, j: nat, k: nat, width: nat, m: Memory,
      heard: seq<Pulse>, before: seq<bool>, own: PriSequence, e: Detector)
      returns (heard': seq<Pulse>, before': seq<bool>, own': PriSequence)
    requires Usable(p) && p.widthMin <= width <= p.widthMax && m.sequences >= 2 * p.ppb
    requires NoisyBurst(p, pri, times, marks, j) && j < k < |times|
    requires Told(p, pri, times, marks, j, k, width, heard, before, own)
    requires Holds(p, heard, before, own, e) && e.lastTs == times[k - 1]
    ensures Told(p, pri, times, marks, j, k + 1, width, heard', before', own')
    ensures var (e', found) := AddPulse(p, e, Pulse(times[k], width, p.chirp), m);
            Leads(p, heard', before', own', times[k], e', found)
  {
    NoisyPulse(p, pri, e, times, marks, j, k, width, m);
    heard', before', own' := Pulses(p, times[..k + 1], width), marks[..k + 1], Own(p, pri, times, marks, j, k + 1);
  }

  lemma {:induction false} EachLeads(p: Pattern, pri: nat, d: Detector, times: seq<nat>, marks: seq<bool>, j: nat,
      k: nat,
      width: nat, m: Memory) returns (heard: seq<Pulse>, before: seq<bool>, own: PriSequence)
    requires Ready(p, d, times, width, m) && NoisyBurst(p, pri, times, marks, j) && j <= k < |times|
    ensures Told(p, pri, times, marks, j, k + 1, width, heard, before, own)
    ensures var (e, found) := Call(p, d, times, k, width, m); Leads(p, heard, before, own, times[k], e, found)
    decreases k
  {
    if k == j {
      heard, before, own := SecondLeads(p, pri, d, times, marks, j, width, m);
    } else {
      heard, before, own := EachLeads(p, pri, d, times, marks, j, k - 1, width, m);
      CallNext(p, d, times, k, width, m);
      var e := Call(p, d, times, k - 1, width, m).0;
      heard, before, own := NextLeads(p, pri, times, marks, j, k, width, m, heard, before, own, e);
    }
  }

  /** What is found among known sequences is the burst's own or a radar through noise. */
  lemma FoundIsKnown(p: Pattern, heard: seq<Pulse>, marks: seq<bool>, own: PriSequence, ss: seq<PriSequence>)
    requires Usable(p) && AllKnown(p, heard, marks, own, ss) && own in ss
    ensures var found, enough := FirstDetected(p, ss), own.count >= p.thresh && own.count * p.priNum >= own.falses;
            && (enough ==> found.Some?)
            && (found.Some? && !enough ==> RadarThroughNoise(p, heard, marks))
  {
    var found := FirstDetected(p, ss);
    if found.None? {
      var i :| 0 <= i < |ss| && ss[i] == own;
      assert !Detects(p, ss[i]);
    } else if found.value != own {
      var i :| 0 <= i < |ss| && ss[i] == found.value;
      assert Known(p, heard, marks, own, ss[i]);
      var t :| Backed(p, heard, found.value, t) && Crosses(t.ids, marks);
      TrainIsHeard(p, heard, found.value, t);
    }
  }

  /** The pulses that are not the burst's and come after its second one. */
  function Others(times: seq<nat>, marks: seq<bool>, j: nat): seq<nat>
    requires j < |times| == |marks|
  {
    Part(times[j + 1..], marks[j + 1..], false)
  }

  lemma ReportedBefore(p: Pattern, pri: nat, d: Detector, times: seq<nat>, marks: seq<bool>, j: nat, k: nat,
      width: nat, m: Memory)
    requires Ready(p, d, times, width, m) && NoisyBurst(p, pri, times, marks, j) && k < j
    ensures Call(p, d, times, k, width, m).1 == None
  {
    OpeningHolds(p, pri, d, times, marks, j, k, width, m);
    OpeningAt(p, pri, d, times, marks, j, k, width, m);
  }

  lemma ReportedAfter(p: Pattern, pri: nat, d: Detector, times: seq<nat>, marks: seq<bool>, j: nat, k: nat,
      width: nat, m: Memory)
    requires Ready(p, d, times, width, m) && NoisyBurst(p, pri, times, marks, j) && j <= k < |times|
    ensures var found, own := Call(p, d, times, k, width, m).1, Own(p, pri, times, marks, j, k + 1);
            var enough := own.count >= p.thresh && own.count * p.priNum >= own.falses;
            && (enough ==> found.Some?)
            && (found.Some? && !enough ==> RadarThroughNoise(p, Pulses(p, times[..k + 1], width), marks[..k + 1]))
  {
    var heard, before, own := EachLeads(p, pri, d, times, marks, j, k, width, m);
    FoundIsKnown(p, heard, before, own, Call(p, d, times, k, width, m).0.sequences);
  }

  lemma OwnIsEnough(p: Pattern, pri: nat, times: seq<nat>, marks: seq<bool>, j: nat, k: nat)
    requires p.ppb > 0 && NoisyBurst(p, pri, times, marks, j) && j <= k < |times|
    ensures var own := Own(p, pri, times, marks, j, k + 1);
            own.count >= p.thresh && own.count * p.priNum >= own.falses <==>
              k + 1 == |times| && |Others(times, marks, j)| <= p.thresh * p.priNum
  {
    BurstSoFar(p, pri, times, marks, j, k + 1);
    if k + 1 == |times| {
      assert times[j + 1..k + 1] == times[j + 1..] && marks[j + 1..k + 1] == marks[j + 1..];
    }
  }

  /** Completeness under noise: the last pulse of the burst is reported when no more than
      thresh * priNum others came after its second one, whatever else they form. Any other
      report, an earlier one or one over that noise, is of a radar train that some of the
      others belong to. */
  lemma NoisyBurstIsReported(p: Pattern, pri: nat, d: Detector, times: seq<nat>, marks: seq<bool>, j: nat, k: nat,
      width: nat, m: Memory)
    requires Ready(p, d, times, width, m) && NoisyBurst(p, pri, times, marks, j) && k < |times|
    ensures var found := Call(p, d, times, k, width, m).1;
            var enough := k + 1 == |times| && |Others(times, marks, j)| <= p.thresh * p.priNum;
            && (enough ==> found.Some?)
            && (found.Some? && !enough ==> RadarThroughNoise(p, Pulses(p, times[..k + 1], width), marks[..k + 1]))
  {
    if k < j {
      ReportedBefore(p, pri, d, times, marks, j, k, width, m);
    } else {
      ReportedAfter(p, pri, d, times, marks, j, k, width, m);
      OwnIsEnough(p, pri, times, marks, j, k);
    }
  }

  lemma {:induction false} BackedStays(p: Pattern, times: seq<nat>, width: nat, k: nat, n: nat, s: PriSequence,
      t: Train)
    requires k <= n <= |times| && Backed(p, Pulses(p, times[..k], width), s, t)
    ensures Backed(p, Pulses(p, times[..n], width), s, t)
    decreases n - k
  {
    if k < n {
      BackedStays(p, times, width, k, n - 1, s, t);
      PulsesStep(p, times, n - 1, width);
      BackedMore(p, Pulses(p, times[..n - 1], width), Pulse(times[n - 1], width, p.chirp), s, t);
    }
  }

  /** A radar among the first pulses is one among all. */
  lemma RadarStays(p: Pattern, times: seq<nat>, marks: seq<bool>, width: nat, k: nat)
    requires k <= |times| == |marks|
    requires RadarThroughNoise(p, Pulses(p, times[..k], width), marks[..k])
    ensures RadarThroughNoise(p, Pulses(p, times, width), marks)
  {
    var s, t :| Backed(p, Pulses(p, times[..k], width), s, t) && |t.ids| >= p.thresh && Crosses(t.ids, marks[..k]);
    BackedStays(p, times, width, k, |times|, s, t);
    assert times[..|times|] == times;
    var i :| 0 <= i < |t.ids| && t.ids[i] < k && !marks[..k][t.ids[i]];
    assert !marks[t.ids[i]];
  }

  lemma NoRadarBefore(p: Pattern, times: seq<nat>, marks: seq<bool>, width: nat, k: nat)
    requires k <= |times| == |marks| && !RadarThroughNoise(p, Pulses(p, times, width), marks)
    ensures !RadarThroughNoise(p, Pulses(p, times[..k], width), marks[..k])
  {
    if RadarThroughNoise(p, Pulses(p, times[..k], width), marks[..k]) {
      RadarStays(p, times, marks, width, k);
    }
  }

  /** So unless the other pulses take part in a radar of their own, the burst is reported
      at its last pulse, and nothing before it, exactly when no more than thresh * priNum
      of them came after its second pulse. */
  lemma NoisyBurstExactly(p: Pattern, pri: nat, d: Detector, times: seq<nat>, marks: seq<bool>, j: nat, k: nat,
      width: nat, m: Memory)
    requires Ready(p, d, times, width, m) && NoisyBurst(p, pri, times, marks, j) && k < |times|
    requires !RadarThroughNoise(p, Pulses(p, times, width), marks)
    ensures Call(p, d, times, k, width, m).1.Some? <==>
      k + 1 == |times| && |Others(times, marks, j)| <= p.thresh * p.priNum
  {
    NoRadarBefore(p, times, marks, width, k + 1);
    NoisyBurstIsReported(p, pri, d, times, marks, j, k, width, m);
  }

  // ----- noise that cannot be part of a radar -----

  /** No allowed interval fits between the two a whole number of times. */
  ghost predicate NoInterval(p: Pattern, gap: int) {
    forall n: nat, pri: nat :: n >= 1 && p.priMin <= pri <= p.priMax ==> !Near(gap, n, pri, p.tolerance)
  }

  /** Each pulse that is not the burst's is apart from every other pulse. */
  ghost predicate Apart(p: Pattern, times: seq<nat>, marks: seq<bool>)
    requires |times| == |marks|
  {
    forall i, k :: 0 <= i < k < |times| && !(marks[i] && marks[k]) ==> NoInterval(p, times[k] as int - times[i])
  }

  lemma HasInterval(p: Pattern, gap: int, n: nat, pri: nat)
    requires n >= 1 && p.priMin <= pri <= p.priMax && Near(gap, n, pri, p.tolerance)
    ensures !NoInterval(p, gap)
  {
  }

  lemma OlderNeighbour(p: Pattern, s: PriSequence, t: Train, i: nat)
    requires Shape(s, p.tolerance, t.times, t.factors) && p.priMin <= s.pri <= p.priMax && i < |t.factors|
    ensures !NoInterval(p, t.times[|t.factors|] as int - t.times[i])
  {
    var n := |t.factors|;
    assert t.times[..n][i] == t.times[i];
    HasInterval(p, t.times[n] as int - t.times[i], t.factors[i], s.pri);
  }

  lemma LaterNeighbour(p: Pattern, s: PriSequence, t: Train, i: nat)
    requires Shape(s, p.tolerance, t.times, t.factors) && p.priMin <= s.pri <= p.priMax && |t.factors| < i < |t.times|
    ensures !NoInterval(p, t.times[i] as int - t.times[i - 1])
  {
    var n := |t.factors|;
    var later := t.times[n..];
    assert later[i - n] == t.times[i] && later[i - 1 - n] == t.times[i - 1];
    var k: nat :| k >= 1 && Near(t.times[i] as int - t.times[i - 1], k, s.pri, p.tolerance);
    HasInterval(p, t.times[i] as int - t.times[i - 1], k, s.pri);
  }

  /** Each pulse of a train is a whole number of intervals from another. */
  lemma TrainNeighbour(p: Pattern, heard: seq<Pulse>, s: PriSequence, t: Train, i: nat) returns (a: nat, b: nat)
    requires Backed(p, heard, s, t) && i < |t.ids|
    ensures a < b < |t.ids| == |t.times| && (i == a || i == b) && !NoInterval(p, t.times[b] as int - t.times[a])
  {
    var n := |t.factors|;
    if i < n {
      a, b := i, n;
      OlderNeighbour(p, s, t, i);
    } else if i == n {
      a, b := n - 1, n;
      OlderNeighbour(p, s, t, n - 1);
    } else {
      a, b := i - 1, i;
      LaterNeighbour(p, s, t, i);
    }
  }

  /** So no train holds a pulse that is apart. */
  lemma ApartIsUncrossed(p: Pattern, times: seq<nat>, marks: seq<bool>, width: nat, s: PriSequence, t: Train, i: nat)
    requires |times| == |marks| && Apart(p, times, marks)
    requires Backed(p, Pulses(p, times, width), s, t) && i < |t.ids|
    ensures t.ids[i] < |marks| && marks[t.ids[i]]
  {
    var a, b := TrainNeighbour(p, Pulses(p, times, width), s, t, i);
    assert Heard(p, Pulses(p, times, width), t.ids[a], t.times[a]);
    assert Heard(p, Pulses(p, times, width), t.ids[b], t.times[b]);
    assert t.ids[a] < t.ids[b];
    assert !NoInterval(p, times[t.ids[b]] as int - times[t.ids[a]]);
  }

  lemma ApartIsNoRadar(p: Pattern, times: seq<nat>, marks: seq<bool>, width: nat)
    requires |times| == |marks| && Apart(p, times, marks)
    ensures !RadarThroughNoise(p, Pulses(p, times, width), marks)
  {
    forall s, t | Backed(p, Pulses(p, times, width), s, t) ensures !Crosses(t.ids, marks) {
      forall i | 0 <= i < |t.ids| ensures t.ids[i] < |marks| && marks[t.ids[i]] {
        ApartIsUncrossed(p, times, marks, width, s, t, i);
      }
    }
  }

  /** The burst among pulses apart from all others. */
  lemma ApartNoiseExactly(p: Pattern, pri: nat, d: Detector, times: seq<nat>, marks: seq<bool>, j: nat, k: nat,
      width: nat, m: Memory)
    requires Ready(p, d, times, width, m) && NoisyBurst(p, pri, times, marks, j) && k < |times|
    requires Apart(p, times, marks)
    ensures Call(p, d, times, k, width, m).1.Some? <==>
      k + 1 == |times| && |Others(times, marks, j)| <= p.thresh * p.priNum
  {
    ApartIsNoRadar(p, times, marks, width);
    NoisyBurstExactly(p, pri, d, times, marks, j, k, width, m);
  }
}
