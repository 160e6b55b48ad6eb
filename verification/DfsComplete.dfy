/** The detector over a stream in which a burst's pulses come mixed with others: what
    each of its sequences holds, and which of the reports are the burst's. */
module DfsComplete {
  import opened CInt
  import opened DfsPattern
  import opened DfsScan
  import opened Optional
  import opened DfsSound
  import opened DfsBurst
  import opened DfsNoise

  /** A sequence is the burst's own, can never grow, or holds a pulse that is not the
      burst's. */
  ghost predicate Known(p: Pattern, heard: seq<Pulse>, marks: seq<bool>, own: PriSequence, s: PriSequence) {
    s == own || Stillborn(s) || ThroughNoise(p, heard, marks, s)
  }

  ghost predicate AllKnown(p: Pattern, heard: seq<Pulse>, marks: seq<bool>, own: PriSequence, ss: seq<PriSequence>) {
    forall i :: 0 <= i < |ss| ==> Known(p, heard, marks, own, ss[i])
  }

  /** A sound detector that holds this sequence and knows every other. */
  ghost predicate Holds(p: Pattern, heard: seq<Pulse>, marks: seq<bool>, own: PriSequence, e: Detector) {
    Sound(p, heard, e) && own in e.sequences && AllKnown(p, heard, marks, own, e.sequences)
  }

  lemma KeptAreKnown(p: Pattern, heard: seq<Pulse>, pulse: Pulse, marks: seq<bool>, mark: bool, own: PriSequence,
      ss: seq<PriSequence>, lastTs: nat)
    requires Usable(p) && Matches(p, pulse) && AllSound(p, heard, ss, lastTs) && lastTs <= pulse.ts
    requires AllKnown(p, heard, marks, own, ss)
    ensures AllKnown(p, heard + [pulse], marks + [mark], Extend(p, own, pulse.ts), ExtendAll(p, ss, pulse.ts))
  {
    var kept := ExtendAll(p, ss, pulse.ts);
    forall k | 0 <= k < |kept|
      ensures Known(p, heard + [pulse], marks + [mark], Extend(p, own, pulse.ts), kept[k])
    {
      var i := ExtendedFrom(p, ss, pulse.ts, kept[k]);
      assert SequenceSound(p, heard, ss[i], lastTs) && Known(p, heard, marks, own, ss[i]);
      if ss[i] != own {
        ExtendStaysThrough(p, heard, pulse, marks, mark, ss[i]);
      }
    }
  }

  lemma CreatedAreKnown(p: Pattern, heard: seq<Pulse>, times: seq<nat>, marks: seq<bool>, k: nat, own: PriSequence,
      created: seq<PriSequence>, minCount: nat, lastTs: nat)
    requires k < |times| == |marks| && |heard| == k + 1
    requires AllFresh(p, heard, created, lastTs) && Longer(created, minCount)
    requires marks[k] ==> minCount >= |Radar(times, marks, k)| + 1 >= 3
    ensures AllKnown(p, heard, marks[..k + 1], own, created)
  {
    forall i | 0 <= i < |created| ensures Known(p, heard, marks[..k + 1], own, created[i]) {
      if !Stillborn(created[i]) {
        CreatedThroughNoise(p, heard, times, marks, k, created[i]);
      }
    }
  }

  /** A live sequence is kept, and when it grows it sets the count to beat. */
  lemma OwnIsKept(p: Pattern, ss: seq<PriSequence>, own: PriSequence, ts: nat)
    requires own in ss && ts <= own.deadline
    ensures Extend(p, own, ts) in ExtendAll(p, ss, ts)
    ensures Grows(p, own, ts) ==> LargestGrown(p, ss, ts) >= own.count + 1
  {
    var i :| 0 <= i < |ss| && ss[i] == own;
    ExtendedIsHeld(p, ss, ts, i);
    if Grows(p, own, ts) {
      LargestGrownBounds(p, ss, ts, i);
    }
  }

  /** What a later pulse creates. */
  lemma NoisyCreated(p: Pattern, heard: seq<Pulse>, e: Detector, times: seq<nat>, marks: seq<bool>, k: nat,
      pulse: Pulse, own: PriSequence)
    requires Usable(p) && Matches(p, pulse) && k < |times| == |marks|
    requires |heard| == k && pulse.ts < TWO_64 && e.lastTs <= pulse.ts && QueueSound(p, heard, e.pulses, e.lastTs)
    requires marks[k] ==> LargestGrown(p, e.sequences, pulse.ts) >= |Radar(times, marks, k)| + 1 >= 3
    ensures var created := CreateScan(p, pulse.ts, LargestGrown(p, e.sequences, pulse.ts), e.pulses, []);
            |created| < 2 * p.ppb && AllKnown(p, heard + [pulse], marks[..k + 1], own, created)
  {
    var minCount := LargestGrown(p, e.sequences, pulse.ts);
    var created := CreateScan(p, pulse.ts, minCount, e.pulses, []);
    CreatedAreLonger(p, pulse.ts, minCount, e.pulses, []);
    var ids :| QueueHeard(p, heard, e.pulses, ids);
    CreateScanIsSound(p, heard, pulse, minCount, e.pulses, ids, []);
    CreatedAreKnown(p, heard + [pulse], times, marks, k, own, created, minCount, pulse.ts);
  }

  lemma BothKnown(p: Pattern, heard: seq<Pulse>, marks: seq<bool>, own: PriSequence, a: seq<PriSequence>,
      b: seq<PriSequence>)
    requires AllKnown(p, heard, marks, own, a) && AllKnown(p, heard, marks, own, b) && (own in a || own in b)
    ensures AllKnown(p, heard, marks, own, a + b) && own in a + b
  {
  }

  /** A call that knows what it creates keeps knowing all it holds. */
  lemma AddKnown(p: Pattern, heard: seq<Pulse>, marks: seq<bool>, mark: bool, own: PriSequence, e: Detector,
      pulse: Pulse, m: Memory)
    requires Usable(p) && Matches(p, pulse) && Timely(p, e.lastTs, pulse) && Holds(p, heard, marks, own, e)
    requires Extend(p, own, pulse.ts) in ExtendAll(p, e.sequences, pulse.ts)
    requires var created := CreateScan(p, pulse.ts, LargestGrown(p, e.sequences, pulse.ts), e.pulses, []);
             && |created| <= m.sequences
             && AllKnown(p, heard + [pulse], marks + [mark], Extend(p, own, pulse.ts), created)
    ensures var (e', found) := AddPulse(p, e, pulse, m);
            && Holds(p, heard + [pulse], marks + [mark], Extend(p, own, pulse.ts), e')
            && e'.lastTs == pulse.ts && found == FirstDetected(p, e'.sequences)
  {
    KeptAreKnown(p, heard, pulse, marks, mark, own, e.sequences, e.lastTs);
    BothKnown(p, heard + [pulse], marks + [mark], Extend(p, own, pulse.ts),
              CreateScan(p, pulse.ts, LargestGrown(p, e.sequences, pulse.ts), e.pulses, []),
              ExtendAll(p, e.sequences, pulse.ts));
    AddPulseKeepsSound(p, heard, e, pulse, m);
  }

  /** One more pulse, taken by the burst's sequence, which grows with the burst. */
  lemma TakenPulse(p: Pattern, heard: seq<Pulse>, times: seq<nat>, marks: seq<bool>, k: nat, own: PriSequence,
      e: Detector, pulse: Pulse, m: Memory)
    requires Usable(p) && Matches(p, pulse) && Timely(p, e.lastTs, pulse) && m.sequences >= 2 * p.ppb
    requires k < |times| == |marks| && |heard| == k && Holds(p, heard, marks[..k], own, e)
    requires pulse.ts <= own.deadline
    requires marks[k] ==> Grows(p, own, pulse.ts) && own.count == |Radar(times, marks, k)| >= 2
    ensures var (e', found) := AddPulse(p, e, pulse, m);
            && Holds(p, heard + [pulse], marks[..k + 1], Extend(p, own, pulse.ts), e')
            && e'.lastTs == pulse.ts && found == FirstDetected(p, e'.sequences)
  {
    assert marks[..k + 1] == marks[..k] + [marks[k]];
    OwnIsKept(p, e.sequences, own, pulse.ts);
    NoisyCreated(p, heard, e, times, marks, k, pulse, Extend(p, own, pulse.ts));
    AddKnown(p, heard, marks[..k], marks[k], own, e, pulse, m);
  }

  /** The detector after k pulses of the stream, the burst's second among them. */
  ghost predicate After(p: Pattern, pri: nat, e: Detector, times: seq<nat>, marks: seq<bool>, j: nat, k: nat,
      width: nat)
    requires p.ppb > 0 && j < k <= |times| == |marks|
  {
    Holds(p, Pulses(p, times[..k], width), marks[..k], Own(p, pri, times, marks, j, k), e) && e.lastTs == times[k - 1]
  }

  /** One more pulse of the stream, and what it reports. */
  lemma NoisyPulse(p: Pattern, pri: nat, e: Detector, times: seq<nat>, marks: seq<bool>, j: nat, k: nat, width: nat,
      m: Memory)
    requires Usable(p) && p.widthMin <= width <= p.widthMax && m.sequences >= 2 * p.ppb
    requires NoisyBurst(p, pri, times, marks, j) && j < k < |times| && After(p, pri, e, times, marks, j, k, width)
    ensures var (e', found) := AddPulse(p, e, Pulse(times[k], width, p.chirp), m);
            After(p, pri, e', times, marks, j, k + 1, width) && found == FirstDetected(p, e'.sequences)
  {
    PulsesStep(p, times, k, width);
    OwnStep(p, pri, times, marks, j, k);
    BurstSoFar(p, pri, times, marks, j, k);
    assert times[k - 1] <= times[k] <= times[|times| - 1];
    TakenPulse(p, Pulses(p, times[..k], width), times, marks, k, Own(p, pri, times, marks, j, k), e,
               Pulse(times[k], width, p.chirp), m);
  }

  // ----- up to the second pulse of the burst -----

  /** An empty detector that can allocate. */
  ghost predicate Ready(p: Pattern, d: Detector, times: seq<nat>, width: nat, m: Memory) {
    && Usable(p) && p.widthMin <= width <= p.widthMax && m.sequences >= 2 * p.ppb && m.element
    && d.pulses == [] && d.sequences == [] && d.lastTs <= FirstOf(times)
  }

  /** The queue holds the first k stamps, newest first. */
  ghost predicate Queued(pulses: seq<nat>, times: seq<nat>, k: nat)
    requires k <= |times|
  {
    |pulses| == k && forall i :: 0 <= i < k ==> pulses[i] == times[k - 1 - i]
  }

  /** A detector that has queued all k stamps and made nothing of them. */
  ghost predicate Opening(p: Pattern, heard: seq<Pulse>, e: Detector, times: seq<nat>, k: nat)
    requires k <= |times|
  {
    && Sound(p, heard, e) && e.sequences == [] && Queued(e.pulses, times, k)
    && (k > 0 ==> e.lastTs == times[k - 1])
  }

  lemma {:induction false} TooYoung(p: Pattern, ts: nat, minCount: nat, pulses: seq<nat>, made: seq<PriSequence>)
    requires p.ppb > 0 && p.priMin < TWO_32 && forall i :: 0 <= i < |pulses| ==> 0 <= ts - pulses[i] < p.priMin
    ensures CreateScan(p, ts, minCount, pulses, made) == made
    decreases |pulses|
  {
    if pulses != [] {
      assert 0 <= ts - pulses[0] < p.priMin;
      TooYoung(p, ts, minCount, pulses[1..], made);
    }
  }

  lemma WholeQueue(p: Pattern, pulses: seq<nat>, ts: nat)
    requires Usable(p) && |pulses| + 1 < 2 * p.ppb && forall i :: 0 <= i < |pulses| ==> 0 <= ts - pulses[i] < p.priMin
    ensures Enqueue(p, pulses, ts) == [ts] + pulses
  {
    EnqueueDropsNoMore(p, pulses, ts);
    WindowIsWide(p);
  }

  lemma WindowIsWide(p: Pattern)
    requires Usable(p)
    ensures p.priMax * p.ppb * p.priNum >= p.priMax
  {
    MultipleOrder(1, p.ppb, p.priMax);
    assert p.priMax * p.ppb >= p.priMax;
    MultipleOrder(1, p.priNum, p.priMax * p.ppb);
  }

  /** A pulse among young ones is queued and creates nothing. */
  lemma YoungPulse(p: Pattern, e: Detector, ts: nat, width: nat, m: Memory)
    requires Usable(p) && p.widthMin <= width <= p.widthMax && m.element && e.sequences == []
    requires |e.pulses| + 1 < 2 * p.ppb && forall i :: 0 <= i < |e.pulses| ==> 0 <= ts - e.pulses[i] < p.priMin
    ensures !OutOfMemory(p, e, Pulse(ts, width, p.chirp), m)
    ensures AddPulse(p, e, Pulse(ts, width, p.chirp), m) == (Detector(ts, [ts] + e.pulses, []), None)
  {
    assert LargestGrown(p, [], ts) == 0 && ExtendAll(p, [], ts) == [];
    TooYoung(p, ts, 0, e.pulses, []);
    WholeQueue(p, e.pulses, ts);
    assert FirstDetected(p, []) == None;
  }

  lemma OpeningYoung(p: Pattern, pri: nat, times: seq<nat>, marks: seq<bool>, j: nat, k: nat, pulses: seq<nat>)
    requires NoisyBurst(p, pri, times, marks, j) && k < j && Queued(pulses, times, k)
    ensures times[k] < TWO_64 && (k > 0 ==> times[k - 1] <= times[k])
    ensures |pulses| + 1 < 2 * p.ppb && forall i :: 0 <= i < |pulses| ==> 0 <= times[k] - pulses[i] < p.priMin
  {
    assert times[k] <= times[|times| - 1];
    forall i | 0 <= i < |pulses| ensures 0 <= times[k] - pulses[i] < p.priMin {
      assert times[0] <= times[k - 1 - i] <= times[k];
    }
  }

  lemma OpeningNext(p: Pattern, heard: seq<Pulse>, e: Detector, times: seq<nat>, k: nat, width: nat, m: Memory)
    requires Usable(p) && p.widthMin <= width <= p.widthMax && m.element && k < |times| && times[k] < TWO_64
    requires Opening(p, heard, e, times, k) && e.lastTs <= times[k] && k + 1 < 2 * p.ppb
    requires forall i :: 0 <= i < |e.pulses| ==> 0 <= times[k] - e.pulses[i] < p.priMin
    ensures var (e', found) := AddPulse(p, e, Pulse(times[k], width, p.chirp), m);
            && Opening(p, heard + [Pulse(times[k], width, p.chirp)], e', times, k + 1) && found == None
  {
    YoungPulse(p, e, times[k], width, m);
    AddPulseKeepsSound(p, heard, e, Pulse(times[k], width, p.chirp), m);
  }

  lemma OpeningAt(p: Pattern, pri: nat, d: Detector, times: seq<nat>, marks: seq<bool>, j: nat, k: nat, width: nat,
      m: Memory)
    requires Ready(p, d, times, width, m) && NoisyBurst(p, pri, times, marks, j) && k < j
    requires Opening(p, Pulses(p, times[..k], width), HearAll(p, d, times[..k], width, m), times, k)
    requires HearAll(p, d, times[..k], width, m).lastTs <= times[k]
    ensures var (e, found) := AddPulse(p, HearAll(p, d, times[..k], width, m), Pulse(times[k], width, p.chirp), m);
            && Opening(p, Pulses(p, times[..k + 1], width), e, times, k + 1) && found == None
  {
    var e := HearAll(p, d, times[..k], width, m);
    OpeningYoung(p, pri, times, marks, j, k, e.pulses);
    OpeningNext(p, Pulses(p, times[..k], width), e, times, k, width, m);
    PulsesStep(p, times, k, width);
  }

  lemma {:induction false} OpeningHolds(p: Pattern, pri: nat, d: Detector, times: seq<nat>, marks: seq<bool>, j: nat,
      k: nat, width: nat, m: Memory)
    requires Ready(p, d, times, width, m) && NoisyBurst(p, pri, times, marks, j) && k <= j
    ensures Opening(p, Pulses(p, times[..k], width), HearAll(p, d, times[..k], width, m), times, k)
    ensures HearAll(p, d, times[..k], width, m).lastTs <= times[k]
    decreases k
  {
    if k == 0 {
      assert times[..0] == [] && QueueHeard(p, [], [], []);
    } else {
      OpeningHolds(p, pri, d, times, marks, j, k - 1, width, m);
      OpeningAt(p, pri, d, times, marks, j, k - 1, width, m);
      HearNext(p, d, times, k - 1, width, m);
      assert times[k - 1] <= times[k];
    }
  }

  /** The scan reaches the oldest pulse, and makes a pair of it and the new one. */
  lemma {:induction false} PairIsCreated(p: Pattern, ts: nat, pulses: seq<nat>, made: seq<PriSequence>)
    requires p.ppb > 0 && p.priMax < TWO_32 && pulses != []
    requires forall i :: 0 <= i < |pulses| ==> 0 <= ts - pulses[i] <= p.priMax
    requires ts - LastOf(pulses) >= p.priMin
    ensures Pair(p, PriToUse(p, ts - LastOf(pulses)), LastOf(pulses), ts) in CreateScan(p, ts, 0, pulses, made)
    decreases |pulses|
  {
    assert 0 <= ts - pulses[0] <= p.priMax;
    var c := Candidate(p, ts, pulses[0], pulses[1..]);
    if |pulses| == 1 {
      assert pulses[1..] == [];
      PairCandidate(p, pulses[0], ts);
      assert CreateScan(p, ts, 0, pulses, made) == [c] + made;
    } else {
      PairIsCreated(p, ts, pulses[1..], if ts - pulses[0] < p.priMin || c.count == 0 then made else [c] + made);
    }
  }

  lemma {:induction false} CreatedFrom(p: Pattern, ts: nat, minCount: nat, pulses: seq<nat>, made: seq<PriSequence>,
      c: PriSequence) returns (i: nat)
    requires p.ppb > 0 && c in CreateScan(p, ts, minCount, pulses, made) && c !in made
    ensures i < |pulses| && c == Candidate(p, ts, pulses[i], pulses[i + 1..])
    decreases |pulses|
  {
    var c0 := Candidate(p, ts, pulses[0], pulses[1..]);
    if c == c0 {
      i := 0;
    } else {
      var next := if U32(ts - pulses[0]) < p.priMin || c0.count <= minCount then made else [c0] + made;
      i := CreatedFrom(p, ts, minCount, pulses[1..], next, c);
      assert pulses[1..][i + 1..] == pulses[i + 2..];
      i := i + 1;
    }
  }

  /** A train of the burst's pulses alone is the pair. */
  lemma OnlyThePair(p: Pattern, times: seq<nat>, marks: seq<bool>, j: nat, width: nat, c: PriSequence, t: Train)
    requires j < |times| == |marks| && Opens(marks, j)
    requires Backed(p, Pulses(p, times[..j + 1], width), c, t) && !Crosses(t.ids, marks[..j + 1])
    ensures c.count == 2 && c.firstTs == times[0]
  {
    var heard := Pulses(p, times[..j + 1], width);
    TrainIsHeard(p, heard, c, t);
    OpenedRadar(times, marks, j);
    FewUncrossed(t.ids, times, marks, j + 1);
    assert t.ids[0] < t.ids[1] && marks[t.ids[0]];
    assert Heard(p, heard, t.ids[0], t.times[0]);
  }

  /** What the burst's second pulse creates: its pair, and sequences through noise. */
  lemma SecondCreates(p: Pattern, times: seq<nat>, marks: seq<bool>, j: nat, width: nat, pulses: seq<nat>,
      own: PriSequence, c: PriSequence)
    requires p.ppb > 0 && j < |times| == |marks| && Opens(marks, j) && times[0] <= times[j]
    requires own == Pair(p, PriToUse(p, times[j] - times[0]), times[0], times[j])
    requires c in CreateScan(p, times[j], 0, pulses, []) && HasFreshTrain(p, Pulses(p, times[..j + 1], width), c)
    ensures c == own || ThroughNoise(p, Pulses(p, times[..j + 1], width), marks[..j + 1], c)
  {
    var t :| Backed(p, Pulses(p, times[..j + 1], width), c, t);
    if !Crosses(t.ids, marks[..j + 1]) {
      OnlyThePair(p, times, marks, j, width, c, t);
      var i := CreatedFrom(p, times[j], 0, pulses, [], c);
      var n := CandidateExactly(p, times[j], pulses[i], pulses[i + 1..]);
    }
  }

  lemma SecondIsKnown(p: Pattern, times: seq<nat>, marks: seq<bool>, j: nat, width: nat, pulses: seq<nat>,
      own: PriSequence)
    requires p.ppb > 0 && j < |times| == |marks| && Opens(marks, j) && times[0] <= times[j]
    requires own == Pair(p, PriToUse(p, times[j] - times[0]), times[0], times[j])
    requires AllFresh(p, Pulses(p, times[..j + 1], width), CreateScan(p, times[j], 0, pulses, []), times[j])
    ensures AllKnown(p, Pulses(p, times[..j + 1], width), marks[..j + 1], own, CreateScan(p, times[j], 0, pulses, []))
  {
    var heard, created := Pulses(p, times[..j + 1], width), CreateScan(p, times[j], 0, pulses, []);
    forall i | 0 <= i < |created| ensures Known(p, heard, marks[..j + 1], own, created[i]) {
      if !Stillborn(created[i]) {
        SecondCreates(p, times, marks, j, width, pulses, own, created[i]);
      }
    }
  }

  lemma QueueAges(p: Pattern, pulses: seq<nat>, times: seq<nat>, j: nat)
    requires 0 < j < |times| && InOrder(times) && Queued(pulses, times, j) && times[j] - times[0] <= p.priMax
    ensures pulses != [] && LastOf(pulses) == times[0] && NotAfter(pulses, times[j])
    ensures forall i :: 0 <= i < |pulses| ==> 0 <= times[j] - pulses[i] <= p.priMax
  {
    forall i | 0 <= i < |pulses| ensures times[0] <= pulses[i] <= times[j] {
      assert pulses[i] == times[j - 1 - i];
    }
  }

  lemma SecondIsMade(p: Pattern, e: Detector, times: seq<nat>, j: nat, own: PriSequence)
    requires Usable(p) && 0 < j < |times| && InOrder(times) && times[0] <= times[j] && Queued(e.pulses, times, j)
    requires p.priMin <= times[j] - times[0] <= p.priMax
    requires own == Pair(p, PriToUse(p, times[j] - times[0]), times[0], times[j])
    ensures var created := CreateScan(p, times[j], 0, e.pulses, []); own in created && |created| <= j
  {
    QueueAges(p, e.pulses, times, j);
    PairIsCreated(p, times[j], e.pulses, []);
    CreatedAreLonger(p, times[j], 0, e.pulses, []);
  }

  lemma SecondCreated(p: Pattern, heard: seq<Pulse>, e: Detector, times: seq<nat>, marks: seq<bool>, j: nat,
      width: nat, own: PriSequence)
    requires Usable(p) && p.widthMin <= width <= p.widthMax
    requires j < |times| == |marks| && Opens(marks, j) && times[j] < TWO_64 && InOrder(times) && times[0] <= times[j]
    requires times[j] - times[0] <= p.priMax
    requires own == Pair(p, PriToUse(p, times[j] - times[0]), times[0], times[j])
    requires heard == Pulses(p, times[..j], width) && Opening(p, heard, e, times, j)
    ensures AllKnown(p, Pulses(p, times[..j + 1], width), marks[..j + 1], own, CreateScan(p, times[j], 0, e.pulses, []))
  {
    PulsesStep(p, times, j, width);
    QueueAges(p, e.pulses, times, j);
    var ids :| QueueHeard(p, heard, e.pulses, ids);
    CreateScanIsSound(p, heard, Pulse(times[j], width, p.chirp), 0, e.pulses, ids, []);
    SecondIsKnown(p, times, marks, j, width, e.pulses, own);
  }

  /** A detector without sequences knows what the call creates. */
  lemma FirstKnown(p: Pattern, heard: seq<Pulse>, marks: seq<bool>, own: PriSequence, e: Detector, pulse: Pulse,
      m: Memory)
    requires Usable(p) && Matches(p, pulse) && Timely(p, e.lastTs, pulse) && Sound(p, heard, e) && e.sequences == []
    requires var created := CreateScan(p, pulse.ts, 0, e.pulses, []);
             |created| <= m.sequences && own in created && AllKnown(p, heard + [pulse], marks, own, created)
    ensures var (e', found) := AddPulse(p, e, pulse, m);
            && Holds(p, heard + [pulse], marks, own, e')
            && e'.lastTs == pulse.ts && found == FirstDetected(p, e'.sequences)
  {
    assert LargestGrown(p, [], pulse.ts) == 0 && ExtendAll(p, [], pulse.ts) == [];
    var created := CreateScan(p, pulse.ts, 0, e.pulses, []);
    assert created + [] == created;
    AddPulseKeepsSound(p, heard, e, pulse, m);
  }

  /** The burst's second pulse starts its sequence. */
  lemma SecondPulseHolds(p: Pattern, pri: nat, heard: seq<Pulse>, e: Detector, times: seq<nat>, marks: seq<bool>,
      j: nat,
      width: nat, m: Memory)
    requires Usable(p) && p.widthMin <= width <= p.widthMax && m.sequences >= 2 * p.ppb
    requires j < |times| == |marks| && Opens(marks, j) && times[j] < TWO_64 && InOrder(times) && j < 2 * p.ppb
    requires times[0] <= times[j] && pri == PriToUse(p, times[j] - times[0])
    requires p.priMin <= times[j] - times[0] <= p.priMax
    requires heard == Pulses(p, times[..j], width) && Opening(p, heard, e, times, j)
    ensures var (e', found) := AddPulse(p, e, Pulse(times[j], width, p.chirp), m);
            After(p, pri, e', times, marks, j, j + 1, width) && found == FirstDetected(p, e'.sequences)
  {
    var own := Pair(p, pri, times[0], times[j]);
    SecondIsMade(p, e, times, j, own);
    SecondCreated(p, heard, e, times, marks, j, width, own);
    PulsesStep(p, times, j, width);
    assert e.lastTs == times[j - 1] <= times[j];
    FirstKnown(p, heard, marks[..j + 1], own, e, Pulse(times[j], width, p.chirp), m);
    OpenedRadar(times, marks, j);
    assert Own(p, pri, times, marks, j, j + 1) == own;
  }
}
