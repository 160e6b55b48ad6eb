/** The state left behind by a pulse that reports nothing: exactly when the queue
    stays inside its window, and when every sequence is inside its burst. */
module DfsLive {
  import opened CInt
  import opened DfsPattern
  import opened DfsScan
  import opened Optional
  import opened DfsSound
  import opened DfsWrap
  import opened DfsBurst

  ghost predicate AllInBurst(p: Pattern, ss: seq<PriSequence>) {
    forall i :: 0 <= i < |ss| ==> InBurst(p, ss[i])
  }

  /** Whatever survives the next pulse is inside its burst: an expired sequence, born
      so or not, is dropped first. */
  lemma {:induction false} ExtendAllIsInBurst(p: Pattern, heard: seq<Pulse>, ss: seq<PriSequence>, lastTs: nat, ts: nat)
    requires AllSound(p, heard, ss, lastTs) && lastTs <= ts
    ensures AllInBurst(p, ExtendAll(p, ss, ts))
  {
    if ss != [] {
      assert SequenceSound(p, heard, ss[0], lastTs);
      ExtendAllIsInBurst(p, heard, ss[1..], lastTs, ts);
    }
  }

  lemma {:induction false} StaleIsNotInBurst(p: Pattern, ts: nat, minCount: nat, pulses: seq<nat>,
      made: seq<PriSequence>)
    requires Usable(p) && ts < TWO_64 && NewestFirst(pulses) && NotAfter(pulses, ts)
    requires forall i :: 0 <= i < |pulses| ==> ts - pulses[i] >= TWO_32
    ensures AllInBurst(p, CreateScan(p, ts, minCount, pulses, made)) <==>
      AllInBurst(p, made) && !Wraps(p, ts, minCount, pulses)
    decreases |pulses|
  {
    if pulses != [] {
      WrapsTail(p, ts, minCount, pulses);
      var delta, older := U32(ts - pulses[0]), pulses[1..];
      if delta < p.priMin {
        StaleIsNotInBurst(p, ts, minCount, older, made);
      } else if delta <= p.priMax {
        StaleCandidate(p, ts, pulses[0], older);
        if minCount < 2 {
          var c := Candidate(p, ts, pulses[0], older);
          CreateScanKeepsMade(p, ts, minCount, older, [c] + made);
          var all := CreateScan(p, ts, minCount, pulses, made);
          assert all[|all| - |made| - 1] == c;
        } else {
          StaleIsNotInBurst(p, ts, minCount, older, made);
        }
      }
    }
  }

  /** A new sequence is inside its burst if and only if no age wrapped. */
  lemma {:induction false} CreatedInBurst(p: Pattern, heard: seq<Pulse>, pulse: Pulse, minCount: nat,
                         pulses: seq<nat>, ids: seq<nat>, made: seq<PriSequence>)
    requires Usable(p) && Matches(p, pulse) && pulse.ts < TWO_64
    requires NewestFirst(pulses) && NotAfter(pulses, pulse.ts) && QueueHeard(p, heard, pulses, ids)
    ensures AllInBurst(p, CreateScan(p, pulse.ts, minCount, pulses, made))
       <==> AllInBurst(p, made) && !Wraps(p, pulse.ts, minCount, pulses)
    decreases |pulses|
  {
    if pulses != [] {
      var ts, p0, older := pulse.ts, pulses[0], pulses[1..];
      if ts - p0 >= TWO_32 {
        StaleIsNotInBurst(p, ts, minCount, pulses, made);
      } else {
        WrapsTail(p, ts, minCount, pulses);
        ScanRecent(p, ts, minCount, pulses, made);
        QueueTail(p, heard, pulses, ids);
        if ts - p0 <= p.priMax {
          var made' := WithHead(p, ts, minCount, pulses, made);
          if p.priMin <= ts - p0 {
            RecentCandidate(p, heard, pulse, p0, older, ids[0], ids[1..]);
          }
          PrependInBurst(p, Candidate(p, ts, p0, older), made);
          CreatedInBurst(p, heard, pulse, minCount, older, ids[1..], made');
        }
      }
    }
  }

  lemma PrependInBurst(p: Pattern, c: PriSequence, made: seq<PriSequence>)
    ensures InBurst(p, c) ==> (AllInBurst(p, [c] + made) <==> AllInBurst(p, made))
  {
    assert ([c] + made)[1..] == made;
    forall i | 0 <= i < |made| ensures made[i] == ([c] + made)[i + 1] {
    }
  }

  lemma AppendInBurst(p: Pattern, a: seq<PriSequence>, b: seq<PriSequence>)
    requires AllInBurst(p, b)
    ensures AllInBurst(p, a + b) <==> AllInBurst(p, a)
  {
    assert forall i :: 0 <= i < |a| ==> a[i] == (a + b)[i];
  }

  /** The pulse creates a sequence from an age that wrapped and has the memory for it. */
  ghost predicate LeavesStale(p: Pattern, d: Detector, pulse: Pulse, m: Memory)
    requires p.ppb > 0
  {
    var minCount := LargestGrown(p, d.sequences, pulse.ts);
    |CreateScan(p, pulse.ts, minCount, d.pulses, [])| <= m.sequences && Wraps(p, pulse.ts, minCount, d.pulses)
  }

  /** After a pulse of the right width and chirp every live sequence has
      first_ts <= last_ts <= deadline_ts = first_ts + dur, whatever held before,
      exactly when the pulse did not leave a stale sequence. */
  lemma SequencesStayInBurst(p: Pattern, heard: seq<Pulse>, d: Detector, pulse: Pulse, m: Memory)
    requires Usable(p) && Sound(p, heard, d) && Timely(p, d.lastTs, pulse) && Matches(p, pulse)
    ensures AllInBurst(p, AddPulse(p, d, pulse, m).0.sequences) <==> !LeavesStale(p, d, pulse, m)
  {
    var ids :| QueueHeard(p, heard, d.pulses, ids);
    var minCount := LargestGrown(p, d.sequences, pulse.ts);
    CreatedInBurst(p, heard, pulse, minCount, d.pulses, ids, []);
    ExtendAllIsInBurst(p, heard, d.sequences, d.lastTs, pulse.ts);
    AppendInBurst(p, CreateScan(p, pulse.ts, minCount, d.pulses, []), ExtendAll(p, d.sequences, pulse.ts));
  }

  /** The last pulse of the run that matched left a stale sequence, and nothing has
      been cleared since. */
  ghost predicate RunLeftStale(p: Pattern, events: seq<Event>)
    requires p.ppb > 0
    decreases |events|
  {
    events != [] &&
    var before, e := events[..|events| - 1], events[|events| - 1];
    e.Hear? && if Matches(p, e.pulse) then LeavesStale(p, Run(p, before).0, e.pulse, e.memory)
      else RunLeftStale(p, before)
  }

  /** Over every run, with allocations failing anywhere: the live sequences are inside
      their bursts if and only if the last matching pulse did not leave a stale one. */
  lemma {:induction false} RunStaysInBurst(p: Pattern, events: seq<Event>)
    requires Usable(p) && Faithful(p, events)
    ensures AllInBurst(p, Run(p, events).0.sequences) <==> !RunLeftStale(p, events)
    decreases |events|
  {
    if events != [] {
      var n := |events| - 1;
      var before, e := events[..n], events[n];
      FaithfulPrefix(p, events, n);
      if e.Hear? {
        if Matches(p, e.pulse) {
          RunIsSound(p, before);
          assert CanFollow(p, events[..n], events[n]);
          SequencesStayInBurst(p, Run(p, before).1, Run(p, before).0, e.pulse, e.memory);
        } else {
          RunStaysInBurst(p, before);
        }
      }
    }
  }

  lemma OnePulseRun(p: Pattern, e: Event)
    requires Usable(p) && e == Hear(Pulse(0, p.widthMin, p.chirp), Memory(1, true), false)
    ensures Faithful(p, [e]) && Run(p, [e]).0 == Detector(0, [0], [])
  {
    FirstPulse(p, Reset(0), 0, p.widthMin, Memory(1, true));
    FaithfulExtends(p, [], e);
    assert [] + [e] == [e] && [e][..0] == [];
  }

  /** Every pattern has a run that leaves one: two matching pulses, the second
      2^32 + pri_min ticks after the first. */
  lemma RunCanLeaveStale(p: Pattern) returns (events: seq<Event>)
    requires Usable(p)
    ensures Faithful(p, events) && RunLeftStale(p, events) && !AllInBurst(p, Run(p, events).0.sequences)
  {
    var ts := TWO_32 + p.priMin;
    var first := Hear(Pulse(0, p.widthMin, p.chirp), Memory(1, true), false);
    var second := Hear(Pulse(ts, p.widthMin, p.chirp), Memory(1, true), false);
    OnePulseRun(p, first);
    LateSecondPulse(p, ts);
    FaithfulExtends(p, [first], second);
    events := [first] + [second];
    assert events[..1] == [first];
    RunStaysInBurst(p, events);
  }

  lemma LateSecondPulse(p: Pattern, ts: nat)
    requires Usable(p) && ts == TWO_32 + p.priMin
    ensures Wraps(p, ts, 0, [0]) && |CreateScan(p, ts, 0, [0], [])| == 1
    ensures AddPulse(p, Detector(0, [0], []), Pulse(ts, p.widthMin, p.chirp), Memory(1, true)).1 == None
  {
    assert U32(ts - 0) == p.priMin;
    assert WrapsAt(p, ts, [0], 0);
    var c := Candidate(p, ts, 0, []);
    StaleCandidate(p, ts, 0, []);
    assert [0 as nat][1..] == [];
    assert CreateScan(p, ts, 0, [], [c]) == [c];
    assert CreateScan(p, ts, 0, [0], []) == [c];
    assert ExtendAll(p, [], ts) == [] && [c] + [] == [c];
    SingleDetection(p, c);
  }

  /** last_ts moves before the queue is trimmed, so a pulse that reports nothing
      leaves every queued pulse within window_size of last_ts exactly when the
      queue element could be allocated, the detector was reset, or nothing in
      the old queue was out of the window yet. */
  lemma QueueWindowExactly(p: Pattern, heard: seq<Pulse>, d: Detector, pulse: Pulse, m: Memory)
    requires Usable(p) && Sound(p, heard, d) && Timely(p, d.lastTs, pulse) && Matches(p, pulse)
    ensures var (d', found) := AddPulse(p, d, pulse, m);
            var created := CreateScan(p, pulse.ts, LargestGrown(p, d.sequences, pulse.ts), d.pulses, []);
            found.None? ==>
              (InWindow(p, d'.pulses, d'.lastTs) <==>
               m.element || |created| > m.sequences || InWindow(p, d.pulses, pulse.ts))
  {
    var ids :| QueueHeard(p, heard, d.pulses, ids);
    var ids' := EnqueueKeepsQueue(p, heard, pulse, d.pulses, ids);
  }

  /** Without memory for the queue element the window is overrun. */
  lemma QueueWindowCanBeOverrun()
    ensures var p := ETSI_PATTERNS[1];
            var d := Detector(0, [0], []);
            var pulse := Pulse(WindowSize(p) + 1, 0, 0);
            var (d', found) := AddPulse(p, d, pulse, Memory(0, false));
            Matches(p, pulse) && found.None? && !InWindow(p, d'.pulses, d'.lastTs)
  {
    var p := ETSI_PATTERNS[1];
    var ts := WindowSize(p) + 1;
    assert WindowSize(p) == 50160;
    assert U32(ts - 0) > p.priMax;
    assert CreateScan(p, ts, 0, [0], []) == [];
    assert ExtendAll(p, [], ts) == [] && FirstDetected(p, []) == None;
    var d' := AddPulse(p, Detector(0, [0], []), Pulse(ts, 0, 0), Memory(0, false)).0;
    assert d'.pulses == [0] && d'.lastTs == ts;
    assert ts - d'.pulses[0] > WindowSize(p);
  }
}
