/** The detector as the driver keeps it: a mutable object whose lists are updated
    by loops with early exits, proved against the functions of DfsScan. */
module DfsDetector {
  import opened CInt
  import opened DfsPattern
  import opened DfsScan
  import opened Optional
  import opened DfsSound

  /** etsi_create_sequences's inner loop over the pulses after position `i`. */
  method TallyOlder(rpp: Pattern, pulses: seq<nat>, i: nat, ts: nat, pri: nat, minValid: nat) returns (a: Tally)
    requires i < |pulses|
    ensures a == ScanOlder(rpp, pri, ts, minValid, pulses[i + 1..], FirstTally(pulses[i]))
  {
    a := FirstTally(pulses[i]);
    var j := i + 1;
    while j < |pulses|
      invariant i < j <= |pulses|
      invariant ScanOlder(rpp, pri, ts, minValid, pulses[j..], a)
             == ScanOlder(rpp, pri, ts, minValid, pulses[i + 1..], FirstTally(pulses[i]))
    {
      var p2 := pulses[j];
      if p2 < minValid {
        break;
      }
      var factor := GetMultiple(U32(ts - p2), pri, rpp.tolerance);
      assert pulses[j..][1..] == pulses[j + 1..];
      if factor > a.minFactor {
        a := Tally(a.count + 1, a.falses + a.pending, 0, p2, factor);
      } else {
        a := a.(pending := a.pending + 1);
      }
      j := j + 1;
    }
  }

  function WithFound(found: Option<PriSequence>, made: seq<PriSequence>): seq<PriSequence> {
    match found
    case None => made
    case Some(ps) => [ps] + made
  }

  lemma ExtendAllStep(p: Pattern, was: seq<PriSequence>, i: nat, ts: nat)
    requires i < |was|
    ensures var rest, s := was[i + 1..], was[i];
            && ExtendAll(p, was[i..], ts) ==
               (if ts > s.deadline then [] else [Extend(p, s, ts)]) + ExtendAll(p, rest, ts)
            && LargestGrown(p, was[i..], ts)
            == if Grows(p, s, ts) then Max(s.count + 1, LargestGrown(p, rest, ts)) else LargestGrown(p, rest, ts)
  {
    assert was[i..][0] == was[i] && was[i..][1..] == was[i + 1..];
  }

  /** The position of the sequence found, the end if there is none. */
  function First(ss: seq<PriSequence>, found: Option<PriSequence>): nat {
    if ss == [] || found == Some(ss[0]) then 0 else 1 + First(ss[1..], found)
  }

  lemma {:induction false} FirstIs(ss: seq<PriSequence>, i: nat)
    requires i < |ss| && ss[i] !in ss[..i]
    ensures First(ss, Some(ss[i])) == i
  {
    if i > 0 {
      assert ss[0] in ss[..i] && ss[1..][..i - 1] == ss[..i][1..];
      FirstIs(ss[1..], i - 1);
    }
  }

  lemma {:induction false} FirstOfNone(ss: seq<PriSequence>)
    ensures First(ss, None) == |ss|
  {
    if ss != [] {
      FirstOfNone(ss[1..]);
    }
  }

  class PriDetector {
    const rpp: Pattern
    const maxCount: nat
    const windowSize: nat
    var lastTs: nat
    var pulses: seq<nat>
    var sequences: seq<PriSequence>
    var count: nat
    ghost var log: seq<Event>

    function State(): Detector
      reads this
    {
      Detector(lastTs, pulses, sequences)
    }

    /** The pulses heard since the detector was last emptied. */
    ghost function Since(): seq<Pulse>
      reads this
    {
      if rpp.ppb > 0 then Run(rpp, log).1 else []
    }

    ghost predicate Configured()
    {
      Usable(rpp) && maxCount == MaxCount(rpp) && windowSize == WindowSize(rpp)
    }

    /** The state is the one the logged run leads to. */
    ghost predicate Valid()
      reads this
    {
      && Configured() && count == |pulses|
      && Faithful(rpp, log) && State() == Run(rpp, log).0
    }

    /** skw_pri_detector_init */
    constructor (pattern: Pattern)
      requires Usable(pattern)
      ensures Valid() && rpp == pattern && log == [] && State() == Reset(0)
      ensures maxCount == 2 * pattern.ppb && windowSize == pattern.priMax * pattern.ppb * pattern.priNum
    {
      rpp := pattern;
      maxCount := pattern.ppb * 2;
      windowSize := pattern.priMax * pattern.ppb * pattern.priNum;
      lastTs, pulses, sequences, count, log := 0, [], [], 0, [];
    }

    /** The sequence that starts at the pulse at position `i`. */
    method CandidateFrom(i: nat, ts: nat) returns (ps: PriSequence)
      requires Configured() && i < |pulses|
      ensures ps == Candidate(rpp, ts, pulses[i], pulses[i + 1..])
    {
      var pri := PriToUse(rpp, ts - pulses[i]);
      var dur := Duration(rpp, pri);
      var a := TallyOlder(rpp, pulses, i, ts, pri, MinValid(ts, dur));
      ps := FromTally(pri, dur, ts, a);
    }

    /** What the outer loop does at position `i`: stop, go on, or go on with a new
        sequence. */
    method Consider(i: nat, ts: nat, minCount: nat, ghost made: seq<PriSequence>)
        returns (stop: bool, found: Option<PriSequence>)
      requires Configured() && i < |pulses|
      ensures CreateScan(rpp, ts, minCount, pulses[i..], made)
           == if stop then made else CreateScan(rpp, ts, minCount, pulses[i + 1..], WithFound(found, made))
    {
      assert pulses[i..][0] == pulses[i] && pulses[i..][1..] == pulses[i + 1..];
      var delta := U32(ts - pulses[i]);
      if delta < rpp.priMin {
        return false, None;
      }
      if delta > rpp.priMax {
        return true, None;
      }
      var ps := CandidateFrom(i, ts);
      return false, if ps.count <= minCount then None else Some(ps);
    }

    /** etsi_create_sequences: `allocations` sequences can be made before the
        first failure, which makes it return false. */
    method CreateSequences(ts: nat, minCount: nat, allocations: nat) returns (ok: bool)
      requires Configured()
      modifies this`sequences
      ensures var created := CreateScan(rpp, ts, minCount, pulses, []);
              && ok == (|created| <= allocations)
              && (ok ==> sequences == created + old(sequences))
    {
      var nrNew := 0;
      ghost var was, made: seq<PriSequence> := sequences, [];
      for i := 0 to |pulses|
        invariant |made| == nrNew <= allocations
        invariant sequences == made + was
        invariant CreateScan(rpp, ts, minCount, pulses[i..], made) == CreateScan(rpp, ts, minCount, pulses, [])
      {
        var stop, found := Consider(i, ts, minCount, made);
        if stop {
          break;
        }
        if found.None? {
          continue;
        }
        if nrNew == allocations {
          CreateScanKeepsMade(rpp, ts, minCount, pulses[i + 1..], [found.value] + made);
          return false;
        }
        assert [found.value] + (made + was) == ([found.value] + made) + was;
        sequences := [found.value] + sequences;
        made, nrNew := [found.value] + made, nrNew + 1;
      }
      return true;
    }

    /** A sequence that has not expired either grows by the pulse or counts it as
        a false one. */
    method ExtendOne(ps: PriSequence, ts: nat) returns (next: PriSequence, grew: bool)
      ensures next == Extend(rpp, ps, ts)
      ensures grew == (GetMultiple(U32(ts - ps.lastTs), ps.pri, rpp.tolerance) > 0)
      ensures grew ==> next.count == ps.count + 1
    {
      var factor := GetMultiple(U32(ts - ps.lastTs), ps.pri, rpp.tolerance);
      grew := factor > 0;
      if grew {
        next := ps.(lastTs := ts, count := ps.count + 1);
      } else {
        next := ps.(falses := ps.falses + 1);
      }
    }

    /** etsi_add_to_existing_seqs */
    method AddToExisting(ts: nat) returns (maxGrown: nat)
      modifies this`sequences
      ensures sequences == ExtendAll(rpp, old(sequences), ts)
      ensures maxGrown == LargestGrown(rpp, old(sequences), ts)
    {
      maxGrown := 0;
      var was := sequences;
      var i := 0;
      var kept: seq<PriSequence> := [];
      while i < |was|
        invariant 0 <= i <= |was|
        invariant kept + ExtendAll(rpp, was[i..], ts) == ExtendAll(rpp, was, ts)
        invariant Max(maxGrown, LargestGrown(rpp, was[i..], ts)) == LargestGrown(rpp, was, ts)
      {
        var ps := was[i];
        ExtendAllStep(rpp, was, i, ts);
        i := i + 1;
        if ts > ps.deadline {
          continue;
        }
        var next, grew := ExtendOne(ps, ts);
        if grew && maxGrown < next.count {
          maxGrown := next.count;
        }
        kept := kept + [next];
      }
      sequences := kept;
    }

    /** etsi_detector_reset, on the lists and counters only. */
    method ClearState(ts: nat)
      modifies this`sequences, this`pulses, this`count, this`lastTs
      ensures State() == Reset(ts) && count == 0
    {
      sequences, pulses, count, lastTs := [], [], 0, ts;
    }

    /** etsi_detector_reset as its callers see it. */
    method Clear(ts: nat)
      requires Valid()
      modifies this
      ensures Valid() && State() == Reset(ts) && log == old(log) + [Event.Clear(ts)]
      ensures lastTs == ts && pulses == [] && sequences == []
    {
      FaithfulExtends(rpp, log, Event.Clear(ts));
      assert (log + [Event.Clear(ts)])[..|log|] == log;
      ClearState(ts);
      log := log + [Event.Clear(ts)];
    }

    /** etsi_check_detection: the first sequence that holds enough pulses and for each of
        them no more than `priNum` false ones. */
    method CheckDetection() returns (found: Option<PriSequence>)
      ensures found == FirstDetected(rpp, sequences)
      ensures found.Some? ==> found.value.count >= rpp.thresh && found.value.count * rpp.priNum >= found.value.falses
      ensures var k := First(sequences, found);
              && k <= |sequences| && (found.Some? <==> k < |sequences|)
              && forall j :: 0 <= j < k ==>
                   sequences[j].count < rpp.thresh || sequences[j].count * rpp.priNum < sequences[j].falses
    {
      var i := 0;
      while i < |sequences|
        invariant 0 <= i <= |sequences|
        invariant FirstDetected(rpp, sequences[i..]) == FirstDetected(rpp, sequences)
        invariant forall j :: 0 <= j < i ==>
          sequences[j].count < rpp.thresh || sequences[j].count * rpp.priNum < sequences[j].falses
      {
        var ps := sequences[i];
        if ps.count >= rpp.thresh && ps.count * rpp.priNum >= ps.falses {
          assert ps !in sequences[..i];
          FirstIs(sequences, i);
          return Some(ps);
        }
        assert sequences[i..][1..] == sequences[i + 1..];
        i := i + 1;
      }
      FirstOfNone(sequences);
      return None;
    }

    /** pulse_queue_check_window */
    method CheckWindow()
      requires count == |pulses|
      modifies this`pulses, this`count
      ensures count == |pulses|
      ensures pulses == if |old(pulses)| < 2 || lastTs <= windowSize then old(pulses)
                        else DropOld(old(pulses), lastTs - windowSize)
    {
      if count < 2 {
        return;
      }
      if lastTs <= windowSize {
        return;
      }
      var minValidTs := lastTs - windowSize;
      while |pulses| > 0
        invariant count == |pulses|
        invariant DropOld(pulses, minValidTs) == DropOld(old(pulses), minValidTs)
        decreases |pulses|
      {
        if pulses[|pulses| - 1] >= minValidTs {
          return;
        }
        pulses, count := pulses[..|pulses| - 1], count - 1;
      }
    }

    /** pulse_queue_enqueue */
    method EnqueuePulse(ts: nat, canAllocate: bool) returns (ok: bool)
      requires Configured() && count == |pulses|
      modifies this`pulses, this`count, this`lastTs
      ensures ok == canAllocate && count == |pulses|
      ensures pulses == if ok then Enqueue(rpp, old(pulses), ts) else old(pulses)
      ensures lastTs == if ok then ts else old(lastTs)
    {
      if !canAllocate {
        return false;
      }
      pulses, count, lastTs := [ts] + pulses, count + 1, ts;
      CheckWindow();
      ghost var inWindow := pulses;
      if count >= maxCount {
        assert inWindow != [];
        pulses, count := pulses[..|pulses| - 1], count - 1;
      }
      return true;
    }

    /** etsi_add_pulse: state and result follow the specification, and the log
        records both. */
    method Add(pulse: Pulse, m: Memory) returns (found: Option<PriSequence>)
      requires Valid() && Timely(rpp, lastTs, pulse)
      modifies this
      ensures Valid() && log == old(log) + [Hear(pulse, m, found.Some?)]
      ensures (State(), found) == AddPulse(rpp, old(State()), pulse, m)
      ensures lastTs == if Matches(rpp, pulse) then pulse.ts else old(lastTs)
      ensures !(rpp.widthMin <= pulse.width <= rpp.widthMax && pulse.chirp == rpp.chirp) ==>
        found.None? && pulses == old(pulses) && sequences == old(sequences)
    {
      ghost var e := Hear(pulse, m, AddPulse(rpp, State(), pulse, m).1.Some?);
      FaithfulExtends(rpp, log, e);
      assert (log + [e])[..|log|] == log;
      log := log + [e];
      if rpp.widthMin > pulse.width || rpp.widthMax < pulse.width {
        return None;
      }
      if rpp.chirp != pulse.chirp {
        return None;
      }
      var ts := pulse.ts;
      lastTs := ts;
      var maxUpdated := AddToExisting(ts);
      var ok := CreateSequences(ts, maxUpdated, m.sequences);
      if !ok {
        ClearState(ts);
        return None;
      }
      found := CheckDetection();
      if found.None? {
        var queued := EnqueuePulse(ts, m.element);
      }
    }

    /** One turn of skw_add_pulse's loop: a detector that reports is reset. */
    method Offer(pulse: Pulse, m: Memory) returns (hit: bool)
      requires Valid() && lastTs <= pulse.ts < TWO_64
      modifies this
      ensures Valid() && lastTs <= pulse.ts
      ensures log == old(log) + Told(pulse, m, hit)
    {
      var found := Add(pulse, m);
      hit := found.Some?;
      if hit {
        Clear(pulse.ts);
      }
    }
  }

  /** What a detector is told of a pulse, by whether it reported. */
  function Told(pulse: Pulse, m: Memory, hit: bool): seq<Event> {
    if hit then [Hear(pulse, m, true), Event.Clear(pulse.ts)] else [Hear(pulse, m, false)]
  }
}
