/** What one pulse does to a detector, as functions of its state: the scans with
    their early exits, and beside them the scans of the whole queue that the
    exits must not change. */
module DfsScan {
  import opened CInt
  import opened DfsPattern
  import opened Optional

  /** A candidate pulse train (`struct skw_pri_sequence`). */
  datatype PriSequence = PriSequence(
    pri: nat, dur: nat, count: nat, falses: nat,
    firstTs: nat, lastTs: nat, deadline: nat)

  /** A detector: the queue holds time stamps, newest first; sequences are
      kept newest first. */
  datatype Detector = Detector(lastTs: nat, pulses: seq<nat>, sequences: seq<PriSequence>)

  /** Outcome of the allocations one pulse asks for: how many sequences can be
      allocated before the first failure, and whether a queue element can. */
  datatype Memory = Memory(sequences: nat, element: bool)

  function Max(a: nat, b: nat): nat { if a < b then b else a }

  /** The queue never runs forward in time. */
  ghost predicate NewestFirst(pulses: seq<nat>) {
    forall i, j :: 0 <= i < j < |pulses| ==> pulses[i] >= pulses[j]
  }

  ghost predicate NotAfter(pulses: seq<nat>, ts: nat) {
    forall i :: 0 <= i < |pulses| ==> pulses[i] <= ts
  }

  // ----- etsi_create_sequences -----

  function PriToUse(p: Pattern, gap: int): (pri: nat) {
    if p.priMin + PRI_OFFSET == p.priMax - PRI_OFFSET then p.priMin + PRI_OFFSET else U32(gap)
  }

  /** A pattern of one interval goes by that one, whatever was measured. */
  lemma OneIntervalIsUsed(p: Pattern, gap: nat)
    requires gap < TWO_32
    ensures p.priMax == p.priMin + 32 ==> PriToUse(p, gap) == p.priMin + 16
    ensures p.priMax != p.priMin + 32 ==> PriToUse(p, gap) == gap
  {
  }

  /** Length of a burst of `ppb` pulses at this interval. */
  function Duration(p: Pattern, pri: nat): (dur: int)
    ensures p.ppb > 0 ==> dur >= 0
  {
    assert p.ppb > 0 ==> pri * (p.ppb - 1) >= 0 by {
      if p.ppb > 0 {
        MultipleOrder(0, pri, p.ppb - 1);
      }
    }
    pri * (p.ppb - 1) + 2 * p.tolerance
  }

  /** Oldest stamp still inside the burst that ends at `ts`; the u64 subtraction wraps. */
  function MinValid(ts: nat, dur: int): nat {
    U64(ts - dur)
  }

  /** Running totals while older pulses are matched against a new candidate. */
  datatype Tally = Tally(count: nat, falses: nat, pending: nat, firstTs: nat, minFactor: nat)

  function CountOlder(p: Pattern, pri: nat, ts: nat, older: nat, a: Tally): Tally {
    var factor := GetMultiple(U32(ts - older), pri, p.tolerance);
    if factor > a.minFactor
    then Tally(a.count + 1, a.falses + a.pending, 0, older, factor)
    else a.(pending := a.pending + 1)
  }

  /** The inner loop: stops at the first pulse before `minValid`. */
  function ScanOlder(p: Pattern, pri: nat, ts: nat, minValid: nat, older: seq<nat>, a: Tally): Tally
    decreases |older|
  {
    if older == [] || older[0] < minValid then a
    else ScanOlder(p, pri, ts, minValid, older[1..], CountOlder(p, pri, ts, older[0], a))
  }

  function FirstTally(newest: nat): Tally {
    Tally(2, 0, 0, newest, 0)
  }

  function FromTally(pri: nat, dur: nat, ts: nat, a: Tally): PriSequence {
    PriSequence(pri, dur, a.count, a.falses, a.firstTs, ts, a.firstTs + dur)
  }

  /** The scan takes the `n` pulses before the first one too old, and accounts for each:
      all up to the earliest counted, at `j`, are counted or false, the rest pending. */
  lemma {:induction false} ScanOlderExactly(p: Pattern, pri: nat, ts: nat, minValid: nat, older: seq<nat>, a: Tally)
      returns (n: nat, j: nat)
    ensures j <= n <= |older| && (forall i :: 0 <= i < n ==> older[i] >= minValid)
    ensures n < |older| ==> older[n] < minValid
    ensures var r := ScanOlder(p, pri, ts, minValid, older, a);
            if j == 0 then r == a.(pending := a.pending + n)
            else && r.firstTs == older[j - 1] && r.count > a.count && r.pending == n - j
                 && r.count + r.falses == a.count + a.falses + a.pending + j
    decreases |older|
  {
    if older == [] || older[0] < minValid {
      n, j := 0, 0;
    } else {
      var b := CountOlder(p, pri, ts, older[0], a);
      n, j := ScanOlderExactly(p, pri, ts, minValid, older[1..], b);
      n, j := n + 1, if j > 0 then j + 1 else if b.count > a.count then 1 else 0;
    }
  }

  /** The candidate that pairs the new pulse with queued pulse `p0`. */
  function Candidate(p: Pattern, ts: nat, p0: nat, older: seq<nat>): PriSequence
    requires p.ppb > 0
  {
    var pri := PriToUse(p, ts - p0);
    var dur := Duration(p, pri);
    FromTally(pri, dur, ts, ScanOlder(p, pri, ts, MinValid(ts, dur), older, FirstTally(p0)))
  }

  /** A new sequence takes every queued pulse from its partner back to its first one as its
      own or as false, and no other. */
  lemma CandidateExactly(p: Pattern, ts: nat, p0: nat, older: seq<nat>) returns (j: nat)
    requires p.ppb > 0
    ensures j <= |older|
    ensures var c := Candidate(p, ts, p0, older);
            && c.count + c.falses == 2 + j && c.firstTs == (if j == 0 then p0 else older[j - 1])
            && (j == 0 <==> c.count == 2) && c.pri == PriToUse(p, ts - p0)
            && c.dur == c.pri * (p.ppb - 1) + 2 * p.tolerance
            && c.lastTs == ts && c.deadline == c.firstTs + c.pri * (p.ppb - 1) + 2 * p.tolerance
  {
    var pri := PriToUse(p, ts - p0);
    var n;
    n, j := ScanOlderExactly(p, pri, ts, MinValid(ts, Duration(p, pri)), older, FirstTally(p0));
  }

  /** The outer loop: stops at the first pulse more than priMax old, and pushes
      each kept candidate on the front of `made`. */
  function CreateScan(p: Pattern, ts: nat, minCount: nat, pulses: seq<nat>, made: seq<PriSequence>)
    : seq<PriSequence>
    requires p.ppb > 0
    decreases |pulses|
  {
    if pulses == [] then made else
    var delta := U32(ts - pulses[0]);
    if delta < p.priMin then CreateScan(p, ts, minCount, pulses[1..], made)
    else if delta > p.priMax then made
    else
      var c := Candidate(p, ts, pulses[0], pulses[1..]);
      CreateScan(p, ts, minCount, pulses[1..], if c.count <= minCount then made else [c] + made)
  }

  /** Every queued pulse not before `minValid`. */
  function Recent(older: seq<nat>, minValid: nat): seq<nat> {
    if older == [] then []
    else if older[0] >= minValid then [older[0]] + Recent(older[1..], minValid)
    else Recent(older[1..], minValid)
  }

  function CountAll(p: Pattern, pri: nat, ts: nat, older: seq<nat>, a: Tally): Tally
    decreases |older|
  {
    if older == [] then a
    else CountAll(p, pri, ts, older[1..], CountOlder(p, pri, ts, older[0], a))
  }

  function CandidateOfAll(p: Pattern, ts: nat, p0: nat, older: seq<nat>): PriSequence
    requires p.ppb > 0
  {
    var pri := PriToUse(p, ts - p0);
    var dur := Duration(p, pri);
    FromTally(pri, dur, ts, CountAll(p, pri, ts, Recent(older, MinValid(ts, dur)), FirstTally(p0)))
  }

  /** Every queue position is examined; only the interval range decides. */
  function CreateOfAll(p: Pattern, ts: nat, minCount: nat, pulses: seq<nat>, made: seq<PriSequence>)
    : seq<PriSequence>
    requires p.ppb > 0
    decreases |pulses|
  {
    if pulses == [] then made else
    var delta := ts - pulses[0];
    var c := CandidateOfAll(p, ts, pulses[0], pulses[1..]);
    var keep := p.priMin <= delta <= p.priMax && c.count > minCount;
    CreateOfAll(p, ts, minCount, pulses[1..], if keep then [c] + made else made)
  }

  lemma {:induction false} NothingRecent(older: seq<nat>, minValid: nat)
    requires NewestFirst(older) && (older != [] ==> older[0] < minValid)
    ensures Recent(older, minValid) == []
    decreases |older|
  {
    if older != [] {
      NothingRecent(older[1..], minValid);
    }
  }

  /** The inner early exit loses nothing. */
  lemma {:induction false} ScanOlderSeesAllRecent(p: Pattern, pri: nat, ts: nat, minValid: nat, older: seq<nat>,
      a: Tally)
    requires NewestFirst(older)
    ensures ScanOlder(p, pri, ts, minValid, older, a) == CountAll(p, pri, ts, Recent(older, minValid), a)
    decreases |older|
  {
    if older == [] {
    } else if older[0] < minValid {
      NothingRecent(older, minValid);
    } else {
      ScanOlderSeesAllRecent(p, pri, ts, minValid, older[1..], CountOlder(p, pri, ts, older[0], a));
      var rest := Recent(older[1..], minValid);
      assert Recent(older, minValid) == [older[0]] + rest;
      assert ([older[0]] + rest)[1..] == rest;
    }
  }

  lemma {:induction false} NothingInRange(p: Pattern, ts: nat, minCount: nat, pulses: seq<nat>, made: seq<PriSequence>)
    requires p.ppb > 0
    requires NewestFirst(pulses) && (pulses != [] ==> ts - pulses[0] > p.priMax)
    ensures CreateOfAll(p, ts, minCount, pulses, made) == made
    decreases |pulses|
  {
    if pulses != [] {
      NothingInRange(p, ts, minCount, pulses[1..], made);
    }
  }

  lemma SameCandidate(p: Pattern, ts: nat, p0: nat, older: seq<nat>)
    requires p.ppb > 0 && NewestFirst(older)
    ensures Candidate(p, ts, p0, older) == CandidateOfAll(p, ts, p0, older)
  {
    var pri := PriToUse(p, ts - p0);
    ScanOlderSeesAllRecent(p, pri, ts, MinValid(ts, Duration(p, pri)), older, FirstTally(p0));
  }

  /** Neither early exit loses a candidate: as long as no queued pulse is 2^32
      ticks old, the loops create exactly what a scan of the whole queue would. */
  lemma {:induction false} CreateScanLosesNothing(p: Pattern, ts: nat, minCount: nat, pulses: seq<nat>,
      made: seq<PriSequence>)
    requires p.ppb > 0
    requires NewestFirst(pulses) && NotAfter(pulses, ts)
    requires forall i :: 0 <= i < |pulses| ==> ts - pulses[i] < TWO_32
    ensures CreateScan(p, ts, minCount, pulses, made) == CreateOfAll(p, ts, minCount, pulses, made)
    decreases |pulses|
  {
    if pulses != [] {
      var delta := ts - pulses[0];
      assert U32(delta) == delta;
      if p.priMin <= delta {
        if delta > p.priMax {
          NothingInRange(p, ts, minCount, pulses, made);
        } else {
          SameCandidate(p, ts, pulses[0], pulses[1..]);
          var c := Candidate(p, ts, pulses[0], pulses[1..]);
          CreateScanLosesNothing(p, ts, minCount, pulses[1..], if c.count <= minCount then made else [c] + made);
        }
      } else {
        CreateScanLosesNothing(p, ts, minCount, pulses[1..], made);
      }
    }
  }

  /** The 2^32 bound is needed: the age of a pulse 2^32 + priMin ticks old is in
      range once truncated, and the scan creates a candidate from it. */
  lemma CreateScanWrapsBeyond32Bits()
    ensures var p := ETSI_PATTERNS[1];
            var ts := TWO_32 + p.priMin;
            && NewestFirst([0]) && NotAfter([0], ts)
            && |CreateScan(p, ts, 0, [0], [])| == 1
            && CreateOfAll(p, ts, 0, [0], []) == []
  {
    var p := ETSI_PATTERNS[1];
    var ts := TWO_32 + p.priMin;
    assert U32(ts - 0) == p.priMin;
    var c := Candidate(p, ts, 0, []);
    assert [0 as nat][1..] == [];
    assert c.count == 2;
    assert CreateScan(p, ts, 0, [], [c]) == [c];
    assert CreateScan(p, ts, 0, [0], []) == [c];
  }

  lemma {:induction false} CreateScanKeepsMade(p: Pattern, ts: nat, minCount: nat, pulses: seq<nat>,
      made: seq<PriSequence>)
    requires p.ppb > 0
    ensures var all := CreateScan(p, ts, minCount, pulses, made);
            |all| >= |made| && all[|all| - |made|..] == made
    decreases |pulses|
  {
    if pulses != [] {
      var delta := U32(ts - pulses[0]);
      if delta < p.priMin {
        CreateScanKeepsMade(p, ts, minCount, pulses[1..], made);
      } else if delta <= p.priMax {
        var c := Candidate(p, ts, pulses[0], pulses[1..]);
        var made' := if c.count <= minCount then made else [c] + made;
        CreateScanKeepsMade(p, ts, minCount, pulses[1..], made');
        var all := CreateScan(p, ts, minCount, pulses[1..], made');
        if made' != made {
          assert all[|all| - |made|..] == (all[|all| - |made'|..])[1..];
        }
      }
    }
  }

  // ----- etsi_add_to_existing_seqs -----

  function Extend(p: Pattern, s: PriSequence, ts: nat): PriSequence {
    if GetMultiple(U32(ts - s.lastTs), s.pri, p.tolerance) > 0
    then s.(lastTs := ts, count := s.count + 1)
    else s.(falses := s.falses + 1)
  }

  /** Drops expired sequences and extends the others. */
  function ExtendAll(p: Pattern, ss: seq<PriSequence>, ts: nat): seq<PriSequence> {
    if ss == [] then []
    else if ts > ss[0].deadline then ExtendAll(p, ss[1..], ts)
    else [Extend(p, ss[0], ts)] + ExtendAll(p, ss[1..], ts)
  }

  /** The sequence is live and the pulse is near a whole number of its intervals on. */
  predicate Grows(p: Pattern, s: PriSequence, ts: nat) {
    ts <= s.deadline && GetMultiple(U32(ts - s.lastTs), s.pri, p.tolerance) > 0
  }

  /** Largest count among the sequences that just grew. */
  function LargestGrown(p: Pattern, ss: seq<PriSequence>, ts: nat): nat {
    if ss == [] then 0
    else
      var rest := LargestGrown(p, ss[1..], ts);
      if Grows(p, ss[0], ts) then Max(ss[0].count + 1, rest) else rest
  }

  /** It bounds the count of every sequence that grows. */
  lemma {:induction false} LargestGrownBounds(p: Pattern, ss: seq<PriSequence>, ts: nat, i: nat)
    requires i < |ss| && Grows(p, ss[i], ts)
    ensures ss[i].count + 1 <= LargestGrown(p, ss, ts)
  {
    if i > 0 {
      LargestGrownBounds(p, ss[1..], ts, i - 1);
    }
  }

  /** And it is reached by one of them. */
  lemma {:induction false} LargestGrownIsReached(p: Pattern, ss: seq<PriSequence>, ts: nat) returns (i: nat)
    requires LargestGrown(p, ss, ts) > 0
    ensures i < |ss| && Grows(p, ss[i], ts) && LargestGrown(p, ss, ts) == ss[i].count + 1
  {
    var rest := LargestGrown(p, ss[1..], ts);
    if Grows(p, ss[0], ts) && ss[0].count + 1 >= rest {
      i := 0;
    } else {
      i := LargestGrownIsReached(p, ss[1..], ts);
      i := i + 1;
    }
  }

  // ----- etsi_check_detection and the queue -----

  predicate Detects(p: Pattern, s: PriSequence) {
    s.count >= p.thresh && s.count * p.priNum >= s.falses
  }

  function FirstDetected(p: Pattern, ss: seq<PriSequence>): (r: Option<PriSequence>)
    ensures r.Some? ==> r.value in ss && Detects(p, r.value)
    ensures r.None? ==> forall i :: 0 <= i < |ss| ==> !Detects(p, ss[i])
  {
    if ss == [] then None
    else if Detects(p, ss[0]) then Some(ss[0])
    else FirstDetected(p, ss[1..])
  }

  /** Drops pulses before `minTs` from the old end of the queue. */
  function DropOld(pulses: seq<nat>, minTs: nat): seq<nat> {
    if pulses == [] || pulses[|pulses| - 1] >= minTs then pulses
    else DropOld(pulses[..|pulses| - 1], minTs)
  }

  function WindowSize(p: Pattern): nat { p.priMax * p.ppb * p.priNum }

  function MaxCount(p: Pattern): nat { p.ppb * 2 }

  function Enqueue(p: Pattern, pulses: seq<nat>, ts: nat): seq<nat> {
    var grown := [ts] + pulses;
    var inWindow := if |grown| < 2 || ts <= WindowSize(p) then grown
                    else DropOld(grown, ts - WindowSize(p));
    if |inWindow| >= MaxCount(p) && inWindow != [] then inWindow[..|inWindow| - 1] else inWindow
  }

  // ----- one call of etsi_add_pulse -----

  function Reset(ts: nat): Detector { Detector(ts, [], []) }

  /** A new sequence cannot be allocated, so the call resets the detector. */
  predicate OutOfMemory(p: Pattern, d: Detector, pulse: Pulse, m: Memory)
    requires p.ppb > 0
  {
    Matches(p, pulse) &&
    |CreateScan(p, pulse.ts, LargestGrown(p, d.sequences, pulse.ts), d.pulses, [])| > m.sequences
  }

  function AddPulse(p: Pattern, d: Detector, pulse: Pulse, m: Memory): (Detector, Option<PriSequence>)
    requires p.ppb > 0
  {
    if !Matches(p, pulse) then (d, None) else
    var ts := pulse.ts;
    var minCount := LargestGrown(p, d.sequences, ts);
    var created := CreateScan(p, ts, minCount, d.pulses, []);
    if |created| > m.sequences then (Reset(ts), None) else
    var sequences := created + ExtendAll(p, d.sequences, ts);
    var found := FirstDetected(p, sequences);
    var pulses := if found.None? && m.element then Enqueue(p, d.pulses, ts) else d.pulses;
    (Detector(ts, pulses, sequences), found)
  }
}
