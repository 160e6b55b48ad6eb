/** Soundness of radar detection over every run: whatever is reported is backed
    by pulses that were really received. */
module DfsSound {
  import opened CInt
  import opened DfsPattern
  import opened DfsScan
  import opened Optional

  /** The pulses behind a sequence, oldest first: their positions in the list of
      all pulses heard and their time stamps. The first |factors| of them were
      counted when the pulse after them arrived, each that many intervals back. */
  datatype Train = Train(ids: seq<nat>, times: seq<nat>, factors: seq<nat>)

  ghost predicate Ascending(ids: seq<nat>) {
    forall i, j :: 0 <= i < j < |ids| ==> ids[i] < ids[j]
  }

  ghost predicate Descending(ids: seq<nat>) {
    forall i, j :: 0 <= i < j < |ids| ==> ids[i] > ids[j]
  }

  /** Position `id` holds a pulse of the right width and chirp, stamped `ts`. */
  predicate Heard(p: Pattern, heard: seq<Pulse>, id: nat, ts: nat) {
    id < |heard| && Matches(p, heard[id]) && heard[id].ts == ts
  }

  ghost predicate AllHeard(p: Pattern, heard: seq<Pulse>, ids: seq<nat>, times: seq<nat>) {
    |ids| == |times| && forall i :: 0 <= i < |ids| ==> Heard(p, heard, ids[i], times[i])
  }

  ghost predicate OnGrid(val: int, pri: nat, tolerance: nat) {
    exists k: nat :: k >= 1 && Near(val, k, pri, tolerance)
  }

  /** The older pulses: the nearest is one interval before `ts`, the others sit at
      strictly increasing multiples going back. */
  ghost predicate OlderShape(ts: nat, pri: nat, tolerance: nat, times: seq<nat>, factors: seq<nat>) {
    && |times| == |factors| >= 1
    && factors[|factors| - 1] == 1
    && Descending(factors[..|factors| - 1])
    && forall j :: 0 <= j < |times| ==> factors[j] >= 1 && Near(ts - times[j], factors[j], pri, tolerance)
  }

  /** Each later pulse is a whole number of intervals after the one before. */
  ghost predicate LaterShape(pri: nat, tolerance: nat, times: seq<nat>) {
    forall i, j :: 0 <= i && j == i + 1 && j < |times| ==> OnGrid(times[j] as int - times[i], pri, tolerance)
  }

  ghost predicate Shape(s: PriSequence, tolerance: nat, times: seq<nat>, factors: seq<nat>) {
    var n, b := |times|, |factors|;
    && s.count == n && 1 <= b < n
    && OlderShape(times[b], s.pri, tolerance, times[..b], factors)
    && LaterShape(s.pri, tolerance, times[b..])
    && times[0] == s.firstTs && times[n - 1] == s.lastTs
  }

  /** The whole train fits in one burst, and the sequence knows when that ends. */
  predicate InBurst(p: Pattern, s: PriSequence) {
    && p.priMin <= s.pri <= p.priMax && s.dur == s.pri * (p.ppb - 1) + 2 * p.tolerance
    && s.firstTs <= s.lastTs <= s.deadline == s.firstTs + s.dur
  }

  /** Pulses of the right width and chirp from position `i` on. */
  function MatchingFrom(p: Pattern, heard: seq<Pulse>, i: nat): nat
    decreases |heard| - i
  {
    if i >= |heard| then 0 else (if Matches(p, heard[i]) then 1 else 0) + MatchingFrom(p, heard, i + 1)
  }

  lemma {:induction false} MatchingMore(p: Pattern, heard: seq<Pulse>, pulse: Pulse, i: nat)
    requires i <= |heard|
    ensures MatchingFrom(p, heard + [pulse], i) == MatchingFrom(p, heard, i) + if Matches(p, pulse) then 1 else 0
    decreases |heard| - i
  {
    if i < |heard| {
      MatchingMore(p, heard, pulse, i + 1);
    } else {
      assert MatchingFrom(p, heard + [pulse], i + 1) == 0;
    }
  }

  lemma {:induction false} MatchingGrows(p: Pattern, heard: seq<Pulse>, i: nat, j: nat)
    requires i <= j <= |heard|
    ensures MatchingFrom(p, heard, i) >= MatchingFrom(p, heard, j)
    decreases j - i
  {
    if i < j {
      MatchingGrows(p, heard, i + 1, j);
    }
  }

  lemma MatchingEarlier(p: Pattern, heard: seq<Pulse>, i: nat, j: nat)
    requires i < j <= |heard| && Matches(p, heard[i])
    ensures MatchingFrom(p, heard, i) > MatchingFrom(p, heard, j)
    decreases j - i
  {
    MatchingGrows(p, heard, i + 1, j);
  }

  /** The sequence's false pulses and the train's are different pulses of the right kind,
      none heard before the train's first. */
  ghost predicate FalsesHeard(p: Pattern, heard: seq<Pulse>, ids: seq<nat>, falses: nat) {
    ids != [] && ids[0] < |heard| && |ids| + falses <= MatchingFrom(p, heard, ids[0])
  }

  ghost predicate Backed(p: Pattern, heard: seq<Pulse>, s: PriSequence, t: Train) {
    && Ascending(t.ids) && AllHeard(p, heard, t.ids, t.times)
    && Shape(s, p.tolerance, t.times, t.factors) && InBurst(p, s)
    && FalsesHeard(p, heard, t.ids, s.falses)
  }

  /** A pair whose older pulse is 2^32 ticks or more back: it can never grow,
      because it expired before it was created. */
  predicate Stillborn(s: PriSequence) {
    s.count == 2 && s.deadline < s.lastTs
  }

  ghost predicate HasTrain(p: Pattern, heard: seq<Pulse>, s: PriSequence) {
    exists t :: Backed(p, heard, s, t)
  }

  /** The train ends with the last pulse heard. */
  ghost predicate EndsNow(heard: seq<Pulse>, t: Train) {
    t.ids != [] && t.ids[|t.ids| - 1] == |heard| - 1
  }

  ghost predicate HasFreshTrain(p: Pattern, heard: seq<Pulse>, s: PriSequence) {
    exists t :: Backed(p, heard, s, t) && EndsNow(heard, t)
  }

  ghost predicate QueueHeard(p: Pattern, heard: seq<Pulse>, pulses: seq<nat>, ids: seq<nat>) {
    Descending(ids) && AllHeard(p, heard, ids, pulses)
  }

  ghost predicate SequenceSound(p: Pattern, heard: seq<Pulse>, s: PriSequence, lastTs: nat) {
    s.lastTs <= lastTs && (Stillborn(s) || HasTrain(p, heard, s))
  }

  ghost predicate AllSound(p: Pattern, heard: seq<Pulse>, ss: seq<PriSequence>, lastTs: nat) {
    forall i :: 0 <= i < |ss| ==> SequenceSound(p, heard, ss[i], lastTs)
  }

  /** Sequences the last pulse has just made. */
  ghost predicate AllFresh(p: Pattern, heard: seq<Pulse>, ss: seq<PriSequence>, lastTs: nat) {
    forall i :: 0 <= i < |ss| ==> ss[i].lastTs <= lastTs && (Stillborn(ss[i]) || HasFreshTrain(p, heard, ss[i]))
  }

  /** No sequence is over the threshold. */
  ghost predicate Quiet(p: Pattern, ss: seq<PriSequence>) {
    forall i :: 0 <= i < |ss| ==> !Detects(p, ss[i])
  }

  /** Every sequence over the threshold got there with the last pulse. */
  ghost predicate AllDetectedFresh(p: Pattern, heard: seq<Pulse>, ss: seq<PriSequence>) {
    forall i :: 0 <= i < |ss| && Detects(p, ss[i]) ==> HasFreshTrain(p, heard, ss[i])
  }

  ghost predicate InWindow(p: Pattern, pulses: seq<nat>, ts: nat) {
    forall i :: 0 <= i < |pulses| ==> ts - pulses[i] <= WindowSize(p)
  }

  ghost predicate QueueSound(p: Pattern, heard: seq<Pulse>, pulses: seq<nat>, lastTs: nat) {
    && NewestFirst(pulses) && NotAfter(pulses, lastTs) && |pulses| < MaxCount(p)
    && (pulses != [] ==> InWindow(p, pulses, pulses[0]))
    && exists ids :: QueueHeard(p, heard, pulses, ids)
  }

  ghost predicate Sound(p: Pattern, heard: seq<Pulse>, d: Detector) {
    QueueSound(p, heard, d.pulses, d.lastTs) && AllSound(p, heard, d.sequences, d.lastTs)
  }

  // ----- hearing more pulses -----

  lemma HearMore(p: Pattern, heard: seq<Pulse>, pulse: Pulse, ids: seq<nat>, times: seq<nat>)
    requires AllHeard(p, heard, ids, times)
    ensures AllHeard(p, heard + [pulse], ids, times)
  {
  }

  /** Another pulse of the right kind has room for one more, in the train or beside it. */
  lemma FalsesStay(p: Pattern, heard: seq<Pulse>, pulse: Pulse, ids: seq<nat>, falses: nat)
    requires FalsesHeard(p, heard, ids, falses)
    ensures FalsesHeard(p, heard + [pulse], ids, falses)
    ensures Matches(p, pulse) ==>
      && FalsesHeard(p, heard + [pulse], ids, falses + 1)
      && FalsesHeard(p, heard + [pulse], ids + [|heard|], falses)
  {
    MatchingMore(p, heard, pulse, ids[0]);
  }

  lemma SequenceStays(p: Pattern, heard: seq<Pulse>, pulse: Pulse, s: PriSequence, lastTs: nat, later: nat)
    requires SequenceSound(p, heard, s, lastTs) && lastTs <= later
    ensures SequenceSound(p, heard + [pulse], s, later)
  {
    if HasTrain(p, heard, s) {
      var t :| Backed(p, heard, s, t);
      HearMore(p, heard, pulse, t.ids, t.times);
      FalsesStay(p, heard, pulse, t.ids, s.falses);
      assert Backed(p, heard + [pulse], s, t);
    }
  }

  // ----- extending a sequence -----

  lemma DurationFits(p: Pattern, pri: nat)
    requires Usable(p) && pri <= p.priMax
    ensures 0 <= Duration(p, pri) < TWO_32
    ensures Duration(p, pri) >= pri + 2 * p.tolerance
  {
    var n := p.ppb - 1;
    assert pri * n <= p.priMax * n by { MultipleOrder(pri, p.priMax, n); }
    assert p.priMax * n <= 65535 * 255 by { MultipleOrder(p.priMax, 65535, n); }
    assert pri * n >= pri by { MultipleOrder(1, n, pri); }
  }

  lemma GrowShape(s: PriSequence, tolerance: nat, times: seq<nat>, factors: seq<nat>, ts: nat)
    requires Shape(s, tolerance, times, factors) && OnGrid(ts - s.lastTs, s.pri, tolerance)
    ensures Shape(s.(lastTs := ts, count := s.count + 1), tolerance, times + [ts], factors)
  {
    var b := |factors|;
    assert (times + [ts])[..b] == times[..b];
    assert (times + [ts])[b..] == times[b..] + [ts];
    var later := times[b..];
    assert later[|later| - 1] == s.lastTs;
  }

  lemma GrowTrain(p: Pattern, heard: seq<Pulse>, pulse: Pulse, s: PriSequence, t: Train) returns (t': Train)
    requires Backed(p, heard, s, t) && Matches(p, pulse) && s.lastTs <= pulse.ts <= s.deadline
    requires OnGrid(pulse.ts - s.lastTs, s.pri, p.tolerance)
    ensures Backed(p, heard + [pulse], s.(lastTs := pulse.ts, count := s.count + 1), t')
    ensures t'.ids == t.ids + [|heard|]
  {
    GrowShape(s, p.tolerance, t.times, t.factors, pulse.ts);
    HearMore(p, heard, pulse, t.ids, t.times);
    FalsesStay(p, heard, pulse, t.ids, s.falses);
    t' := Train(t.ids + [|heard|], t.times + [pulse.ts], t.factors);
    assert Heard(p, heard + [pulse], |heard|, pulse.ts);
    assert Ascending(t'.ids) by {
      assert forall i :: 0 <= i < |t.ids| ==> Heard(p, heard, t.ids[i], t.times[i]);
    }
  }

  /** The train of a live sequence after one more pulse: the pulse joins it, or stays out. */
  lemma ExtendTrain(p: Pattern, heard: seq<Pulse>, pulse: Pulse, s: PriSequence, t: Train) returns (t': Train)
    requires Usable(p) && Matches(p, pulse) && Backed(p, heard, s, t) && s.lastTs <= pulse.ts <= s.deadline
    ensures Backed(p, heard + [pulse], Extend(p, s, pulse.ts), t')
    ensures t'.ids == if Extend(p, s, pulse.ts).count > s.count then t.ids + [|heard|] else t.ids
  {
    DurationFits(p, s.pri);
    var gap := pulse.ts - s.lastTs;
    var k := GetMultiple(U32(gap), s.pri, p.tolerance);
    MultipleIsNear(gap, s.pri, p.tolerance);
    if k > 0 {
      assert OnGrid(gap, s.pri, p.tolerance);
      t' := GrowTrain(p, heard, pulse, s, t);
    } else {
      HearMore(p, heard, pulse, t.ids, t.times);
      FalsesStay(p, heard, pulse, t.ids, s.falses);
      t' := t;
    }
  }

  /** A sequence that is not expired keeps a train when a pulse is added, and one that
      thereby gets over the threshold has a train that ends with this pulse. */
  lemma ExtendKeepsTrain(p: Pattern, heard: seq<Pulse>, pulse: Pulse, s: PriSequence, lastTs: nat)
    requires Usable(p) && Matches(p, pulse)
    requires SequenceSound(p, heard, s, lastTs) && lastTs <= pulse.ts <= s.deadline
    ensures SequenceSound(p, heard + [pulse], Extend(p, s, pulse.ts), pulse.ts)
    ensures Detects(p, Extend(p, s, pulse.ts)) && !Detects(p, s) ==>
      HasFreshTrain(p, heard + [pulse], Extend(p, s, pulse.ts))
  {
    var t :| Backed(p, heard, s, t);
    var t' := ExtendTrain(p, heard, pulse, s, t);
    ExtendGrowsOrNot(p, s, pulse.ts);
    if Extend(p, s, pulse.ts).count > s.count {
      assert EndsNow(heard + [pulse], t');
    }
  }

  lemma ExtendGrowsOrNot(p: Pattern, s: PriSequence, ts: nat)
    ensures var e := Extend(p, s, ts);
            && (e == s.(count := s.count + 1, lastTs := ts) || e == s.(falses := s.falses + 1))
            && (Detects(p, e) && !Detects(p, s) ==> e.count > s.count)
  {
  }

  lemma {:induction false} ExtendAllKeepsTrains(p: Pattern, heard: seq<Pulse>, pulse: Pulse, ss: seq<PriSequence>,
      lastTs: nat)
    requires Usable(p) && Matches(p, pulse) && lastTs <= pulse.ts
    requires AllSound(p, heard, ss, lastTs)
    ensures AllSound(p, heard + [pulse], ExtendAll(p, ss, pulse.ts), pulse.ts)
    ensures Quiet(p, ss) ==> AllDetectedFresh(p, heard + [pulse], ExtendAll(p, ss, pulse.ts))
  {
    if ss != [] {
      ExtendAllKeepsTrains(p, heard, pulse, ss[1..], lastTs);
      if pulse.ts <= ss[0].deadline {
        assert SequenceSound(p, heard, ss[0], lastTs);
        ExtendKeepsTrain(p, heard, pulse, ss[0], lastTs);
      }
    }
  }

  // ----- creating sequences -----

  /** Ghost counterpart of a tally: the older pulses it has counted. Position `low` holds
      the last one scanned, counted or not. */
  ghost predicate TallyBacked(p: Pattern, heard: seq<Pulse>, ts: nat, pri: nat, a: Tally, t: Train, low: nat) {
    && Ascending(t.ids) && AllHeard(p, heard, t.ids, t.times)
    && OlderShape(ts, pri, p.tolerance, t.times, t.factors)
    && a.count == |t.times| + 1
    && a.firstTs == t.times[0]
    && a.minFactor == (if |t.factors| == 1 then 0 else t.factors[0])
    && ScannedHeard(p, heard, a.falses, a.pending, t.ids, low)
  }

  /** Counted, false and pending pulses are different pulses of the right kind from `low` on. */
  ghost predicate ScannedHeard(p: Pattern, heard: seq<Pulse>, falses: nat, pending: nat, ids: seq<nat>, low: nat) {
    && FalsesHeard(p, heard, ids, falses) && low <= ids[0]
    && |ids| + falses + pending <= MatchingFrom(p, heard, low)
  }

  lemma ScanOneMore(p: Pattern, heard: seq<Pulse>, falses: nat, pending: nat, ids: seq<nat>, low: nat, id: nat)
    requires ScannedHeard(p, heard, falses, pending, ids, low) && id < low && Matches(p, heard[id])
    ensures ScannedHeard(p, heard, falses, pending + 1, ids, id)
    ensures ScannedHeard(p, heard, falses + pending, 0, [id] + ids, id)
  {
    MatchingEarlier(p, heard, id, low);
  }

  lemma PrependOlder(ts: nat, pri: nat, tolerance: nat, times: seq<nat>, factors: seq<nat>, older: nat, k: nat)
    requires OlderShape(ts, pri, tolerance, times, factors) && Near(ts - older, k, pri, tolerance)
    requires k > (if |factors| == 1 then 0 else factors[0])
    ensures OlderShape(ts, pri, tolerance, [older] + times, [k] + factors)
  {
    var n := |factors|;
    assert ([k] + factors)[..n] == [k] + factors[..n - 1];
  }

  lemma CountOlderIsBacked(p: Pattern, heard: seq<Pulse>, ts: nat, pri: nat, older: nat, id: nat, a: Tally, t: Train,
      low: nat)
      returns (t': Train)
    requires older <= ts && ts - older < TWO_32
    requires Heard(p, heard, id, older) && TallyBacked(p, heard, ts, pri, a, t, low) && id < low
    ensures TallyBacked(p, heard, ts, pri, CountOlder(p, pri, ts, older, a), t', id)
    ensures |t'.ids| > 0 && t'.ids[|t'.ids| - 1] == t.ids[|t.ids| - 1]
  {
    var k := GetMultiple(U32(ts - older), pri, p.tolerance);
    ScanOneMore(p, heard, a.falses, a.pending, t.ids, low, id);
    t' := t;
    if k > a.minFactor {
      MultipleIsNear(ts - older, pri, p.tolerance);
      PrependOlder(ts, pri, p.tolerance, t.times, t.factors, older, k);
      t' := Train([id] + t.ids, [older] + t.times, [k] + t.factors);
    }
  }

  /** Scanning older pulses only adds pulses that sit further back. */
  lemma {:induction false} ScanOlderIsBacked(p: Pattern, heard: seq<Pulse>, ts: nat, pri: nat, minValid: nat,
                            older: seq<nat>, oids: seq<nat>, a: Tally, t: Train, low: nat)
      returns (t': Train, low': nat)
    requires NotAfter(older, ts) && ts - minValid < TWO_32
    requires QueueHeard(p, heard, older, oids) && TallyBacked(p, heard, ts, pri, a, t, low)
    requires oids != [] ==> oids[0] < low
    ensures TallyBacked(p, heard, ts, pri, ScanOlder(p, pri, ts, minValid, older, a), t', low')
    ensures |t'.ids| > 0 && t'.ids[|t'.ids| - 1] == t.ids[|t.ids| - 1]
    decreases |older|
  {
    if older == [] || older[0] < minValid {
      t', low' := t, low;
    } else {
      assert Heard(p, heard, oids[0], older[0]);
      var t1 := CountOlderIsBacked(p, heard, ts, pri, older[0], oids[0], a, t, low);
      QueueTail(p, heard, older, oids);
      var b := CountOlder(p, pri, ts, older[0], a);
      t', low' := ScanOlderIsBacked(p, heard, ts, pri, minValid, older[1..], oids[1..], b, t1, oids[0]);
    }
  }

  lemma QueueTail(p: Pattern, heard: seq<Pulse>, pulses: seq<nat>, ids: seq<nat>)
    requires QueueHeard(p, heard, pulses, ids) && pulses != []
    ensures QueueHeard(p, heard, pulses[1..], ids[1..])
    ensures |ids| == |pulses| && Heard(p, heard, ids[0], pulses[0])
    ensures ids[1..] != [] ==> ids[1..][0] < ids[0]
  {
    forall i | 0 <= i < |ids| - 1 ensures Heard(p, heard, ids[1..][i], pulses[1..][i]) {
      assert Heard(p, heard, ids[i + 1], pulses[i + 1]);
    }
  }

  /** The earliest pulse counted is the first one or lies inside the burst. */
  lemma {:induction false} ScanStaysRecent(p: Pattern, pri: nat, ts: nat, minValid: nat, older: seq<nat>, a: Tally)
    requires a.firstTs <= ts && NotAfter(older, ts)
    ensures var r := ScanOlder(p, pri, ts, minValid, older, a);
            r.firstTs <= ts && (r.firstTs == a.firstTs || r.firstTs >= minValid)
    decreases |older|
  {
    if older != [] && older[0] >= minValid {
      ScanStaysRecent(p, pri, ts, minValid, older[1..], CountOlder(p, pri, ts, older[0], a));
    }
  }

  lemma PriInRange(p: Pattern, gap: int)
    requires Usable(p) && p.priMin <= U32(gap) <= p.priMax
    ensures p.priMin <= PriToUse(p, gap) <= p.priMax
    ensures Near(U32(gap), 1, PriToUse(p, gap), p.tolerance)
  {
  }

  lemma CompleteTrain(p: Pattern, heard: seq<Pulse>, pulse: Pulse, s: PriSequence, a: Tally, t: Train, low: nat)
    requires TallyBacked(p, heard, pulse.ts, s.pri, a, t, low) && Matches(p, pulse)
    requires s == FromTally(s.pri, s.dur, pulse.ts, a) && InBurst(p, s)
    ensures HasFreshTrain(p, heard + [pulse], s)
  {
    var t' := Train(t.ids + [|heard|], t.times + [pulse.ts], t.factors);
    var b := |t.factors|;
    HearMore(p, heard, pulse, t.ids, t.times);
    FalsesStay(p, heard, pulse, t.ids, a.falses);
    assert Heard(p, heard + [pulse], |heard|, pulse.ts);
    assert forall i :: 0 <= i < |t.ids| ==> Heard(p, heard, t.ids[i], t.times[i]);
    assert t'.times[..b] == t.times && t'.times[b..] == [pulse.ts];
    assert EndsNow(heard + [pulse], t');
    assert Backed(p, heard + [pulse], s, t');
  }

  lemma MinValidMeans(ts: nat, dur: int)
    requires 0 <= dur < TWO_32 && ts < TWO_64
    ensures dur <= ts ==> MinValid(ts, dur) == ts - dur
    ensures dur > ts ==> MinValid(ts, dur) > ts
  {
  }

  /** The inner scan for one interval, once its burst is known to start at `minValid`. */
  lemma ScanFromPair(p: Pattern, heard: seq<Pulse>, pulse: Pulse, pri: nat, minValid: nat,
                     p0: nat, older: seq<nat>, id0: nat, oids: seq<nat>) returns (t: Train, low: nat)
    requires p0 <= pulse.ts && NotAfter(older, pulse.ts) && pulse.ts - minValid < TWO_32
    requires Heard(p, heard, id0, p0) && QueueHeard(p, heard, older, oids) && (oids != [] ==> oids[0] < id0)
    requires Near(pulse.ts - p0, 1, pri, p.tolerance)
    ensures var a := ScanOlder(p, pri, pulse.ts, minValid, older, FirstTally(p0));
            TallyBacked(p, heard, pulse.ts, pri, a, t, low) && a.firstTs <= pulse.ts
            && (a.firstTs == p0 || a.firstTs >= minValid)
  {
    var t0 := Train([id0], [p0], [1]);
    assert t0.factors[..0] == [];
    MatchingEarlier(p, heard, id0, |heard|);
    t, low := ScanOlderIsBacked(p, heard, pulse.ts, pri, minValid, older, oids, FirstTally(p0), t0, id0);
    ScanStaysRecent(p, pri, pulse.ts, minValid, older, FirstTally(p0));
  }

  /** A candidate from a pulse less than 2^32 ticks old is backed. */
  lemma RecentTally(p: Pattern, heard: seq<Pulse>, pulse: Pulse, pri: nat, dur: nat, minValid: nat,
                    p0: nat, older: seq<nat>, id0: nat, oids: seq<nat>)
    requires Matches(p, pulse) && p0 <= pulse.ts && NotAfter(older, pulse.ts)
    requires Heard(p, heard, id0, p0) && QueueHeard(p, heard, older, oids) && (oids != [] ==> oids[0] < id0)
    requires p.priMin <= pri <= p.priMax && dur == Duration(p, pri) && pri + 2 * p.tolerance <= dur < TWO_32
    requires Near(pulse.ts - p0, 1, pri, p.tolerance)
    requires if dur <= pulse.ts then minValid == pulse.ts - dur else minValid > pulse.ts
    ensures var a := ScanOlder(p, pri, pulse.ts, minValid, older, FirstTally(p0));
            HasFreshTrain(p, heard + [pulse], FromTally(pri, dur, pulse.ts, a))
  {
    var t, low := ScanFromPair(p, heard, pulse, pri, minValid, p0, older, id0, oids);
    var a := ScanOlder(p, pri, pulse.ts, minValid, older, FirstTally(p0));
    CompleteTrain(p, heard, pulse, FromTally(pri, dur, pulse.ts, a), a, t, low);
  }

  lemma CandidateIs(p: Pattern, ts: nat, p0: nat, older: seq<nat>, pri: nat, dur: nat)
    requires p.ppb > 0 && pri == PriToUse(p, ts - p0) && dur == Duration(p, pri)
    ensures Candidate(p, ts, p0, older)
         == FromTally(pri, dur, ts, ScanOlder(p, pri, ts, MinValid(ts, dur), older, FirstTally(p0)))
  {
  }

  lemma RecentCandidate(p: Pattern, heard: seq<Pulse>, pulse: Pulse, p0: nat, older: seq<nat>, id0: nat, oids: seq<nat>)
    requires Usable(p) && Matches(p, pulse)
    requires p0 <= pulse.ts < TWO_64 && NotAfter(older, pulse.ts)
    requires Heard(p, heard, id0, p0) && QueueHeard(p, heard, older, oids) && (oids != [] ==> oids[0] < id0)
    requires p.priMin <= pulse.ts - p0 <= p.priMax
    ensures HasFreshTrain(p, heard + [pulse], Candidate(p, pulse.ts, p0, older))
  {
    var ts := pulse.ts;
    var pri := PriToUse(p, ts - p0);
    PriInRange(p, ts - p0);
    DurationFits(p, pri);
    var dur := Duration(p, pri);
    MinValidMeans(ts, dur);
    RecentTally(p, heard, pulse, pri, dur, MinValid(ts, dur), p0, older, id0, oids);
    CandidateIs(p, ts, p0, older, pri, dur);
  }

  lemma StaleCandidate(p: Pattern, ts: nat, p0: nat, older: seq<nat>)
    requires Usable(p) && p0 <= ts < TWO_64 && NotAfter(older, p0)
    requires p.priMin <= U32(ts - p0) <= p.priMax && ts - p0 >= TWO_32
    ensures Stillborn(Candidate(p, ts, p0, older))
  {
    var pri := PriToUse(p, ts - p0);
    PriInRange(p, ts - p0);
    DurationFits(p, pri);
    var dur := Duration(p, pri);
    MinValidMeans(ts, dur);
    assert older == [] || older[0] < MinValid(ts, dur);
    assert ScanOlder(p, pri, ts, MinValid(ts, dur), older, FirstTally(p0)) == FirstTally(p0);
  }

  lemma {:induction false} CreateScanIsSound(p: Pattern, heard: seq<Pulse>, pulse: Pulse, minCount: nat,
                            pulses: seq<nat>, ids: seq<nat>, made: seq<PriSequence>)
    requires Usable(p) && Matches(p, pulse) && pulse.ts < TWO_64
    requires NewestFirst(pulses) && NotAfter(pulses, pulse.ts) && QueueHeard(p, heard, pulses, ids)
    requires AllFresh(p, heard + [pulse], made, pulse.ts)
    ensures AllFresh(p, heard + [pulse], CreateScan(p, pulse.ts, minCount, pulses, made), pulse.ts)
    decreases |pulses|
  {
    if pulses != [] {
      var ts, p0, older := pulse.ts, pulses[0], pulses[1..];
      var delta := U32(ts - p0);
      QueueTail(p, heard, pulses, ids);
      if delta < p.priMin {
        CreateScanIsSound(p, heard, pulse, minCount, older, ids[1..], made);
      } else if delta <= p.priMax {
        if ts - p0 >= TWO_32 {
          StaleCandidate(p, ts, p0, older);
        } else {
          RecentCandidate(p, heard, pulse, p0, older, ids[0], ids[1..]);
        }
        var c := Candidate(p, ts, p0, older);
        assert c.lastTs == ts && (Stillborn(c) || HasFreshTrain(p, heard + [pulse], c));
        CreateScanIsSound(p, heard, pulse, minCount, older, ids[1..], if c.count <= minCount then made else [c] + made);
      }
    }
  }

  // ----- the queue -----

  lemma {:induction false} DropOldIsPrefix(pulses: seq<nat>, minTs: nat)
    ensures DropOld(pulses, minTs) <= pulses
    ensures pulses != [] && pulses[0] >= minTs ==> DropOld(pulses, minTs) != []
    ensures var kept := DropOld(pulses, minTs); kept == [] || kept[|kept| - 1] >= minTs
    decreases |pulses|
  {
    if pulses != [] && pulses[|pulses| - 1] < minTs {
      DropOldIsPrefix(pulses[..|pulses| - 1], minTs);
    }
  }

  lemma EnqueueShape(p: Pattern, pulses: seq<nat>, ts: nat)
    requires Usable(p) && NewestFirst(pulses) && NotAfter(pulses, ts) && |pulses| < MaxCount(p)
    ensures var q := Enqueue(p, pulses, ts);
            && q != [] && q[0] == ts && q <= [ts] + pulses
            && |q| < MaxCount(p) && (q[|q| - 1] == ts || ts - q[|q| - 1] <= WindowSize(p))
  {
    if ts > WindowSize(p) {
      DropOldIsPrefix([ts] + pulses, ts - WindowSize(p));
    }
  }

  /** A pulse is dropped only when it is outside the window or the queue is at its limit. */
  lemma EnqueueDropsNoMore(p: Pattern, pulses: seq<nat>, ts: nat)
    requires p.ppb > 0
    ensures var all, q := [ts] + pulses, Enqueue(p, pulses, ts);
            && q <= all
            && (|q| < |all| ==> all[|q|] + p.priMax * p.ppb * p.priNum < ts || |q| + 1 >= 2 * p.ppb)
  {
    if ts > WindowSize(p) {
      DropOldIsPrefix([ts] + pulses, ts - WindowSize(p));
      DropOldDropsNoMore([ts] + pulses, ts - WindowSize(p));
    }
  }

  lemma {:induction false} DropOldDropsNoMore(pulses: seq<nat>, minTs: nat)
    ensures |DropOld(pulses, minTs)| <= |pulses|
    ensures |DropOld(pulses, minTs)| < |pulses| ==> pulses[|DropOld(pulses, minTs)|] < minTs
    decreases |pulses|
  {
    if pulses != [] && pulses[|pulses| - 1] < minTs {
      DropOldDropsNoMore(pulses[..|pulses| - 1], minTs);
    }
  }

  lemma PrefixIsOrdered(q: seq<nat>, pulses: seq<nat>, ts: nat)
    requires NewestFirst(pulses) && NotAfter(pulses, ts) && q <= [ts] + pulses
    ensures NewestFirst(q) && NotAfter(q, ts)
  {
  }

  /** The queue holds the new pulse and a prefix of the old queue, is below its
      limit, and reaches no further back than the window. */
  lemma EnqueueKeepsQueue(p: Pattern, heard: seq<Pulse>, pulse: Pulse, pulses: seq<nat>, ids: seq<nat>)
      returns (ids': seq<nat>)
    requires Usable(p) && Matches(p, pulse)
    requires NewestFirst(pulses) && NotAfter(pulses, pulse.ts) && |pulses| < MaxCount(p)
    requires QueueHeard(p, heard, pulses, ids)
    ensures var q := Enqueue(p, pulses, pulse.ts);
            && q != [] && q[0] == pulse.ts && q <= [pulse.ts] + pulses
            && |q| < MaxCount(p) && NewestFirst(q) && NotAfter(q, pulse.ts)
            && InWindow(p, q, pulse.ts) && QueueHeard(p, heard + [pulse], q, ids')
  {
    var q := Enqueue(p, pulses, pulse.ts);
    EnqueueShape(p, pulses, pulse.ts);
    PrefixIsOrdered(q, pulses, pulse.ts);
    StaysInWindow(p, q, pulse.ts);
    ids' := ([|heard|] + ids)[..|q|];
    QueueGrows(p, heard, pulse, pulses, ids, |q|);
    assert q == ([pulse.ts] + pulses)[..|q|];
  }

  lemma QueueGrows(p: Pattern, heard: seq<Pulse>, pulse: Pulse, pulses: seq<nat>, ids: seq<nat>, n: nat)
    requires Matches(p, pulse) && QueueHeard(p, heard, pulses, ids) && n <= |pulses| + 1
    ensures QueueHeard(p, heard + [pulse], ([pulse.ts] + pulses)[..n], ([|heard|] + ids)[..n])
  {
    HearMore(p, heard, pulse, ids, pulses);
    assert Heard(p, heard + [pulse], |heard|, pulse.ts);
    assert forall i :: 0 <= i < |ids| ==> Heard(p, heard, ids[i], pulses[i]);
  }

  lemma StaysInWindow(p: Pattern, q: seq<nat>, ts: nat)
    requires NewestFirst(q) && (q != [] ==> ts - q[|q| - 1] <= WindowSize(p))
    ensures InWindow(p, q, ts)
  {
  }

  // ----- one pulse, and every run -----

  /** Stamps are 64-bit and a detector is never given an older one than it holds. */
  predicate Timely(p: Pattern, lastTs: nat, pulse: Pulse) {
    Matches(p, pulse) ==> lastTs <= pulse.ts < TWO_64
  }

  /** New sequences are sound, and over the threshold only with this pulse. */
  lemma FreshIsSound(p: Pattern, heard: seq<Pulse>, ss: seq<PriSequence>, lastTs: nat)
    requires Usable(p) && AllFresh(p, heard, ss, lastTs)
    ensures AllSound(p, heard, ss, lastTs) && AllDetectedFresh(p, heard, ss)
  {
    forall i | 0 <= i < |ss| ensures SequenceSound(p, heard, ss[i], lastTs) {
      if !Stillborn(ss[i]) {
        var t :| Backed(p, heard, ss[i], t) && EndsNow(heard, t);
      }
    }
  }

  /** The pulses heard since the detector was last emptied, once this one is added. */
  function HeardAfter(p: Pattern, heard: seq<Pulse>, d: Detector, pulse: Pulse, m: Memory): seq<Pulse>
    requires p.ppb > 0
  {
    if OutOfMemory(p, d, pulse, m) then [] else heard + [pulse]
  }

  /** Every sequence of a call that has memory, old and new. */
  lemma AllSequencesSound(p: Pattern, heard: seq<Pulse>, d: Detector, pulse: Pulse, ids: seq<nat>)
    requires Usable(p) && Sound(p, heard, d) && Timely(p, d.lastTs, pulse) && Matches(p, pulse)
    requires QueueHeard(p, heard, d.pulses, ids)
    ensures var created := CreateScan(p, pulse.ts, LargestGrown(p, d.sequences, pulse.ts), d.pulses, []);
            var all := created + ExtendAll(p, d.sequences, pulse.ts);
            && AllSound(p, heard + [pulse], all, pulse.ts)
            && (Quiet(p, d.sequences) ==> AllDetectedFresh(p, heard + [pulse], all))
  {
    var minCount := LargestGrown(p, d.sequences, pulse.ts);
    ExtendAllKeepsTrains(p, heard, pulse, d.sequences, d.lastTs);
    CreateScanIsSound(p, heard, pulse, minCount, d.pulses, ids, []);
    FreshIsSound(p, heard + [pulse], CreateScan(p, pulse.ts, minCount, d.pulses, []), pulse.ts);
  }

  lemma IgnoredKeepsSound(p: Pattern, heard: seq<Pulse>, d: Detector, pulse: Pulse)
    requires Sound(p, heard, d)
    ensures Sound(p, heard + [pulse], d)
  {
    var ids :| QueueHeard(p, heard, d.pulses, ids);
    HearMore(p, heard, pulse, ids, d.pulses);
    assert QueueHeard(p, heard + [pulse], d.pulses, ids);
    forall i | 0 <= i < |d.sequences| ensures SequenceSound(p, heard + [pulse], d.sequences[i], d.lastTs) {
      SequenceStays(p, heard, pulse, d.sequences[i], d.lastTs, d.lastTs);
    }
  }

  /** Detection is sound at every call, whatever the allocations do: what is found is
      backed by pulses heard since the detector was last emptied, and by a train that
      ends with this pulse unless a sequence was over the threshold before. */
  lemma AddPulseKeepsSound(p: Pattern, heard: seq<Pulse>, d: Detector, pulse: Pulse, m: Memory)
    requires Usable(p) && Sound(p, heard, d) && Timely(p, d.lastTs, pulse)
    ensures Sound(p, HeardAfter(p, heard, d, pulse, m), AddPulse(p, d, pulse, m).0)
    ensures var (d', found) := AddPulse(p, d, pulse, m);
            match found
            case None => Quiet(p, d.sequences) ==> Quiet(p, d'.sequences)
            case Some(s) =>
              && Detects(p, s) && HasTrain(p, heard + [pulse], s)
              && (Quiet(p, d.sequences) ==> HasFreshTrain(p, heard + [pulse], s))
  {
    var heard' := heard + [pulse];
    if !Matches(p, pulse) {
      IgnoredKeepsSound(p, heard, d, pulse);
    } else if OutOfMemory(p, d, pulse, m) {
      assert QueueHeard(p, [], [], []);
    } else {
      var ids :| QueueHeard(p, heard, d.pulses, ids);
      AllSequencesSound(p, heard, d, pulse, ids);
      HearMore(p, heard, pulse, ids, d.pulses);
      assert QueueHeard(p, heard', d.pulses, ids);
      var ids' := EnqueueKeepsQueue(p, heard, pulse, d.pulses, ids);
      assert QueueHeard(p, heard', Enqueue(p, d.pulses, pulse.ts), ids');
      FoundIsOneOf(p, d, pulse, m);
    }
  }

  lemma FoundIsOneOf(p: Pattern, d: Detector, pulse: Pulse, m: Memory)
    requires p.ppb > 0 && Matches(p, pulse) && !OutOfMemory(p, d, pulse, m)
    ensures var (d', found) := AddPulse(p, d, pulse, m);
            if found.None? then Quiet(p, d'.sequences) else found.value in d'.sequences && Detects(p, found.value)
  {
  }

  /** What can happen to a detector; `reported` records whether the call that
      heard the pulse returned a sequence. */
  datatype Event = Hear(pulse: Pulse, memory: Memory, reported: bool) | Clear(ts: nat)

  /** State after a run, and the pulses heard since the detector was last emptied,
      by a reset or for want of memory. */
  function Run(p: Pattern, events: seq<Event>): (Detector, seq<Pulse>)
    requires p.ppb > 0
  {
    if events == [] then (Reset(0), []) else
    var (d, heard) := Run(p, events[..|events| - 1]);
    match events[|events| - 1]
    case Hear(pulse, memory, _) => (AddPulse(p, d, pulse, memory).0, HeardAfter(p, heard, d, pulse, memory))
    case Clear(ts) => (Reset(ts), [])
  }

  /** The event can follow the run: its stamp is not older than the detector's,
      and it records what the call really returned. */
  predicate CanFollow(p: Pattern, events: seq<Event>, e: Event)
    requires p.ppb > 0
  {
    e.Hear? ==>
      var d := Run(p, events).0;
      Timely(p, d.lastTs, e.pulse) && e.reported == AddPulse(p, d, e.pulse, e.memory).1.Some?
  }

  ghost predicate Faithful(p: Pattern, events: seq<Event>)
    requires p.ppb > 0
  {
    forall i :: 0 <= i < |events| ==> CanFollow(p, events[..i], events[i])
  }

  lemma FaithfulExtends(p: Pattern, events: seq<Event>, e: Event)
    requires p.ppb > 0 && Faithful(p, events) && CanFollow(p, events, e)
    ensures Faithful(p, events + [e])
  {
    var more := events + [e];
    forall i | 0 <= i < |more| ensures CanFollow(p, more[..i], more[i]) {
      if i < |events| {
        assert more[..i] == events[..i];
      } else {
        assert more[..i] == events;
      }
    }
  }

  lemma FaithfulPrefix(p: Pattern, events: seq<Event>, n: nat)
    requires p.ppb > 0 && Faithful(p, events) && n <= |events|
    ensures Faithful(p, events[..n])
  {
    assert forall i :: 0 <= i < n ==> events[..n][..i] == events[..i];
  }

  lemma {:induction false} RunIsSound(p: Pattern, events: seq<Event>)
    requires Usable(p) && Faithful(p, events)
    ensures var (d, heard) := Run(p, events); Sound(p, heard, d)
  {
    if events == [] {
      assert QueueHeard(p, [], [], []);
    } else {
      var n := |events| - 1;
      var before := events[..n];
      FaithfulPrefix(p, events, n);
      RunIsSound(p, before);
      var (d, heard) := Run(p, before);
      assert CanFollow(p, events[..n], events[n]);
      match events[n]
      case Hear(pulse, memory, _) => AddPulseKeepsSound(p, heard, d, pulse, memory);
      case Clear(ts) => assert QueueHeard(p, [], [], []);
    }
  }

  /** Every report is followed by a reset, as the driver's callers do it. */
  ghost predicate Answered(events: seq<Event>) {
    forall i :: 0 <= i < |events| && events[i].Hear? && events[i].reported ==>
      i + 1 < |events| && events[i + 1].Clear?
  }

  /** So between calls no sequence is over the threshold. */
  lemma {:induction false} AnsweredIsQuiet(p: Pattern, events: seq<Event>)
    requires Usable(p) && Faithful(p, events) && Answered(events)
    ensures Quiet(p, Run(p, events).0.sequences)
    decreases |events|
  {
    if events != [] && events[|events| - 1].Hear? {
      var n := |events| - 1;
      var before, e := events[..n], events[n];
      assert Answered(before);
      FaithfulPrefix(p, events, n);
      AnsweredIsQuiet(p, before);
      RunIsSound(p, before);
      assert CanFollow(p, events[..n], e);
      AddPulseKeepsSound(p, Run(p, before).1, Run(p, before).0, e.pulse, e.memory);
    }
  }

  /** A sequence over the threshold whose pulses, at least `thresh` distinct ones of the
      right width and chirp, spaced by whole intervals and inside one burst, are all
      among these and end with the last of them. */
  ghost predicate RadarHeard(p: Pattern, heard: seq<Pulse>) {
    exists s, t :: Backed(p, heard, s, t) && EndsNow(heard, t) &&
      |t.ids| == s.count >= p.thresh && s.count * p.priNum >= s.falses
  }

  /** Over every run, with allocations failing anywhere: the reported sequence itself is
      backed by pulses heard since the detector was last emptied, and if every report
      before was answered by a reset, its train ends with the reported pulse. */
  lemma DetectionIsSound(p: Pattern, events: seq<Event>, i: nat)
    requires Usable(p) && Faithful(p, events)
    requires i < |events| && events[i].Hear? && events[i].reported
    ensures var (d, since) := Run(p, events[..i]);
            var found := AddPulse(p, d, events[i].pulse, events[i].memory).1;
            && found.Some? && HasTrain(p, since + [events[i].pulse], found.value)
            && found.value.count >= p.thresh && found.value.count * p.priNum >= found.value.falses
            && (Answered(events[..i]) ==>
                  && HasFreshTrain(p, since + [events[i].pulse], found.value)
                  && RadarHeard(p, since + [events[i].pulse]))
  {
    var before, e := events[..i], events[i];
    FaithfulPrefix(p, events, i);
    assert CanFollow(p, before, e);
    RunIsSound(p, before);
    var (d, since) := Run(p, before);
    AddPulseKeepsSound(p, since, d, e.pulse, e.memory);
    if Answered(before) {
      AnsweredIsQuiet(p, before);
      var s := AddPulse(p, d, e.pulse, e.memory).1.value;
      var t :| Backed(p, since + [e.pulse], s, t) && EndsNow(since + [e.pulse], t);
      assert |t.ids| == s.count;
    }
  }

  // ----- what a run was told, without its outcomes -----

  function HeardPulses(events: seq<Event>): seq<Pulse> {
    if events == [] then []
    else
      var n := |events| - 1;
      HeardPulses(events[..n]) + if events[n].Hear? then [events[n].pulse] else []
  }

  /** How many calls reported a radar. */
  function Reports(events: seq<Event>): nat {
    if events == [] then 0
    else
      var n := |events| - 1;
      Reports(events[..n]) + if events[n].Hear? && events[n].reported then 1 else 0
  }

  lemma HeardAppend(events: seq<Event>, e: Event)
    ensures HeardPulses(events + [e]) == HeardPulses(events) + if e.Hear? then [e.pulse] else []
    ensures Reports(events + [e]) == Reports(events) + if e.Hear? && e.reported then 1 else 0
  {
    assert (events + [e])[..|events|] == events;
  }

  lemma RunAppend(p: Pattern, events: seq<Event>, e: Event)
    requires p.ppb > 0
    ensures var (d, since) := Run(p, events);
            Run(p, events + [e]) ==
              match e
              case Hear(pulse, memory, _) => (AddPulse(p, d, pulse, memory).0, HeardAfter(p, since, d, pulse, memory))
              case Clear(ts) => (Reset(ts), [])
  {
    assert (events + [e])[..|events|] == events;
  }

  predicate IsSuffix(a: seq<Pulse>, b: seq<Pulse>) {
    |a| <= |b| && a == b[|b| - |a|..]
  }

  lemma SuffixAppend(a: seq<Pulse>, b: seq<Pulse>, pulse: Pulse)
    requires IsSuffix(a, b)
    ensures IsSuffix(a + [pulse], b + [pulse])
  {
  }

  lemma SinceStep(p: Pattern, events: seq<Event>, later: seq<Event>, e: Event)
    requires p.ppb > 0 && IsSuffix(Run(p, events).1, HeardPulses(later))
    ensures IsSuffix(Run(p, events + [e]).1, HeardPulses(later + [e]))
  {
    RunAppend(p, events, e);
    HeardAppend(later, e);
    if e.Hear? {
      SuffixAppend(Run(p, events).1, HeardPulses(later), e.pulse);
    }
  }

  /** What backs a report was heard after every reset before it. */
  lemma {:induction false} HeardSinceReset(p: Pattern, events: seq<Event>, k: nat)
    requires p.ppb > 0 && k <= |events| && (k > 0 ==> events[k - 1].Clear?)
    ensures IsSuffix(Run(p, events).1, HeardPulses(events[k..]))
    decreases |events|
  {
    if k == |events| {
      assert events[k..] == [];
    } else {
      var before, e := events[..|events| - 1], events[|events| - 1];
      HeardSinceReset(p, before, k);
      SinceStep(p, before, before[k..], e);
      assert events == before + [e] && events[k..] == before[k..] + [e];
    }
  }
}
