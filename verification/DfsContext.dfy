/** The pulse event handler: unwrapping of 24-bit time stamps and the walk over
    the detectors of a region. */
module DfsContext {
  import opened CInt
  import opened DfsPattern
  import opened DfsScan
  import opened Optional
  import opened DfsSound
  import opened DfsDetector

  // ----- time stamps -----

  /** skw_dfs_get_ts */
  function GetTs(cur: nat, pre: nat): nat {
    if pre < cur then cur
    else
      var joined := cur % TWO_24 + (pre - pre % TWO_24);
      if joined < pre then joined + TWO_24 else joined
  }

  lemma SameResidue(x: int, y: int)
    requires x % TWO_24 == y % TWO_24 && 0 <= x - y < TWO_24
    ensures x == y
  {
  }

  lemma ResidueOf(periods: nat, raw: nat)
    requires raw < TWO_24
    ensures (periods * TWO_24 + raw) % TWO_24 == raw
  {
  }

  lemma GetTsFits(raw: nat, pre: nat)
    requires raw < TWO_24
    ensures pre <= GetTs(raw, pre) < pre + TWO_24 && GetTs(raw, pre) % TWO_24 == raw
  {
    var q, r := pre / TWO_24, pre % TWO_24;
    assert pre == q * TWO_24 + r;
    ResidueOf(0, raw);
    ResidueOf(q, raw);
    ResidueOf(q + 1, raw);
  }

  /** The result is the one value in [pre, pre + 2^24) that agrees with the raw stamp. */
  lemma GetTsIsUnwrap(raw: nat, pre: nat, x: nat)
    requires raw < TWO_24
    ensures (x == GetTs(raw, pre)) <==> (pre <= x < pre + TWO_24 && x % TWO_24 == raw)
  {
    var y := GetTs(raw, pre);
    GetTsFits(raw, pre);
    if pre <= x < pre + TWO_24 && x % TWO_24 == raw {
      if x >= y { SameResidue(x, y); } else { SameResidue(y, x); }
    }
  }

  /** What the handler computes from the low 24 bits of true times. */
  function Unwrap(times: seq<nat>): seq<nat> {
    if times == [] then []
    else
      var before := Unwrap(times[..|times| - 1]);
      var pre := if before == [] then 0 else before[|before| - 1];
      before + [GetTs(times[|times| - 1] % TWO_24, pre)]
  }

  /** Consecutive true times less than 2^24 apart. */
  ghost predicate ShortGaps(times: seq<nat>) {
    forall i, j :: 0 <= i && j == i + 1 && j < |times| ==> 0 <= times[j] as int - times[i] < TWO_24
  }

  ghost predicate ShiftedBy(out: seq<nat>, times: seq<nat>, shift: int) {
    |out| == |times| && forall i :: 0 <= i < |times| ==> out[i] == times[i] - shift
  }

  /** One stamp: if the last one came out `shift` early, so does the next. */
  lemma NextIsShifted(t: nat, pre: nat, shift: nat)
    requires shift % TWO_24 == 0 && pre <= t - shift < pre + TWO_24
    ensures GetTs(t % TWO_24, pre) == t - shift
  {
    GetTsIsUnwrap(t % TWO_24, pre, t - shift);
  }

  lemma UnwrapLast(times: seq<nat>, pre: nat)
    requires times != []
    requires var before := Unwrap(times[..|times| - 1]); pre == if before == [] then 0 else before[|before| - 1]
    ensures Unwrap(times) == Unwrap(times[..|times| - 1]) + [GetTs(times[|times| - 1] % TWO_24, pre)]
  {
  }

  lemma UnwrapLastIs(times: seq<nat>, pre: nat, periods: nat)
    requires times != []
    requires var before := Unwrap(times[..|times| - 1]); pre == if before == [] then 0 else before[|before| - 1]
    requires pre <= times[|times| - 1] - periods * TWO_24 < pre + TWO_24
    ensures Unwrap(times) == Unwrap(times[..|times| - 1]) + [times[|times| - 1] - periods * TWO_24]
  {
    UnwrapLast(times, pre);
    ResidueOf(periods, 0);
    NextIsShifted(times[|times| - 1], pre, periods * TWO_24);
  }

  lemma AppendShifted(before: seq<nat>, times: seq<nat>, shift: nat, x: nat)
    requires times != [] && ShiftedBy(before, times[..|times| - 1], shift) && x == times[|times| - 1] - shift
    ensures ShiftedBy(before + [x], times, shift)
  {
  }

  lemma GapAt(times: seq<nat>, i: nat)
    requires ShortGaps(times) && i + 1 < |times|
    ensures times[i] <= times[i + 1] < times[i] + TWO_24
  {
  }

  /** One more true time, once the earlier ones came out whole periods early. */
  lemma UnwrapNext(times: seq<nat>, before: seq<nat>, periods: nat)
    requires ShortGaps(times) && |times| >= 2 && before == Unwrap(times[..|times| - 1])
    requires ShiftedBy(before, times[..|times| - 1], periods * TWO_24)
    ensures ShiftedBy(Unwrap(times), times, periods * TWO_24)
  {
    var n := |times|;
    GapAt(times, n - 2);
    UnwrapLastIs(times, before[n - 2], periods);
    AppendShifted(before, times, periods * TWO_24, times[n - 1] - periods * TWO_24);
  }

  /** Unwrapping restores the true times exactly, up to the whole periods before the
      first one: every gap shorter than 2^24 comes out as it was. */
  lemma {:induction false} UnwrapIsExact(times: seq<nat>)
    requires ShortGaps(times)
    ensures times != [] ==> ShiftedBy(Unwrap(times), times, times[0] / TWO_24 * TWO_24)
  {
    if |times| == 1 {
      UnwrapLastIs(times, 0, times[0] / TWO_24);
    } else if times != [] {
      UnwrapIsExact(times[..|times| - 1]);
      UnwrapNext(times, Unwrap(times[..|times| - 1]), times[0] / TWO_24);
    }
  }

  // ----- the detectors of a region -----

  ghost predicate Distinct(ds: seq<PriDetector>) {
    forall i, j :: 0 <= i < j < |ds| ==> ds[i] != ds[j]
  }

  /** A detector is sound and has been reset after each of its reports. */
  ghost predicate Standing(d: PriDetector)
    reads d
  {
    d.Valid() && Answered(d.log)
  }

  /** It holds nothing later than `limit`. */
  ghost predicate Ready(d: PriDetector, limit: nat)
    reads d
  {
    Standing(d) && d.lastTs <= limit
  }

  ghost predicate AllReady(ds: seq<PriDetector>, limit: nat)
    reads ds
  {
    forall i :: 0 <= i < |ds| ==> Ready(ds[i], limit)
  }

  /** What the detectors have heard in their whole life and since they were last
      emptied, and how often each of them has reported. */
  datatype Books = Books(heard: seq<seq<Pulse>>, since: seq<seq<Pulse>>, reports: seq<nat>)

  /** Every detector has heard `out` beyond what it had, but those behind the one
      that reported without the last pulse. */
  ghost predicate Extended(now: seq<seq<Pulse>>, was: seq<seq<Pulse>>, out: seq<Pulse>, hit: Option<nat>) {
    && |now| == |was| && (hit.Some? ==> hit.value < |was| && out != [])
    && forall k :: 0 <= k < |was| ==> now[k] == was[k] + if hit.Some? && k > hit.value then out[..|out| - 1] else out
  }

  /** Only the detector that reported has reported once more. */
  ghost predicate Counted(now: seq<nat>, was: seq<nat>, hit: Option<nat>) {
    |now| == |was| && forall k :: 0 <= k < |was| ==> now[k] == was[k] + if hit == Some(k) then 1 else 0
  }

  /** No detector goes further back than what it held and `out`. */
  ghost predicate HeldSince(now: seq<seq<Pulse>>, was: seq<seq<Pulse>>, out: seq<Pulse>) {
    |now| == |was| && forall k :: 0 <= k < |was| ==> IsSuffix(now[k], was[k] + out)
  }

  /** `out` has been offered to the detectors; if one reported, `backing` ends with the
      last of it and goes back no further than what that detector held. */
  ghost predicate Booked(now: Books, was: Books, out: seq<Pulse>, hit: Option<nat>, backing: seq<Pulse>) {
    && Extended(now.heard, was.heard, out, hit) && Counted(now.reports, was.reports, hit)
    && |was.since| == |was.heard|
    && match hit
       case None => HeldSince(now.since, was.since, out)
       case Some(h) => IsSuffix(backing, was.since[h] + out)
  }

  lemma ExtendedByOne(now: seq<seq<Pulse>>, mid: seq<seq<Pulse>>, was: seq<seq<Pulse>>, out: seq<Pulse>, pulse: Pulse,
                      hit: Option<nat>)
    requires Extended(mid, was, out, None) && Extended(now, mid, [pulse], hit)
    ensures Extended(now, was, out + [pulse], hit)
  {
    assert (out + [pulse])[..|out|] == out;
    forall k | 0 <= k < |was|
      ensures now[k] == was[k] + if hit.Some? && k > hit.value then (out + [pulse])[..|out|] else out + [pulse]
    {
      assert mid[k] == was[k] + out;
      assert now[k] == mid[k] + if hit.Some? && k > hit.value then [] else [pulse];
    }
  }

  lemma SuffixThrough(a: seq<Pulse>, mid: seq<Pulse>, was: seq<Pulse>, out: seq<Pulse>, pulse: Pulse)
    requires IsSuffix(a, mid + [pulse]) && IsSuffix(mid, was + out)
    ensures IsSuffix(a, was + (out + [pulse]))
  {
    SuffixAppend(mid, was + out, pulse);
    assert was + (out + [pulse]) == (was + out) + [pulse];
  }

  lemma BookedNothing(b: Books)
    requires |b.heard| == |b.since| == |b.reports|
    ensures Booked(b, b, [], None, [])
  {
  }

  lemma BookedByOne(now: Books, mid: Books, was: Books, out: seq<Pulse>, pulse: Pulse, hit: Option<nat>,
      backing: seq<Pulse>)
    requires Booked(mid, was, out, None, []) && Booked(now, mid, [pulse], hit, backing)
    ensures Booked(now, was, out + [pulse], hit, backing)
  {
    ExtendedByOne(now.heard, mid.heard, was.heard, out, pulse, hit);
    match hit
    case None =>
      forall k | 0 <= k < |was.since| ensures IsSuffix(now.since[k], was.since[k] + (out + [pulse])) {
        SuffixThrough(now.since[k], mid.since[k], was.since[k], out, pulse);
      }
    case Some(h) => SuffixThrough(backing, mid.since[h], was.since[h], out, pulse);
  }

  lemma ToldIsHeard(log: seq<Event>, pulse: Pulse, m: Memory, hit: bool)
    ensures HeardPulses(log + Told(pulse, m, hit)) == HeardPulses(log) + [pulse]
    ensures Reports(log + Told(pulse, m, hit)) == Reports(log) + if hit then 1 else 0
  {
    var e := Hear(pulse, m, hit);
    HeardAppend(log, e);
    if hit {
      HeardAppend(log + [e], Event.Clear(pulse.ts));
      assert log + Told(pulse, m, true) == (log + [e]) + [Event.Clear(pulse.ts)];
    }
  }

  lemma ToldToAll(was: seq<seq<Event>>, now: seq<seq<Event>>, pulse: Pulse, memory: seq<Memory>, hit: Option<nat>)
    requires |was| == |now| == |memory| && (hit.Some? ==> hit.value < |was|)
    requires forall k :: 0 <= k < |was| ==>
      now[k] == was[k] + if hit.None? || k <= hit.value then Told(pulse, memory[k], hit == Some(k)) else []
    ensures forall k :: 0 <= k < |was| ==>
      HeardPulses(now[k]) == HeardPulses(was[k]) + if hit.Some? && k > hit.value then [] else [pulse]
    ensures forall k :: 0 <= k < |was| ==> Reports(now[k]) == Reports(was[k]) + if hit == Some(k) then 1 else 0
  {
    forall k | 0 <= k < |was|
      ensures HeardPulses(now[k]) == HeardPulses(was[k]) + if hit.Some? && k > hit.value then [] else [pulse]
      ensures Reports(now[k]) == Reports(was[k]) + if hit == Some(k) then 1 else 0
    {
      if hit.Some? && k > hit.value {
        assert now[k] == was[k];
      } else {
        ToldIsHeard(was[k], pulse, memory[k], hit == Some(k));
      }
    }
  }

  /** A reset detector is empty; another has heard the pulse, or was emptied by it. */
  lemma ToldSince(p: Pattern, log: seq<Event>, pulse: Pulse, m: Memory, hit: bool)
    requires p.ppb > 0
    ensures var since := Run(p, log + Told(pulse, m, hit)).1;
            since == [] || (!hit && since == Run(p, log).1 + [pulse])
  {
    var e := Hear(pulse, m, hit);
    RunAppend(p, log, e);
    if hit {
      RunAppend(p, log + [e], Event.Clear(pulse.ts));
      assert log + Told(pulse, m, true) == (log + [e]) + [Event.Clear(pulse.ts)];
    }
  }

  lemma ToldMeansRadar(p: Pattern, log: seq<Event>, pulse: Pulse, m: Memory)
    requires Usable(p) && Answered(log) && Faithful(p, log + Told(pulse, m, true))
    ensures RadarHeard(p, Run(p, log).1 + [pulse])
  {
    var events := log + Told(pulse, m, true);
    assert events[..|log|] == log && events[|log|] == Hear(pulse, m, true);
    DetectionIsSound(p, events, |log|);
  }

  // ----- the pulses of one event -----

  function LastStamp(out: seq<Pulse>, pre: nat): nat {
    if out == [] then pre else out[|out| - 1].ts
  }

  /** Half the width, and the stamp unwrapped against the last one. */
  function Deliver(p: Pulse, pre: nat): Pulse {
    Pulse(GetTs(p.ts, pre), p.width / 2, p.chirp)
  }

  /** What the first n raw pulses amount to: those of zero width are skipped, the others
      delivered one after the other. */
  function Delivered(raw: seq<Pulse>, n: nat, pre: nat): seq<Pulse>
    requires n <= |raw|
  {
    if n == 0 then []
    else
      var before, p := Delivered(raw, n - 1, pre), raw[n - 1];
      if p.width == 0 then before
      else before + [Deliver(p, LastStamp(before, pre))]
  }

  function Stamps(pulses: seq<Pulse>): seq<nat> {
    seq(|pulses|, i requires 0 <= i < |pulses| => pulses[i].ts)
  }

  /** The true times behind the first n raw pulses that are not skipped. */
  function KeptTimes(raw: seq<Pulse>, times: seq<nat>, n: nat): seq<nat>
    requires n <= |raw| == |times|
  {
    if n == 0 then []
    else if raw[n - 1].width == 0 then KeptTimes(raw, times, n - 1)
    else KeptTimes(raw, times, n - 1) + [times[n - 1]]
  }

  /** The raw stamps are the low 24 bits of the true times. */
  ghost predicate Sampled(raw: seq<Pulse>, times: seq<nat>) {
    |raw| == |times| && forall i :: 0 <= i < |raw| ==> raw[i].ts == times[i] % TWO_24
  }

  lemma StampsAppend(out: seq<Pulse>, pulse: Pulse)
    ensures Stamps(out + [pulse]) == Stamps(out) + [pulse.ts]
  {
  }

  lemma UnwrapAppend(times: seq<nat>, t: nat, out: seq<Pulse>)
    requires Stamps(out) == Unwrap(times)
    ensures Unwrap(times + [t]) == Unwrap(times) + [GetTs(t % TWO_24, LastStamp(out, 0))]
  {
    assert (times + [t])[..|times|] == times;
    assert |out| == |Stamps(out)|;
  }

  /** From a fresh start the delivered pulses carry exactly the unwrapped stamps of the
      true times behind them; skipped pulses do not matter. */
  lemma {:induction false} DeliveredIsUnwrapped(raw: seq<Pulse>, times: seq<nat>, n: nat)
    requires n <= |raw| && Sampled(raw, times)
    ensures Stamps(Delivered(raw, n, 0)) == Unwrap(KeptTimes(raw, times, n))
  {
    if n == 0 {
      assert Stamps(Delivered(raw, n, 0)) == [];
    } else {
      DeliveredIsUnwrapped(raw, times, n - 1);
      if raw[n - 1].width > 0 {
        var before := Delivered(raw, n - 1, 0);
        UnwrapAppend(KeptTimes(raw, times, n - 1), times[n - 1], before);
        StampsAppend(before, Deliver(raw[n - 1], LastStamp(before, 0)));
      }
    }
  }

  /** A whole event. */
  function DeliveredAll(raw: seq<Pulse>, pre: nat): seq<Pulse> {
    Delivered(raw, |raw|, pre)
  }

  /** What n events in a row deliver, each unwrapped against the last stamp before it. */
  function Stream(events: seq<seq<Pulse>>, n: nat, pre: nat): seq<Pulse>
    requires n <= |events|
  {
    if n == 0 then []
    else
      var before := Stream(events, n - 1, pre);
      before + DeliveredAll(events[n - 1], LastStamp(before, pre))
  }

  /** All raw pulses of the first n events. */
  function AllRaw(events: seq<seq<Pulse>>, n: nat): seq<Pulse>
    requires n <= |events|
  {
    if n == 0 then [] else AllRaw(events, n - 1) + events[n - 1]
  }

  lemma {:induction false} DeliveredPrefix(a: seq<Pulse>, b: seq<Pulse>, n: nat, pre: nat)
    requires n <= |a|
    ensures Delivered(a + b, n, pre) == Delivered(a, n, pre)
  {
    if n > 0 {
      DeliveredPrefix(a, b, n - 1, pre);
    }
  }

  lemma LastStampThrough(out: seq<Pulse>, more: seq<Pulse>, pre: nat)
    ensures LastStamp(out + more, pre) == LastStamp(more, LastStamp(out, pre))
  {
  }

  lemma {:induction false} DeliveredConcat(a: seq<Pulse>, b: seq<Pulse>, n: nat, pre: nat)
    requires n <= |b|
    ensures var out := Delivered(a, |a|, pre);
            Delivered(a + b, |a| + n, pre) == out + Delivered(b, n, LastStamp(out, pre))
  {
    var out := Delivered(a, |a|, pre);
    if n == 0 {
      DeliveredPrefix(a, b, |a|, pre);
    } else {
      DeliveredConcat(a, b, n - 1, pre);
      var more := Delivered(b, n - 1, LastStamp(out, pre));
      LastStampThrough(out, more, pre);
      assert (a + b)[|a| + n - 1] == b[n - 1];
      var next := Deliver(b[n - 1], LastStamp(out + more, pre));
      assert out + (more + [next]) == (out + more) + [next];
    }
  }

  lemma OneMoreEvent(out: seq<Pulse>, a: seq<Pulse>, b: seq<Pulse>, pre: nat)
    requires out == DeliveredAll(a, pre)
    ensures out + DeliveredAll(b, LastStamp(out, pre)) == DeliveredAll(a + b, pre)
  {
    DeliveredConcat(a, b, |b|, pre);
  }

  /** How the pulses are cut into events makes no difference. */
  lemma {:induction false} StreamIsOneEvent(events: seq<seq<Pulse>>, n: nat, pre: nat, all: seq<Pulse>)
    requires n <= |events| && all == AllRaw(events, n)
    ensures Stream(events, n, pre) == DeliveredAll(all, pre)
  {
    if n == 0 {
      assert all == [];
    } else {
      var before := AllRaw(events, n - 1);
      StreamIsOneEvent(events, n - 1, pre, before);
      OneMoreEvent(Stream(events, n - 1, pre), before, events[n - 1], pre);
    }
  }

  /** Over any number of events after a fresh start, with pulses skipped anywhere, the
      stamps delivered differ from the true times by one constant, as long as those
      delivered are less than 2^24 apart. */
  lemma StreamIsExact(events: seq<seq<Pulse>>, times: seq<nat>)
    requires Sampled(AllRaw(events, |events|), times)
    requires ShortGaps(KeptTimes(AllRaw(events, |events|), times, |times|))
    ensures var kept := KeptTimes(AllRaw(events, |events|), times, |times|);
            kept != [] ==> ShiftedBy(Stamps(Stream(events, |events|, 0)), kept, kept[0] / TWO_24 * TWO_24)
  {
    StreamIsOneEvent(events, |events|, 0, AllRaw(events, |events|));
    DeliveredIsUnwrapped(AllRaw(events, |events|), times, |times|);
    UnwrapIsExact(KeptTimes(AllRaw(events, |events|), times, |times|));
  }

  /** A reset adds nothing to what was heard or reported and empties the rest. */
  lemma ClearedBooks(p: Pattern, was: seq<Event>, now: seq<Event>)
    requires now == was + [Clear(0)]
    ensures HeardPulses(now) == HeardPulses(was) && Reports(now) == Reports(was)
    ensures p.ppb > 0 ==> Run(p, now).1 == []
  {
    HeardAppend(was, Clear(0));
    if p.ppb > 0 {
      RunAppend(p, was, Clear(0));
    }
  }

  class DetectorSet {
    var lastPulseTs: nat
    const detectors: seq<PriDetector>

    ghost predicate Valid()
      reads this, detectors
    {
      Distinct(detectors) && AllReady(detectors, lastPulseTs)
    }

    /** Wraps freshly initialised detectors. */
    constructor (ds: seq<PriDetector>)
      requires Distinct(ds) && AllReady(ds, 0)
      ensures Valid() && detectors == ds && lastPulseTs == 0
    {
      detectors := ds;
      lastPulseTs := 0;
    }

    /** One detector hears the pulse; the others do not notice. */
    method OfferAt(i: nat, pulse: Pulse, m: Memory) returns (hit: bool)
      requires Distinct(detectors) && AllReady(detectors, pulse.ts) && i < |detectors| && pulse.ts < TWO_64
      modifies detectors
      ensures AllReady(detectors, pulse.ts)
      ensures forall k :: 0 <= k < |detectors| ==>
        detectors[k].log == old(detectors[k].log) + if k == i then Told(pulse, m, hit) else []
    {
      assert Ready(detectors[i], pulse.ts);
      hit := detectors[i].Offer(pulse, m);
      forall k | 0 <= k < |detectors| ensures Ready(detectors[k], pulse.ts) {
        assert k != i ==> old(Ready(detectors[k], pulse.ts));
      }
    }

    /** skw_add_pulse: every detector up to the first that reports hears the pulse;
        that one is reset, later ones are left alone. */
    method AddPulse(pulse: Pulse, memory: seq<Memory>) returns (hit: Option<nat>)
      requires Valid() && |memory| == |detectors|
      requires lastPulseTs <= pulse.ts < TWO_64
      modifies this, detectors
      ensures Valid() && lastPulseTs == pulse.ts
      ensures hit.Some? ==> hit.value < |detectors|
      ensures forall i :: 0 <= i < |detectors| ==>
        detectors[i].log == old(detectors[i].log) +
          if hit.None? || i <= hit.value then Told(pulse, memory[i], hit == Some(i)) else []
    {
      ghost var logs := seq(|detectors|, k requires 0 <= k < |detectors| reads detectors => detectors[k].log);
      assert AllReady(detectors, pulse.ts) by {
        assert forall k :: 0 <= k < |detectors| ==> Ready(detectors[k], lastPulseTs);
      }
      lastPulseTs := pulse.ts;
      var i := 0;
      while i < |detectors|
        invariant 0 <= i <= |detectors| && lastPulseTs == pulse.ts
        invariant AllReady(detectors, pulse.ts)
        invariant forall k :: 0 <= k < i ==> detectors[k].log == logs[k] + Told(pulse, memory[k], false)
        invariant forall k :: i <= k < |detectors| ==> detectors[k].log == logs[k]
      {
        var reported := OfferAt(i, pulse, memory[i]);
        if reported {
          return Some(i);
        }
        i := i + 1;
      }
      return None;
    }

    /** One detector is reset; the others do not notice. */
    method ClearAt(i: nat)
      requires Distinct(detectors) && i < |detectors| && forall k :: 0 <= k < |detectors| ==> Standing(detectors[k])
      modifies detectors
      ensures forall k :: 0 <= k < |detectors| ==> Standing(detectors[k])
      ensures forall k :: 0 <= k < |detectors| ==>
        && detectors[k].lastTs == (if k == i then 0 else old(detectors[k].lastTs))
        && detectors[k].log == old(detectors[k].log) + if k == i then [Clear(0)] else []
    {
      assert Standing(detectors[i]);
      detectors[i].Clear(0);
      forall k | 0 <= k < |detectors| ensures Standing(detectors[k]) {
        assert old(Standing(detectors[k]));
      }
    }

    /** skw_dfs_reset */
    method ResetAll()
      requires Valid()
      modifies this, detectors
      ensures Valid() && lastPulseTs == 0
      ensures forall i :: 0 <= i < |detectors| ==> detectors[i].log == old(detectors[i].log) + [Clear(0)]
    {
      ghost var logs := seq(|detectors|, k requires 0 <= k < |detectors| reads detectors => detectors[k].log);
      assert forall k :: 0 <= k < |detectors| ==> Ready(detectors[k], lastPulseTs);
      for i := 0 to |detectors|
        invariant forall k :: 0 <= k < |detectors| ==> Standing(detectors[k])
        invariant forall k :: 0 <= k < i ==> detectors[k].lastTs == 0 && detectors[k].log == logs[k] + [Clear(0)]
        invariant forall k :: i <= k < |detectors| ==> detectors[k].log == logs[k]
      {
        ClearAt(i);
      }
      lastPulseTs := 0;
    }

    ghost function Logs(): (logs: seq<seq<Event>>)
      reads this, detectors
      ensures |logs| == |detectors| && forall k :: 0 <= k < |logs| ==> logs[k] == detectors[k].log
    {
      seq(|detectors|, k requires 0 <= k < |detectors| reads detectors => detectors[k].log)
    }

    ghost function Kept(): (b: Books)
      reads this, detectors
      ensures |b.heard| == |b.since| == |b.reports| == |detectors|
      ensures forall k :: 0 <= k < |detectors| ==>
        && b.heard[k] == HeardPulses(detectors[k].log) && b.since[k] == detectors[k].Since()
        && b.reports[k] == Reports(detectors[k].log)
    {
      Books(seq(|detectors|, k requires 0 <= k < |detectors| reads detectors => HeardPulses(detectors[k].log)),
            seq(|detectors|, k requires 0 <= k < |detectors| reads detectors => detectors[k].Since()),
            seq(|detectors|, k requires 0 <= k < |detectors| reads detectors => Reports(detectors[k].log)))
    }

    /** A pulse in terms of what the detectors have heard and reported in all. */
    method OfferPulse(pulse: Pulse, memory: seq<Memory>) returns (hit: Option<nat>)
      requires Valid() && |memory| == |detectors|
      requires lastPulseTs <= pulse.ts < TWO_64
      modifies this, detectors
      ensures Valid() && lastPulseTs == pulse.ts
      ensures forall i :: 0 <= i < |detectors| ==>
        detectors[i].log == old(detectors[i].log) +
          if hit.None? || i <= hit.value then Told(pulse, memory[i], hit == Some(i)) else []
      ensures Extended(Kept().heard, old(Kept()).heard, [pulse], hit)
      ensures Counted(Kept().reports, old(Kept()).reports, hit)
    {
      ghost var was := Logs();
      hit := AddPulse(pulse, memory);
      ToldToAll(was, Logs(), pulse, memory, hit);
    }

    /** And of what they have heard since they were last emptied: one that reports has
        a radar there that ends with this pulse. */
    method HearPulse(pulse: Pulse, memory: seq<Memory>) returns (hit: Option<nat>, ghost backing: seq<Pulse>)
      requires Valid() && |memory| == |detectors|
      requires lastPulseTs <= pulse.ts < TWO_64
      modifies this, detectors
      ensures Valid() && lastPulseTs == pulse.ts && Booked(Kept(), old(Kept()), [pulse], hit, backing)
      ensures hit.Some? ==>
        backing == old(Kept()).since[hit.value] + [pulse] && RadarHeard(detectors[hit.value].rpp, backing)
    {
      ghost var since := Kept().since;
      hit := OfferPulse(pulse, memory);
      backing := [];
      if hit.None? {
        forall k | 0 <= k < |detectors| ensures IsSuffix(Kept().since[k], since[k] + [pulse]) {
          assert Ready(detectors[k], lastPulseTs);
          ToldSince(detectors[k].rpp, old(detectors[k].log), pulse, memory[k], false);
        }
      } else {
        backing := since[hit.value] + [pulse];
        assert Ready(detectors[hit.value], lastPulseTs) && old(Ready(detectors[hit.value], lastPulseTs));
        ToldMeansRadar(detectors[hit.value].rpp, old(detectors[hit.value].log), pulse, memory[hit.value]);
      }
    }

    /** One raw pulse of positive width, unwrapped against the last stamp. Every detector
        up to the first that reports has heard it, and only that one reports: of a radar
        among the pulses heard since it was last emptied, this one being the last. */
    method HearRaw(p: Pulse, memory: seq<Memory>) returns (hit: Option<nat>, ghost backing: seq<Pulse>)
      requires Valid() && |memory| == |detectors| && p.ts < TWO_24 && lastPulseTs + TWO_24 <= TWO_64
      modifies this, detectors
      ensures Valid() && lastPulseTs == GetTs(p.ts, old(lastPulseTs)) < old(lastPulseTs) + TWO_24
      ensures Booked(Kept(), old(Kept()), [Pulse(lastPulseTs, p.width / 2, p.chirp)], hit, backing)
      ensures hit.Some? ==> RadarHeard(detectors[hit.value].rpp, backing)
      ensures hit.Some? ==> backing == old(Kept()).since[hit.value] + [Pulse(lastPulseTs, p.width / 2, p.chirp)]
    {
      var ts := GetTs(p.ts, lastPulseTs);
      GetTsFits(p.ts, lastPulseTs);
      hit, backing := HearPulse(Pulse(ts, p.width / 2, p.chirp), memory);
    }

    /** What the detectors keep through an idle gap: nothing since they were emptied. */
    ghost function KeptThrough(stale: bool): Books
      reads this, detectors
    {
      if stale then Kept().(since := seq(|detectors|, _ => [])) else Kept()
    }

    /** An idle gap of more than two bursts clears everything and is heard by nobody. */
    method ResetIf(stale: bool)
      requires Valid()
      modifies this, detectors
      ensures Valid() && lastPulseTs == if stale then 0 else old(lastPulseTs)
      ensures Kept() == old(KeptThrough(stale))
    {
      if stale {
        ResetAll();
        forall k | 0 <= k < |detectors|
          ensures Kept().heard[k] == old(Kept()).heard[k] && Kept().reports[k] == old(Kept()).reports[k]
          ensures Kept().since[k] == []
        {
          ClearedBooks(detectors[k].rpp, old(detectors[k].log), detectors[k].log);
        }
      }
    }

    /** One turn of the pulse loop. */
    method TakeRaw(raw: seq<Pulse>, i: nat, memory: seq<Memory>, ghost start: nat, ghost was: Books)
        returns (hit: Option<nat>, ghost backing: seq<Pulse>)
      requires Valid() && i < |raw| && raw[i].ts < TWO_24 && |memory| == |detectors|
      requires lastPulseTs + TWO_24 <= TWO_64 && lastPulseTs == LastStamp(Delivered(raw, i, start), start)
      requires Booked(Kept(), was, Delivered(raw, i, start), None, [])
      modifies this, detectors
      ensures Valid() && lastPulseTs < old(lastPulseTs) + TWO_24
      ensures lastPulseTs == LastStamp(Delivered(raw, i + 1, start), start)
      ensures Booked(Kept(), was, Delivered(raw, i + 1, start), hit, backing) && (hit.None? ==> backing == [])
      ensures hit.Some? ==> RadarHeard(detectors[hit.value].rpp, backing)
    {
      if raw[i].width == 0 {
        return None, [];
      }
      ghost var mid := Kept();
      hit, backing := HearRaw(raw[i], memory);
      ghost var pulse := Pulse(lastPulseTs, raw[i].width / 2, raw[i].chirp);
      BookedByOne(Kept(), mid, was, Delivered(raw, i, start), pulse, hit, backing);
      if hit.None? {
        backing := [];
      }
    }

    /** The pulse loop of skw_dfs_radar_pulse_event. */
    method PulseLoop(raw: seq<Pulse>, memory: seq<seq<Memory>>)
        returns (radar: bool, ghost n: nat, ghost hit: Option<nat>, ghost backing: seq<Pulse>)
      requires Valid() && |memory| == |raw| && forall i :: 0 <= i < |raw| ==> |memory[i]| == |detectors|
      requires forall i :: 0 <= i < |raw| ==> raw[i].ts < TWO_24
      requires lastPulseTs + |raw| * TWO_24 < TWO_64
      modifies this, detectors
      ensures Valid() && n <= |raw| && radar == hit.Some? && (!radar ==> n == |raw|)
      ensures lastPulseTs == LastStamp(Delivered(raw, n, old(lastPulseTs)), old(lastPulseTs))
      ensures Booked(Kept(), old(Kept()), Delivered(raw, n, old(lastPulseTs)), hit, backing)
      ensures radar ==> RadarHeard(detectors[hit.value].rpp, backing)
    {
      ghost var was, start := Kept(), lastPulseTs;
      n, backing := 0, [];
      BookedNothing(was);
      var i := 0;
      while i < |raw|
        invariant 0 <= i == n <= |raw| && Valid()
        invariant lastPulseTs + (|raw| - i) * TWO_24 < TWO_64
        invariant lastPulseTs == LastStamp(Delivered(raw, i, start), start)
        invariant Booked(Kept(), was, Delivered(raw, i, start), None, [])
      {
        var reporter;
        reporter, backing := TakeRaw(raw, i, memory[i], start, was);
        i := i + 1;
        n := n + 1;
        if reporter.Some? {
          return true, n, reporter, backing;
        }
      }
      return false, n, None, [];
    }

    /** skw_dfs_radar_pulse_event over raw 24-bit stamps. `n` raw pulses are taken, all
        of them unless one is reported. Every detector hears exactly what they amount to,
        except that those behind the reporting one miss the last pulse. Radar is announced
        if and only if a detector reports; then `backing`, the last pulses it heard and
        none from before its last reset, hold a radar that ends with the very last one. */
    method PulseEvent(stale: bool, raw: seq<Pulse>, memory: seq<seq<Memory>>)
        returns (radar: bool, ghost n: nat, ghost hit: Option<nat>, ghost backing: seq<Pulse>)
      requires Valid() && |memory| == |raw| && forall i :: 0 <= i < |raw| ==> |memory[i]| == |detectors|
      requires forall i :: 0 <= i < |raw| ==> raw[i].ts < TWO_24
      requires lastPulseTs + |raw| * TWO_24 < TWO_64
      modifies this, detectors
      ensures Valid() && n <= |raw| && radar == hit.Some? && (!radar ==> n == |raw|)
      ensures var start := if stale then 0 else old(lastPulseTs);
              && lastPulseTs == LastStamp(Delivered(raw, n, start), start)
              && Booked(Kept(), old(KeptThrough(stale)), Delivered(raw, n, start), hit, backing)
      ensures radar ==> RadarHeard(detectors[hit.value].rpp, backing)
    {
      ResetIf(stale);
      radar, n, hit, backing := PulseLoop(raw, memory);
    }
  }
}
