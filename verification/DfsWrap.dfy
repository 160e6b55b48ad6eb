/** What the truncation of a queued pulse's age to 32 bits changes, exactly: which
    candidates the scan creates that it should not, and when it creates one. */
module DfsWrap {
  import opened CInt
  import opened DfsPattern
  import opened DfsScan
  import opened DfsSound
  import opened Optional

  /** The scan reaches queue position `i`, whose pulse is 2^32 ticks old or more, and
      takes its truncated age for an interval of the pattern. */
  ghost predicate WrapsAt(p: Pattern, ts: nat, pulses: seq<nat>, i: nat) {
    && i < |pulses| && ts - pulses[i] >= TWO_32
    && p.priMin <= U32(ts - pulses[i]) <= p.priMax
    && forall j :: 0 <= j < i ==> U32(ts - pulses[j]) <= p.priMax
  }

  /** Such a position exists, and a bare pair of pulses is enough for a sequence. */
  ghost predicate Wraps(p: Pattern, ts: nat, minCount: nat, pulses: seq<nat>) {
    minCount < 2 && exists i :: WrapsAt(p, ts, pulses, i)
  }

  lemma WrapsTail(p: Pattern, ts: nat, minCount: nat, pulses: seq<nat>)
    requires pulses != []
    ensures var delta := U32(ts - pulses[0]);
            Wraps(p, ts, minCount, pulses) <==>
              && minCount < 2 && delta <= p.priMax
              && ((ts - pulses[0] >= TWO_32 && p.priMin <= delta) || Wraps(p, ts, minCount, pulses[1..]))
  {
    var tail := pulses[1..];
    forall i: nat | WrapsAt(p, ts, pulses, i) && i > 0
      ensures WrapsAt(p, ts, tail, i - 1) && U32(ts - pulses[0]) <= p.priMax
    {
      assert forall j :: 0 <= j < i - 1 ==> tail[j] == pulses[j + 1];
    }
    forall i: nat | WrapsAt(p, ts, tail, i) && U32(ts - pulses[0]) <= p.priMax
      ensures WrapsAt(p, ts, pulses, i + 1)
    {
      forall j | 0 <= j < i + 1 ensures U32(ts - pulses[j]) <= p.priMax {
        assert j > 0 ==> pulses[j] == tail[j - 1];
      }
    }
    if ts - pulses[0] >= TWO_32 && p.priMin <= U32(ts - pulses[0]) <= p.priMax {
      assert WrapsAt(p, ts, pulses, 0);
    }
  }

  /** A queue all of whose pulses are that old yields nothing, unless the age wraps. */
  lemma {:induction false} StaleScan(p: Pattern, ts: nat, minCount: nat, pulses: seq<nat>, made: seq<PriSequence>)
    requires Usable(p) && ts < TWO_64 && NewestFirst(pulses) && NotAfter(pulses, ts)
    requires forall i :: 0 <= i < |pulses| ==> ts - pulses[i] >= TWO_32
    ensures CreateScan(p, ts, minCount, pulses, made) == made <==> !Wraps(p, ts, minCount, pulses)
    decreases |pulses|
  {
    if pulses != [] {
      WrapsTail(p, ts, minCount, pulses);
      var delta := U32(ts - pulses[0]);
      if delta < p.priMin {
        StaleScan(p, ts, minCount, pulses[1..], made);
      } else if delta <= p.priMax {
        StaleCandidate(p, ts, pulses[0], pulses[1..]);
        if minCount < 2 {
          CreateScanKeepsMade(p, ts, minCount, pulses[1..], [Candidate(p, ts, pulses[0], pulses[1..])] + made);
        } else {
          StaleScan(p, ts, minCount, pulses[1..], made);
        }
      }
    }
  }

  /** The two early exits lose nothing, and the whole scan is exact, if and only if no
      queued pulse is reached whose age wraps into the pattern's range. */
  lemma {:induction false} CreateScanExactly(p: Pattern, ts: nat, minCount: nat, pulses: seq<nat>,
      made: seq<PriSequence>)
    requires Usable(p) && ts < TWO_64 && NewestFirst(pulses) && NotAfter(pulses, ts)
    ensures CreateScan(p, ts, minCount, pulses, made) == CreateOfAll(p, ts, minCount, pulses, made)
       <==> !Wraps(p, ts, minCount, pulses)
    decreases |pulses|
  {
    if pulses != [] {
      var delta := ts - pulses[0];
      if delta >= TWO_32 {
        NothingInRange(p, ts, minCount, pulses, made);
        StaleScan(p, ts, minCount, pulses, made);
      } else {
        WrapsTail(p, ts, minCount, pulses);
        ScanRecent(p, ts, minCount, pulses, made);
        if delta > p.priMax {
          NothingInRange(p, ts, minCount, pulses, made);
        } else {
          AllRecent(p, ts, minCount, pulses, made);
          CreateScanExactly(p, ts, minCount, pulses[1..], WithHead(p, ts, minCount, pulses, made));
        }
      }
    }
  }

  /** What a recent pulse adds before the scan goes on. */
  function WithHead(p: Pattern, ts: nat, minCount: nat, pulses: seq<nat>, made: seq<PriSequence>): seq<PriSequence>
    requires p.ppb > 0 && pulses != []
  {
    var c := Candidate(p, ts, pulses[0], pulses[1..]);
    if p.priMin <= ts - pulses[0] <= p.priMax && c.count > minCount then [c] + made else made
  }

  lemma ScanRecent(p: Pattern, ts: nat, minCount: nat, pulses: seq<nat>, made: seq<PriSequence>)
    requires Usable(p) && pulses != [] && 0 <= ts - pulses[0] < TWO_32
    ensures CreateScan(p, ts, minCount, pulses, made)
         == if ts - pulses[0] > p.priMax then made
            else CreateScan(p, ts, minCount, pulses[1..], WithHead(p, ts, minCount, pulses, made))
  {
    var delta := U32(ts - pulses[0]);
    assert delta == ts - pulses[0];
  }

  lemma AllRecent(p: Pattern, ts: nat, minCount: nat, pulses: seq<nat>, made: seq<PriSequence>)
    requires p.ppb > 0 && NewestFirst(pulses) && pulses != []
    ensures CreateOfAll(p, ts, minCount, pulses, made)
         == CreateOfAll(p, ts, minCount, pulses[1..], WithHead(p, ts, minCount, pulses, made))
  {
    SameCandidate(p, ts, pulses[0], pulses[1..]);
  }
}
