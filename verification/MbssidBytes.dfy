/** Walks over element bytes as received, whole elements or not. */
module MbssidBytes {
  import opened ByteBuffer
  import opened Elements
  import opened Optional
  import opened MbssidMerge

  /** A whole element begins at `p`. */
  predicate WholeAt(b: seq<byte>, p: nat) {
    p + 1 < |b| && p + SizeAt(b, p) <= |b|
  }

  /** Where cfg80211_find_ie finds the first element with this id, from `p` on. */
  function FindAt(b: seq<byte>, p: nat, id: byte): (r: Option<nat>)
    ensures r.Some? ==> p <= r.value && WholeAt(b, r.value) && b[r.value] == id
    decreases |b| - p
  {
    if !WholeAt(b, p) then None
    else if b[p] == id then Some(p)
    else FindAt(b, p + SizeAt(b, p), id)
  }

  /** The elements the loop over the old elements stands on, from `p` on. It steps
      over a zero byte, not over the element that byte may begin, and reads the
      length byte before it knows that it is there: None. */
  function Visited(b: seq<byte>, p: nat): Option<seq<Elem>>
    decreases |b| - p
  {
    if p + 1 >= |b| then None
    else if p + SizeAt(b, p) > |b| then Some([])
    else if b[p] == 0 then Visited(b, p + 1)
    else if p + SizeAt(b, p) == |b| then Some([ElementFrom(b, p)])
    else
      match Visited(b, p + SizeAt(b, p))
      case None => None
      case Some(rest) => Some([ElementFrom(b, p)] + rest)
  }

  /** The walk begins behind the SSID, or at the first byte. */
  function WalkStart(ie: seq<byte>): nat {
    match FindAt(ie, 0, SSID)
    case None => 0
    case Some(p) => p + SizeAt(ie, p)
  }

  /** The old elements of the merge, if the walk stays inside the bytes. */
  function OldElements(ie: seq<byte>): Option<seq<Elem>> {
    Visited(ie, WalkStart(ie))
  }

  lemma VisitedStep(b: seq<byte>, p: nat, es: seq<Elem>)
    requires WholeAt(b, p) && b[p] != 0 && Visited(b, p) == Some(es)
    ensures es != [] && es[0] == ElementFrom(b, p)
    ensures if p + SizeAt(b, p) == |b| then es[1..] == [] else Visited(b, p + SizeAt(b, p)) == Some(es[1..])
  {
  }

  /** The walk stands at `p` with the elements from `n` on to come. */
  ghost predicate Stands(b: seq<byte>, p: nat, all: seq<Elem>, n: nat) {
    n <= |all| && p + 1 < |b| && Visited(b, p) == Some(all[n..])
  }

  lemma StandsOnZero(b: seq<byte>, p: nat, all: seq<Elem>, n: nat)
    requires Stands(b, p, all, n) && WholeAt(b, p) && b[p] == 0
    ensures Stands(b, p + 1, all, n)
  {
  }

  lemma StandsOnElement(b: seq<byte>, p: nat, next: nat, all: seq<Elem>, n: nat)
    requires Stands(b, p, all, n) && WholeAt(b, p) && b[p] != 0 && next == p + SizeAt(b, p)
    ensures n < |all| && all[n] == ElementFrom(b, p)
    ensures if next == |b| then n + 1 == |all| else Stands(b, next, all, n + 1)
  {
    VisitedStep(b, p, all[n..]);
    assert all[n..][1..] == all[n + 1..];
  }

  lemma StandsAtEnd(b: seq<byte>, p: nat, all: seq<Elem>, n: nat)
    requires Stands(b, p, all, n) && !WholeAt(b, p)
    ensures n == |all|
  {
  }

  /** No visited element has id 0, and together they fit in what is walked over. */
  lemma {:induction false} VisitedFits(b: seq<byte>, p: nat)
    requires Visited(b, p).Some?
    ensures NoSsid(Visited(b, p).value)
    ensures p + |EncodeAll(Visited(b, p).value)| <= |b|
    decreases |b| - p
  {
    if WholeAt(b, p) {
      var es := Visited(b, p).value;
      if b[p] == 0 {
        VisitedFits(b, p + 1);
      } else {
        VisitedStep(b, p, es);
        if p + SizeAt(b, p) < |b| {
          VisitedFits(b, p + SizeAt(b, p));
        }
        assert es == [es[0]] + es[1..];
      }
    }
  }

  // ----- whole elements and a tail -----

  /** The whole elements the bytes begin with, from `p` on. */
  function Leading(b: seq<byte>, p: nat): seq<Elem>
    decreases |b| - p
  {
    if !WholeAt(b, p) then [] else [ElementFrom(b, p)] + Leading(b, p + SizeAt(b, p))
  }

  /** The bytes are these elements, each at its position, and a tail too short for
      another one. */
  ghost predicate Holds(b: seq<byte>, es: seq<Elem>) {
    && Position(es, |es|) <= |b| && !WholeAt(b, Position(es, |es|))
    && forall k :: 0 <= k < |es| ==> ElementAt(b, es, k)
  }

  /** A walk that reads the length byte before it tests for the end stays inside
      `len` bytes of which `n` are whole elements. */
  predicate TailIsSafe(len: nat, n: nat) {
    n + 2 <= len || 0 < n == len
  }

  lemma {:induction false} LeadingEnds(b: seq<byte>, p: nat)
    requires p <= |b|
    ensures var n := |EncodeAll(Leading(b, p))|;
            p + n <= |b| && b[p..p + n] == EncodeAll(Leading(b, p)) && !WholeAt(b, p + n)
    decreases |b| - p
  {
    if WholeAt(b, p) {
      var next := p + SizeAt(b, p);
      LeadingEnds(b, next);
      assert Leading(b, p)[1..] == Leading(b, next);
      assert Encode(ElementFrom(b, p)) == b[p..next];
    }
  }

  lemma LeadingHeld(b: seq<byte>)
    ensures Holds(b, Leading(b, 0))
    ensures Position(Leading(b, 0), |Leading(b, 0)|) == |EncodeAll(Leading(b, 0))| <= |b|
  {
    var es := Leading(b, 0);
    var n := |EncodeAll(es)|;
    LeadingEnds(b, 0);
    EncodeLaid(es);
    assert b == b[..n] + b[n..];
    forall k | 0 <= k < |es| ensures ElementAt(b, es, k) {
      assert ElementAt(b[..n], es, k);
      OccupiesAppend(b[..n], b[n..], Position(es, k), es[k]);
    }
  }

  /** Whole elements have no tail. */
  lemma {:induction false} LeadingOfWhole(b: seq<byte>, p: nat)
    requires WholeFrom(b, p)
    ensures Leading(b, p) == ParseFrom(b, p)
    decreases |b| - p
  {
    if p < |b| {
      LeadingOfWhole(b, p + SizeAt(b, p));
    }
  }

  // ----- on whole elements -----

  /** Where the elements from `k` on begin. */
  lemma {:induction false} FindAtParsed(b: seq<byte>, p: nat, id: byte)
    requires WholeFrom(b, p)
    ensures match FindAt(b, p, id)
            case None => FindId(ParseFrom(b, p), 0, id).None?
            case Some(q) =>
              && WholeFrom(b, q) && FindId(ParseFrom(b, p), 0, id).Some?
              && ParseFrom(b, q) == ParseFrom(b, p)[FindId(ParseFrom(b, p), 0, id).value..]
    decreases |b| - p
  {
    if p < |b| && b[p] != id {
      var es, next := ParseFrom(b, p), p + SizeAt(b, p);
      FindAtParsed(b, next, id);
      assert es[1..] == ParseFrom(b, next);
      FindIdTail(es, 0, id);
      if FindAt(b, next, id).Some? {
        var k := FindId(es[1..], 0, id).value;
        assert es[1..][k..] == es[k + 1..];
      }
    }
  }

  lemma {:induction false} FindIdTail(es: seq<Elem>, i: nat, id: byte)
    requires i < |es|
    ensures match FindId(es[1..], i, id)
            case None => FindId(es, i + 1, id).None?
            case Some(k) => FindId(es, i + 1, id) == Some(k + 1)
    decreases |es| - i
  {
    if i + 1 < |es| {
      FindIdTail(es, i + 1, id);
    }
  }

  lemma {:induction false} VisitedParsed(b: seq<byte>, p: nat)
    requires WholeFrom(b, p) && p < |b| && NoSsid(ParseFrom(b, p))
    ensures Visited(b, p) == Some(ParseFrom(b, p))
    decreases |b| - p
  {
    var es, next := ParseFrom(b, p), p + SizeAt(b, p);
    assert es[0] == ElementFrom(b, p) && es[1..] == ParseFrom(b, next);
    assert b[p] != 0;
    if next < |b| {
      assert NoSsid(es[1..]);
      VisitedParsed(b, next);
    } else {
      assert es == [es[0]];
    }
  }

  /** Of whole elements, the walk visits just those behind the SSID if there are
      some and no further one has id 0, and only then. */
  lemma OldElementsExactly(ie: seq<byte>)
    requires WellFormed(ie)
    ensures var after := AfterSsid(Parse(ie));
            OldElements(ie) == Some(after) <==> after != [] && NoSsid(after)
  {
    StartsBehindSsid(ie);
    NothingParsed(ie, WalkStart(ie), AfterSsid(Parse(ie)));
    var after, start := AfterSsid(Parse(ie)), WalkStart(ie);
    if OldElements(ie) == Some(after) {
      VisitedFits(ie, start);
    } else if after != [] && NoSsid(after) {
      VisitedParsed(ie, start);
    }
  }

  /** Whole elements without a second id 0 make the loop read a length byte beyond them
      exactly when nothing stands behind the SSID; nothing there is always read beyond. */
  lemma RunsOutExactly(ie: seq<byte>)
    requires WellFormed(ie)
    ensures AfterSsid(Parse(ie)) == [] ==> OldElements(ie).None?
    ensures NoSsid(AfterSsid(Parse(ie))) ==> (OldElements(ie).None? <==> AfterSsid(Parse(ie)) == [])
  {
    OldElementsExactly(ie);
    StartsBehindSsid(ie);
    NothingParsed(ie, WalkStart(ie), AfterSsid(Parse(ie)));
  }

  lemma StartsBehindSsid(ie: seq<byte>)
    requires WellFormed(ie)
    ensures WholeFrom(ie, WalkStart(ie)) && ParseFrom(ie, WalkStart(ie)) == AfterSsid(Parse(ie))
  {
    FindAtParsed(ie, 0, SSID);
    var es := Parse(ie);
    match FindAt(ie, 0, SSID)
    case None => assert WalkStart(ie) == 0 && AfterSsid(es) == es;
    case Some(q) =>
      var k := FindId(es, 0, SSID).value;
      ParsedBehind(ie, q, es, k);
      assert WalkStart(ie) == q + SizeAt(ie, q) && AfterSsid(es) == es[k + 1..];
  }

  lemma NothingParsed(b: seq<byte>, p: nat, es: seq<Elem>)
    requires WholeFrom(b, p) && ParseFrom(b, p) == es
    ensures es == [] <==> p == |b|
  {
  }

  lemma ParsedBehind(b: seq<byte>, q: nat, es: seq<Elem>, k: nat)
    requires WholeFrom(b, q) && q < |b| && k < |es| && ParseFrom(b, q) == es[k..]
    ensures WholeFrom(b, q + SizeAt(b, q)) && ParseFrom(b, q + SizeAt(b, q)) == es[k + 1..]
  {
    assert ParseFrom(b, q)[1..] == ParseFrom(b, q + SizeAt(b, q));
    assert es[k..][1..] == es[k + 1..];
  }

  /** A beacon that ends with its SSID. */
  lemma SsidAloneRunsOut()
    ensures var ie := [SSID, 1, 65]; WellFormed(ie) && OldElements(ie).None?
  {
    var ie: seq<byte> := [SSID, 1, 65];
    assert WholeFrom(ie, 3) && FindAt(ie, 0, SSID) == Some(0);
  }

  /** A second SSID is not skipped: its length byte is taken for an id. */
  lemma SecondSsidIsMisread()
    ensures var ie := [0, 0, 0, 2, 1, 7];
            && WellFormed(ie) && Parse(ie) == [Elem(SSID, []), Elem(SSID, [1, 7])]
            && OldElements(ie) == Some([Elem(2, [7])])
  {
    var ie: seq<byte> := [0, 0, 0, 2, 1, 7];
    assert WholeFrom(ie, 6) && WholeFrom(ie, 2);
    assert ie[4..6] == [1, 7] && ie[5..6] == [7] && ie[2..2] == [];
    assert ElementFrom(ie, 2) == Elem(SSID, [1, 7]);
    assert ParseFrom(ie, 2) == [ElementFrom(ie, 2)] + ParseFrom(ie, 6);
    assert FindAt(ie, 0, SSID) == Some(0);
    assert Visited(ie, 3) == Some([ElementFrom(ie, 3)]) && ElementFrom(ie, 3) == Elem(2, [7]);
    assert Visited(ie, 2) == Visited(ie, 3);
  }
}
