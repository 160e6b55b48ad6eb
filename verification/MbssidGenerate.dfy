/** skw_gen_new_ie: the buffers end up holding the encoded merge. */
module MbssidGenerate {
  import opened ByteBuffer
  import opened CInt
  import opened Elements
  import opened Optional
  import opened MbssidMerge
  import opened MbssidSize
  import opened MbssidBuffer
  import opened MbssidBytes

  /** The bytes of the rendered origins. */
  function Rendered(os: seq<Origin>, sub: seq<Elem>, olds: seq<Elem>): seq<byte>
    requires forall j :: 0 <= j < |os| ==> Known(os[j], sub, olds)
  {
    EncodeAll(Render(os, sub, olds))
  }

  lemma RenderedConcat(a: seq<Origin>, b: seq<Origin>, sub: seq<Elem>, olds: seq<Elem>)
    requires AllKnown(a, sub, olds) && AllKnown(b, sub, olds)
    ensures AllKnown(a + b, sub, olds)
    ensures Rendered(a + b, sub, olds) == Rendered(a, sub, olds) + Rendered(b, sub, olds)
  {
    EncodeAllConcat(Render(a, sub, olds), Render(b, sub, olds));
    assert Render(a + b, sub, olds) == Render(a, sub, olds) + Render(b, sub, olds);
  }

  lemma RenderedOne(o: Origin, sub: seq<Elem>, olds: seq<Elem>)
    requires Known(o, sub, olds)
    ensures Rendered([o], sub, olds) == Encode(Source(o, sub, olds))
  {
    EncodeOne(Source(o, sub, olds));
    assert Render([o], sub, olds) == [Source(o, sub, olds)];
  }

  lemma RenderedNone(sub: seq<Elem>, olds: seq<Elem>)
    ensures Rendered([], sub, olds) == []
  {
  }

  /** What has been written after the first n old elements. */
  function Written(sub: seq<Elem>, olds: seq<Elem>, ni: Option<Elem>, n: nat): seq<byte>
    requires n <= |olds| && forall i :: 0 <= i < |olds| ==> Usable(olds[i]) && olds[i].id != SSID
  {
    assert AllKnown(Walk(sub, olds, ni, n).origins, sub, olds) by { WalkTracks(sub, olds, ni, n); }
    Rendered(NewSsid(sub), sub, olds) + Rendered(Walk(sub, olds, ni, n).origins, sub, olds)
  }

  lemma FateOutput(sub: seq<Elem>, olds: seq<Elem>, ni: Option<Elem>, n: nat)
    requires n < |olds| && AllUsable(olds) && NoSsid(olds)
    ensures var fate, cur := FateAt(sub, olds, ni, n), Walk(sub, olds, ni, n).cur;
            && AllKnown(Emitted(fate, n), sub, olds)
            && Rendered(Emitted(fate, n), sub, olds) == Output(fate, cur, olds[n])
  {
    var fate, cur := FateAt(sub, olds, ni, n), Walk(sub, olds, ni, n).cur;
    match fate
    case Kept => RenderedOne(FromOld(n), sub, olds);
    case Dropped => RenderedNone(sub, olds);
    case Replaced(k) =>
      WalkTracks(sub, olds, ni, n);
      assert Tracked(sub, Walk(sub, olds, ni, n), k);
      RenderedOne(FromSub(k), sub, olds);
  }

  /** One turn writes its output behind what is there. */
  lemma WrittenStep(sub: seq<Elem>, olds: seq<Elem>, ni: Option<Elem>, n: nat)
    requires n < |olds| && AllUsable(olds) && NoSsid(olds)
    ensures var fate, cur := FateAt(sub, olds, ni, n), Walk(sub, olds, ni, n).cur;
            && Written(sub, olds, ni, n + 1) == Written(sub, olds, ni, n) + Output(fate, cur, olds[n])
            && Walk(sub, olds, ni, n + 1).cur == if fate.Replaced? then Spend(cur, fate.slot) else cur
  {
    WalkStep(sub, olds, ni, n);
    WalkTracks(sub, olds, ni, n);
    FateOutput(sub, olds, ni, n);
    RenderedConcat(Walk(sub, olds, ni, n).origins, Emitted(FateAt(sub, olds, ni, n), n), sub, olds);
  }

  lemma WrittenFits(sub: seq<Elem>, olds: seq<Elem>, ni: Option<Elem>, n: nat)
    requires n <= |olds| && AllUsable(olds) && NoSsid(olds)
    ensures |Written(sub, olds, ni, n)| <= Position(olds, |olds|) + Position(sub, |sub|)
  {
    WalkBytes(sub, olds, ni, n);
    SsidBytes(sub, olds);
    BytesIsLength(NewSsid(sub), sub, olds);
    BytesIsLength(Walk(sub, olds, ni, n).origins, sub, olds);
    PositionOrder(olds, n, |olds|);
  }

  lemma UntouchedKeepsId(sub: seq<Elem>, olds: seq<Elem>, ni: Option<Elem>, k: nat)
    requires AllUsable(olds) && NoSsid(olds) && k < |sub|
    ensures InProfile(Walk(sub, olds, ni, |olds|).cur[k].id) ==> Walk(sub, olds, ni, |olds|).cur[k] == sub[k]
  {
    WalkTracks(sub, olds, ni, |olds|);
    assert Tracked(sub, Walk(sub, olds, ni, |olds|), k);
  }

  lemma RenderedAppend(os: seq<Origin>, o: Origin, sub: seq<Elem>, olds: seq<Elem>)
    requires AllKnown(os, sub, olds) && Known(o, sub, olds)
    ensures AllKnown(os + [o], sub, olds)
    ensures Rendered(os + [o], sub, olds) == Rendered(os, sub, olds) + Encode(Source(o, sub, olds))
  {
    RenderedConcat(os, [o], sub, olds);
    RenderedOne(o, sub, olds);
  }

  lemma {:induction false} UnspentRendered(prefix: seq<byte>, sub: seq<Elem>, olds: seq<Elem>, cur: seq<Elem>, m: nat)
    requires m <= |cur| == |sub|
    requires forall k :: 0 <= k < |sub| ==> InProfile(cur[k].id) ==> cur[k] == sub[k]
    ensures AllKnown(Unspent(cur, m), sub, olds)
    ensures Appended(prefix, cur, m) == prefix + Rendered(Unspent(cur, m), sub, olds)
  {
    if m == 0 {
      RenderedNone(sub, olds);
    } else {
      UnspentRendered(prefix, sub, olds, cur, m - 1);
      var before := Unspent(cur, m - 1);
      if InProfile(cur[m - 1].id) {
        assert Unspent(cur, m) == before + [FromSub(m - 1)];
        RenderedAppend(before, FromSub(m - 1), sub, olds);
        var bytes, last := Rendered(before, sub, olds), Encode(cur[m - 1]);
        assert prefix + (bytes + last) == (prefix + bytes) + last;
      } else {
        assert Unspent(cur, m) == before;
      }
    }
  }

  /** The whole merge is what the walk wrote and then the unspent elements. */
  lemma MergeIsWritten(sub: seq<Elem>, olds: seq<Elem>, ni: Option<Elem>)
    requires AllUsable(olds) && NoSsid(olds)
    ensures EncodeAll(Merge(sub, olds, ni))
         == Appended(Written(sub, olds, ni, |olds|), Walk(sub, olds, ni, |olds|).cur, |sub|)
  {
    var p := Walk(sub, olds, ni, |olds|);
    WalkTracks(sub, olds, ni, |olds|);
    forall k | 0 <= k < |sub| ensures InProfile(p.cur[k].id) ==> p.cur[k] == sub[k] {
      UntouchedKeepsId(sub, olds, ni, k);
    }
    UnspentRendered(Written(sub, olds, ni, |olds|), sub, olds, p.cur, |sub|);
    SsidBytes(sub, olds);
    RenderedConcat(NewSsid(sub), p.origins, sub, olds);
    RenderedConcat(NewSsid(sub) + p.origins, Unspent(p.cur, |sub|), sub, olds);
  }

  lemma SpentUsable(sub: seq<Elem>, olds: seq<Elem>, ni: Option<Elem>, n: nat)
    requires n <= |olds| && AllUsable(olds) && NoSsid(olds) && AllUsable(sub)
    ensures AllUsable(Walk(sub, olds, ni, n).cur)
  {
    WalkTracks(sub, olds, ni, n);
    forall k | 0 <= k < |sub| ensures Usable(Walk(sub, olds, ni, n).cur[k]) {
      assert Tracked(sub, Walk(sub, olds, ni, n), k);
    }
  }

  /** What the loop over the old elements keeps: the scratch copy and the output
      are where the walk is after n of them. */
  ghost predicate Copied(subCopy: seq<byte>, newIe: seq<byte>, pos: nat, sub: seq<Elem>, olds: seq<Elem>,
      ni: Option<Elem>, n: nat)
    requires n <= |olds| && AllUsable(olds) && NoSsid(olds)
  {
    && Holds(subCopy, Walk(sub, olds, ni, n).cur)
    && pos <= |newIe| && newIe[..pos] == Written(sub, olds, ni, n)
  }

  /** One turn of the loop, against the walk. */
  method OldTurn(was: Elem, ni: Option<Elem>, subCopy: array<byte>, newIe: array<byte>, pos: nat,
      ghost sub: seq<Elem>, ghost olds: seq<Elem>, ghost n: nat) returns (next: nat)
    requires AllUsable(olds) && NoSsid(olds) && AllUsable(sub) && n < |olds| && was == olds[n] && subCopy != newIe
    requires Position(olds, |olds|) + Position(sub, |sub|) <= newIe.Length
    requires Copied(subCopy[..], newIe[..], pos, sub, olds, ni, n)
    modifies subCopy, newIe
    ensures Copied(subCopy[..], newIe[..], next, sub, olds, ni, n + 1)
  {
    WrittenStep(sub, olds, ni, n);
    WrittenFits(sub, olds, ni, n + 1);
    SpentUsable(sub, olds, ni, n);
    ghost var cur := Walk(sub, olds, ni, n).cur;
    assert newIe[..pos] == newIe[..][..pos];
    next, cur := HandleOld(was, ni, subCopy, newIe, pos, cur);
    assert newIe[..next] == newIe[..][..next];
  }

  /** The loop over the old elements, from `start` on. */
  method WalkOlds(ie: seq<byte>, subCopy: array<byte>, newIe: array<byte>, start: nat, from: nat, ni: Option<Elem>,
      ghost sub: seq<Elem>, ghost olds: seq<Elem>) returns (pos: nat)
    requires Stands(ie, from, olds, 0) && AllUsable(olds) && NoSsid(olds) && AllUsable(sub) && subCopy != newIe
    requires Position(olds, |olds|) + Position(sub, |sub|) <= newIe.Length
    requires Copied(subCopy[..], newIe[..], start, sub, olds, ni, 0)
    modifies subCopy, newIe
    ensures Copied(subCopy[..], newIe[..], pos, sub, olds, ni, |olds|)
  {
    ghost var n := 0;
    pos := start;
    var tmpOld := from;
    while tmpOld + ie[tmpOld + 1] as int + 2 <= |ie|
      invariant Stands(ie, tmpOld, olds, n)
      invariant Copied(subCopy[..], newIe[..], pos, sub, olds, ni, n)
      decreases |ie| - tmpOld
    {
      if ie[tmpOld] == 0 {
        StandsOnZero(ie, tmpOld, olds, n);
        tmpOld := tmpOld + 1;
        continue;
      }
      var next := tmpOld + ie[tmpOld + 1] as int + 2;
      StandsOnElement(ie, tmpOld, next, olds, n);
      pos := OldTurn(ElementFrom(ie, tmpOld), ni, subCopy, newIe, pos, sub, olds, n);
      n := n + 1;
      if next == |ie| {
        return;
      }
      tmpOld := next;
    }
    StandsAtEnd(ie, tmpOld, olds, n);
  }

  /** The non-inheritance element as the source looks it up. */
  method FindNonInheritance(subCopy: array<byte>, niOffset: nat, ghost sub: seq<Elem>) returns (ni: Option<Elem>)
    requires Holds(subCopy[..], sub) && niOffset != 1 && niOffset < TWO_32
    ensures ni == NonInheritance(sub, niOffset)
  {
    var tmp := FindElem(EXTENSION, subCopy[..], [NON_INHERITANCE], niOffset, sub);
    if tmp.None? {
      return None;
    }
    ghost var k := FindMatch(sub, 0, EXTENSION, [NON_INHERITANCE], niOffset).value;
    HeldElement(subCopy[..], sub, k);
    ni := Some(ElementFrom(subCopy[..], tmp.value));
  }

  /** The profile's SSID goes first. */
  method WriteSsid(subCopy: array<byte>, newIe: array<byte>, ni: Option<Elem>, ghost sub: seq<Elem>,
      ghost olds: seq<Elem>)
      returns (pos: nat)
    requires Holds(subCopy[..], sub) && subCopy != newIe && AllUsable(olds) && NoSsid(olds)
    requires Position(olds, |olds|) + Position(sub, |sub|) <= newIe.Length
    modifies newIe
    ensures pos <= newIe.Length && newIe[..pos] == Written(sub, olds, ni, 0)
  {
    WrittenFits(sub, olds, ni, 0);
    RenderedNone(sub, olds);
    var tmp := FindIe(SSID, subCopy[..]);
    FindAtHeld(subCopy[..], sub, 0, SSID);
    pos := 0;
    if tmp.Some? {
      ghost var k := FindId(sub, 0, SSID).value;
      var out := ReadElement(subCopy[..], tmp.value, sub, k);
      RenderedOne(FromSub(k), sub, olds);
      Copy(newIe, 0, out);
      pos := |out|;
    }
  }

  /** Where the walk over the old elements begins. */
  method FirstOld(ie: seq<byte>) returns (tmpOld: nat)
    ensures tmpOld == WalkStart(ie)
  {
    var ssid := FindIe(SSID, ie);
    tmpOld := 0;
    if ssid.Some? {
      tmpOld := ssid.value + ie[ssid.value + 1] as int + 2;
    }
  }

  /** The loops stay inside both inputs, the extension ids and vendor types they
      compare are there, and so is the profile's last header. */
  ghost predicate Mergeable(ie: seq<byte>, subelement: seq<byte>) {
    && OldElements(ie).Some? && AllUsable(OldElements(ie).value)
    && AllUsable(Leading(subelement, 0))
    && TailIsSafe(|subelement|, |EncodeAll(Leading(subelement, 0))|)
  }

  /** The bytes of the merged list, with the non-inheritance element as looked up. */
  function Merged(olds: seq<Elem>, sub: seq<Elem>, niOffset: nat): seq<byte>
    requires niOffset != 1 && forall i :: 0 <= i < |olds| ==> Usable(olds[i]) && olds[i].id != SSID
  {
    EncodeAll(Merge(sub, olds, NonInheritance(sub, niOffset)))
  }

  lemma MergeRoom(sub: seq<Elem>, olds: seq<Elem>, ni: Option<Elem>)
    requires AllUsable(olds) && NoSsid(olds)
    ensures |EncodeAll(Merge(sub, olds, ni))| <= Position(olds, |olds|) + Position(sub, |sub|)
  {
    MergeFits(sub, olds, ni);
    EncodeLaid(olds);
    EncodeLaid(sub);
  }

  lemma SpentPosition(sub: seq<Elem>, olds: seq<Elem>, ni: Option<Elem>, m: nat)
    requires AllUsable(olds) && NoSsid(olds) && m <= |sub|
    ensures Position(Walk(sub, olds, ni, |olds|).cur, m) == Position(sub, m)
  {
    if m > 0 {
      SpentPosition(sub, olds, ni, m - 1);
      WalkTracks(sub, olds, ni, |olds|);
      assert Tracked(sub, Walk(sub, olds, ni, |olds|), m - 1);
    }
  }

  /** The body of skw_gen_new_ie once the scratch copy exists. */
  method FillNewIe(ie: seq<byte>, subCopy: array<byte>, newIe: array<byte>, niOffset: nat, ghost olds: seq<Elem>,
      ghost sub: seq<Elem>)
      returns (len: nat)
    requires OldElements(ie) == Some(olds) && AllUsable(olds) && NoSsid(olds) && AllUsable(sub)
    requires Holds(subCopy[..], sub) && TailIsSafe(subCopy.Length, Position(sub, |sub|)) && subCopy != newIe
    requires Position(olds, |olds|) + Position(sub, |sub|) <= newIe.Length
    requires niOffset != 1 && niOffset < TWO_32
    modifies newIe, subCopy
    ensures len <= Position(olds, |olds|) + Position(sub, |sub|) && newIe[..len] == Merged(olds, sub, niOffset)
  {
    var tmpOld := FirstOld(ie);
    assert olds[0..] == olds;
    var ni := FindNonInheritance(subCopy, niOffset, sub);
    var pos := WriteSsid(subCopy, newIe, ni, sub, olds);
    assert newIe[..pos] == newIe[..][..pos];
    pos := WalkOlds(ie, subCopy, newIe, pos, tmpOld, ni, sub, olds);
    ghost var cur := Walk(sub, olds, ni, |olds|).cur;
    assert newIe[..pos] == newIe[..][..pos];
    SpentPosition(sub, olds, ni, |sub|);
    MergeIsWritten(sub, olds, ni);
    MergeRoom(sub, olds, ni);
    len := AppendUnspent(subCopy[..], newIe, pos, cur);
  }

  /** skw_gen_new_ie, on any bytes its loops do not run out of. The source passes
      match offset 0 for the non-inheritance element, with which it is never found;
      every other offset is covered too. */
  method GenNewIe(ie: seq<byte>, subelement: seq<byte>, newIe: array<byte>, niOffset: nat, canAllocate: bool)
      returns (len: nat)
    requires Mergeable(ie, subelement) && newIe.Length >= |ie| + |subelement|
    requires niOffset != 1 && niOffset < TWO_32
    modifies newIe
    ensures !canAllocate ==> len == 0
    ensures NoSsid(OldElements(ie).value)
    ensures canAllocate ==>
      len <= |ie| + |subelement| && newIe[..len] == Merged(OldElements(ie).value, Leading(subelement, 0), niOffset)
  {
    ghost var olds, sub := OldElements(ie).value, Leading(subelement, 0);
    VisitedFits(ie, WalkStart(ie));
    if !canAllocate {
      return 0;
    }
    var subCopy := new byte[|subelement|](j requires 0 <= j < |subelement| => subelement[j]);
    assert subCopy[..] == subelement;
    EncodeLaid(olds);
    LeadingHeld(subelement);
    len := FillNewIe(ie, subCopy, newIe, niOffset, olds, sub);
  }
}
