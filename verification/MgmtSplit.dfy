/** Splitting an oversized radio-measurement report into frames at element
    boundaries (the loop of __skw_cfg80211_mgmt_tx). */
module MgmtSplit {
  import opened ByteBuffer
  import opened Elements

  const E2BIG: int := 7
  const TX_LEN: nat := 1500
  /** Bytes before the first element of a measurement report action frame. */
  const HEAD: nat := 27

  /** Fills groups in order, closing one when the next element would bring the
      frame to TX_LEN bytes. */
  function Pack(es: seq<Elem>, open: seq<Elem>): seq<seq<Elem>>
    decreases |es|, |open|
  {
    if es == [] then (if open == [] then [] else [open])
    else if HEAD + |EncodeAll(open)| + |Encode(es[0])| < TX_LEN then Pack(es[1..], open + [es[0]])
    else
      assert open != [];
      [open] + Pack(es, [])
  }

  function Flatten(groups: seq<seq<Elem>>): seq<Elem> {
    if groups == [] then [] else groups[0] + Flatten(groups[1..])
  }

  function Frames(head: seq<byte>, groups: seq<seq<Elem>>): seq<seq<byte>> {
    if groups == [] then [] else [head + EncodeAll(groups[0])] + Frames(head, groups[1..])
  }

  lemma {:induction false} FrameAt(head: seq<byte>, groups: seq<seq<Elem>>)
    ensures |Frames(head, groups)| == |groups|
    ensures forall i :: 0 <= i < |groups| ==> Frames(head, groups)[i] == head + EncodeAll(groups[i])
  {
    if groups != [] {
      FrameAt(head, groups[1..]);
    }
  }

  /** What follows the header in each frame, end to end. */
  function Payloads(head: seq<byte>, frames: seq<seq<byte>>): seq<byte>
    requires forall i :: 0 <= i < |frames| ==> |frames[i]| >= |head|
  {
    if frames == [] then [] else frames[0][|head|..] + Payloads(head, frames[1..])
  }

  /** The groups are the elements, in order: none lost, repeated or cut. */
  lemma {:induction false} PackKeepsElements(es: seq<Elem>, open: seq<Elem>)
    ensures Flatten(Pack(es, open)) == open + es
    decreases |es|, |open|
  {
    if es == [] {
      assert open + [] == open;
    } else if HEAD + |EncodeAll(open)| + |Encode(es[0])| < TX_LEN {
      PackKeepsElements(es[1..], open + [es[0]]);
      assert open + [es[0]] + es[1..] == open + es;
    } else {
      PackKeepsElements(es, []);
      assert [] + es == es;
    }
  }

  predicate Fits(group: seq<Elem>) {
    group != [] && HEAD + |EncodeAll(group)| < TX_LEN
  }

  /** Every frame carries at least one element and stays below TX_LEN. */
  lemma {:induction false} PackFits(es: seq<Elem>, open: seq<Elem>)
    requires open == [] || Fits(open)
    ensures forall i :: 0 <= i < |Pack(es, open)| ==> Fits(Pack(es, open)[i])
    decreases |es|, |open|
  {
    if es == [] {
    } else if HEAD + |EncodeAll(open)| + |Encode(es[0])| < TX_LEN {
      EncodeAllConcat(open, [es[0]]);
      EncodeOne(es[0]);
      PackFits(es[1..], open + [es[0]]);
    } else {
      PackFits(es, []);
    }
  }

  /** Frame `j - 1` could not have carried the first element of frame `j` as well. */
  predicate GreedyAt(groups: seq<seq<Elem>>, j: nat)
    requires 0 < j < |groups|
  {
    groups[j] != [] && HEAD + |EncodeAll(groups[j - 1])| + |Encode(groups[j][0])| >= TX_LEN
  }

  ghost predicate Greedy(groups: seq<seq<Elem>>) {
    forall j :: 0 < j < |groups| ==> GreedyAt(groups, j)
  }

  lemma {:induction false} PackStarts(es: seq<Elem>, open: seq<Elem>)
    requires open != []
    ensures Pack(es, open) != [] && open <= Pack(es, open)[0]
    decreases |es|
  {
    if es != [] && HEAD + |EncodeAll(open)| + |Encode(es[0])| < TX_LEN {
      PackStarts(es[1..], open + [es[0]]);
    }
  }

  lemma GreedyPrepend(group: seq<Elem>, rest: seq<seq<Elem>>)
    requires Greedy(rest)
    requires rest != [] ==> rest[0] != [] && HEAD + |EncodeAll(group)| + |Encode(rest[0][0])| >= TX_LEN
    ensures Greedy([group] + rest)
  {
    var groups := [group] + rest;
    forall j | 0 < j < |groups| ensures GreedyAt(groups, j) {
      assert groups[j] == rest[j - 1];
      if j > 1 {
        assert GreedyAt(rest, j - 1);
      }
    }
  }

  lemma FreshStart(es: seq<Elem>)
    requires es != []
    ensures Pack(es, []) != [] && Pack(es, [])[0] != [] && Pack(es, [])[0][0] == es[0]
  {
    assert [] + [es[0]] == [es[0]];
    PackStarts(es[1..], [es[0]]);
  }

  lemma {:induction false} PackIsGreedy(es: seq<Elem>, open: seq<Elem>)
    ensures Greedy(Pack(es, open))
    decreases |es|, |open|
  {
    if es == [] {
    } else if HEAD + |EncodeAll(open)| + |Encode(es[0])| < TX_LEN {
      PackIsGreedy(es[1..], open + [es[0]]);
    } else {
      PackIsGreedy(es, []);
      FreshStart(es);
      GreedyPrepend(open, Pack(es, []));
    }
  }

  lemma {:induction false} FramesCarryGroups(head: seq<byte>, groups: seq<seq<Elem>>)
    ensures forall i :: 0 <= i < |Frames(head, groups)| ==> |Frames(head, groups)[i]| >= |head|
    ensures Payloads(head, Frames(head, groups)) == EncodeAll(Flatten(groups))
  {
    FrameAt(head, groups);
    if groups != [] {
      FramesCarryGroups(head, groups[1..]);
      EncodeAllConcat(groups[0], Flatten(groups[1..]));
    }
  }

  /** The same split on bytes: the open group is payload[i..j]. */
  function SplitBytes(payload: seq<byte>, i: nat, j: nat): seq<seq<byte>>
    requires i <= j <= |payload| && WholeFrom(payload, j)
    decreases |payload| - j, j - i
  {
    if j == |payload| then (if i == j then [] else [payload[i..j]])
    else
      var n := SizeAt(payload, j);
      if HEAD + (j - i) + n < TX_LEN then SplitBytes(payload, i, j + n)
      else [payload[i..j]] + SplitBytes(payload, j, j)
  }

  function Chunks(groups: seq<seq<Elem>>): seq<seq<byte>> {
    if groups == [] then [] else [EncodeAll(groups[0])] + Chunks(groups[1..])
  }

  function AddHead(head: seq<byte>, chunks: seq<seq<byte>>): (fs: seq<seq<byte>>) {
    if chunks == [] then [] else [head + chunks[0]] + AddHead(head, chunks[1..])
  }

  lemma {:induction false} AddHeadChunks(head: seq<byte>, groups: seq<seq<Elem>>)
    ensures AddHead(head, Chunks(groups)) == Frames(head, groups)
  {
    if groups != [] {
      AddHeadChunks(head, groups[1..]);
    }
  }

  /** Cutting bytes and packing elements agree. */
  lemma {:induction false} SplitBytesIsPack(payload: seq<byte>, i: nat, j: nat, open: seq<Elem>)
    requires i <= j <= |payload| && WholeFrom(payload, j)
    requires payload[i..j] == EncodeAll(open)
    ensures SplitBytes(payload, i, j) == Chunks(Pack(ParseFrom(payload, j), open))
    decreases |payload| - j, j - i
  {
    if j != |payload| {
      var e, next := ElementFrom(payload, j), j + SizeAt(payload, j);
      assert Encode(e) == payload[j..next];
      if HEAD + (next - i) < TX_LEN {
        EncodeAllConcat(open, [e]);
        EncodeOne(e);
        assert payload[i..next] == payload[i..j] + payload[j..next];
        SplitBytesIsPack(payload, i, next, open + [e]);
      } else {
        assert payload[j..j] == EncodeAll([]);
        SplitBytesIsPack(payload, j, j, []);
      }
    }
  }

  lemma {:induction false} AddHeadLast(head: seq<byte>, chunks: seq<seq<byte>>, last: seq<byte>)
    ensures AddHead(head, chunks + [last]) == AddHead(head, chunks) + [head + last]
  {
    if chunks == [] {
      assert AddHead(head, [last]) == [head + last] + AddHead(head, []);
    } else {
      assert (chunks + [last])[1..] == chunks[1..] + [last];
      AddHeadLast(head, chunks[1..], last);
    }
  }

  /** Header and elements copied into the transmit buffer. */
  method BuildFrame(frame: seq<byte>, pos: nat, elemLen: nat, data: array<byte>) returns (out: seq<byte>)
    requires HEAD <= |frame| && pos + elemLen <= |frame| && HEAD + elemLen <= data.Length
    modifies data
    ensures out == frame[..HEAD] + frame[pos..pos + elemLen]
  {
    Copy(data, 0, frame[..HEAD]);
    Copy(data, HEAD, frame[pos..pos + elemLen]);
    out := data[..elemLen + HEAD];
  }

  /** `chunks` are cut, and bytes from `pos` to `next` are in the open one. */
  ghost predicate CutTo(frame: seq<byte>, chunks: seq<seq<byte>>, pos: nat, next: nat)
    requires |frame| >= HEAD && WholeFrom(frame, HEAD)
  {
    && HEAD <= pos <= next < |frame| && WholeFrom(frame, next) && HEAD + (next - pos) < TX_LEN
    && SplitBytes(frame, HEAD, HEAD) == chunks + SplitBytes(frame, pos, next)
  }

  lemma CutMore(frame: seq<byte>, chunks: seq<seq<byte>>, pos: nat, next: nat, after: nat)
    requires |frame| >= HEAD && WholeFrom(frame, HEAD) && CutTo(frame, chunks, pos, next)
    requires after == next + SizeAt(frame, next)
    ensures after <= |frame|
    ensures HEAD + (after - pos) < TX_LEN ==>
      if after == |frame| then SplitBytes(frame, HEAD, HEAD) == chunks + [frame[pos..after]]
        else CutTo(frame, chunks, pos, after)
    ensures HEAD + (after - pos) >= TX_LEN ==> CutTo(frame, chunks + [frame[pos..next]], next, next) && pos < next
  {
    var open, rest := [frame[pos..next]], SplitBytes(frame, next, next);
    if HEAD + (after - pos) >= TX_LEN {
      assert SplitBytes(frame, pos, next) == open + rest;
      assert chunks + (open + rest) == (chunks + open) + rest;
    } else if after == |frame| {
      assert SplitBytes(frame, pos, after) == [frame[pos..after]];
    }
  }

  /** Sends the report as frames made of its header and whole elements; the n-th
      transmission returns `outcome(n)`, and only the last one is reported. */
  method SplitReport(frame: seq<byte>, outcome: nat -> int) returns (ret: int, sent: seq<seq<byte>>)
    requires |frame| >= HEAD && WholeFrom(frame, HEAD)
    ensures sent == Frames(frame[..HEAD], Pack(ParseFrom(frame, HEAD), []))
    ensures ret == if sent == [] then -E2BIG else outcome(|sent| - 1)
  {
    ghost var head := frame[..HEAD];
    ghost var chunks: seq<seq<byte>> := [];
    var left: nat := |frame| - HEAD;
    var elemLen: nat := 0;
    var pos: nat, next: nat := HEAD, HEAD;
    var data := new byte[TX_LEN](_ => 0);
    ret, sent := -E2BIG, [];
    while left > 0
      invariant left > 0 ==> next == pos + elemLen == |frame| - left && CutTo(frame, chunks, pos, next)
      invariant left == 0 ==> SplitBytes(frame, HEAD, HEAD) == chunks
      invariant sent == AddHead(head, chunks)
      invariant ret == if sent == [] then -E2BIG else outcome(|sent| - 1)
      decreases left, elemLen
    {
      var nextLen := frame[next + 1] as nat + 2;
      var after := next + nextLen;
      CutMore(frame, chunks, pos, next, after);
      var txLen := elemLen + HEAD + nextLen;
      if txLen < TX_LEN {
        elemLen := elemLen + nextLen;
        left := left - nextLen;
        if left > 0 {
          next := after;
          continue;
        }
      }
      var out := BuildFrame(frame, pos, elemLen, data);
      ghost var cut := frame[pos..pos + elemLen];
      AddHeadLast(head, chunks, cut);
      chunks := chunks + [cut];
      ret := outcome(|sent|);
      sent := sent + [out];
      pos := next;
      elemLen := 0;
    }
    assert frame[HEAD..HEAD] == EncodeAll([]);
    SplitBytesIsPack(frame, HEAD, HEAD, []);
    AddHeadChunks(head, Pack(ParseFrom(frame, HEAD), []));
  }

  lemma FirstLength(head: seq<byte>, group: seq<Elem>)
    requires |head| == HEAD && group != []
    ensures |head + EncodeAll(group)| > 28 && (head + EncodeAll(group))[28] == |group[0].data|
  {
    assert EncodeAll(group) == Encode(group[0]) + EncodeAll(group[1..]);
  }

  /** What the receiver gets: every frame is the original header of 27 bytes plus at least
      one whole element and is shorter than 1500 bytes, the next frame's first element, by
      its length byte, would not have fitted, and the payloads end to end are the original
      payload. */
  lemma SplitIsFaithful(frame: seq<byte>, sent: seq<seq<byte>>)
    requires |frame| >= HEAD && WholeFrom(frame, HEAD)
    requires sent == Frames(frame[..HEAD], Pack(ParseFrom(frame, HEAD), []))
    ensures forall i :: 0 <= i < |sent| ==>
      frame[..27] <= sent[i] && 28 < |sent[i]| < 1500 && WellFormed(sent[i][27..])
    ensures forall j :: 0 < j < |sent| ==> |sent[j - 1]| + sent[j][28] as int + 2 >= 1500
    ensures Payloads(frame[..HEAD], sent) == frame[HEAD..]
  {
    var head, es := frame[..HEAD], ParseFrom(frame, HEAD);
    var groups := Pack(es, []);
    EncodeParseFrom(frame, HEAD);
    PackKeepsElements(es, []);
    assert [] + es == es;
    FramesCarryGroups(head, groups);
    PackFits(es, []);
    FrameAt(head, groups);
    forall i | 0 <= i < |sent|
      ensures head <= sent[i] && HEAD + 1 < |sent[i]| < TX_LEN && WellFormed(sent[i][HEAD..])
    {
      assert Fits(groups[i]);
      FirstLength(head, groups[i]);
      ParseEncode(groups[i]);
      assert sent[i] == head + EncodeAll(groups[i]) && sent[i][HEAD..] == EncodeAll(groups[i]);
    }
    PackIsGreedy(es, []);
    forall j | 0 < j < |sent| ensures |sent[j - 1]| + sent[j][28] as int + 2 >= 1500 {
      assert GreedyAt(groups, j);
      FirstLength(head, groups[j]);
      assert sent[j - 1] == head + EncodeAll(groups[j - 1]);
    }
  }
}
