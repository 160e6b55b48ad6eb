/** The transmit ring of an EDMA channel: fixed-size elements are packed into ring
    nodes, full nodes wait for the next transmit, transmitted ones for completion. */
module EdmaRing {
  import opened ByteBuffer
  import opened CInt

  function Concat(parts: seq<seq<byte>>): seq<byte> {
    if parts == [] then [] else Concat(parts[..|parts| - 1]) + parts[|parts| - 1]
  }

  lemma ConcatAppend(a: seq<seq<byte>>, part: seq<byte>)
    ensures Concat(a + [part]) == Concat(a) + part
  {
    assert (a + [part])[..|a|] == a;
  }

  lemma PendingGrows(handed: seq<byte>, pending: seq<seq<byte>>, part: seq<byte>)
    ensures handed + Concat(pending + [part]) == handed + Concat(pending) + part
  {
    ConcatAppend(pending, part);
    assert (handed + Concat(pending)) + part == handed + (Concat(pending) + part);
  }

  /** `count` steps from node `start` along a ring of `max` nodes. */
  function Around(start: nat, count: nat, max: nat): (r: nat)
    requires start < max && count <= max
    ensures r < max
  {
    if start + count >= max then start + count - max else start + count
  }

  class Channel {
    const maxNode: nat
    const bufferLen: nat
    /** The size every element of the channel has. */
    const elemLen: nat
    var buffer: seq<seq<byte>>
    var used: seq<nat>
    var hdrNext: seq<nat>
    var dataLen: seq<nat>
    var current: nat
    var nrNode: int
    var txNodeCount: nat
    /** Node of the oldest payload not completed yet. */
    ghost var first: nat
    /** Payloads handed to a transmit and not completed. */
    ghost var inFlight: nat
    /** Payloads of the in-flight and then the pending nodes, oldest first. */
    ghost var queue: seq<seq<byte>>
    /** Every byte ever set, and every byte handed to a transmit. */
    ghost var accepted: seq<byte>
    ghost var handed: seq<byte>
    /** No node has been handed over that nothing was set in. */
    ghost var clean: bool

    // ----- invariants -----

    /** What the hardware reads at a node. */
    function Seen(i: nat): seq<byte>
      requires i < |buffer| && i < |dataLen|
      reads this`buffer, this`dataLen
    {
      if dataLen[i] <= |buffer[i]| then buffer[i][..dataLen[i]] else buffer[i]
    }

    ghost predicate Shape()
      reads this`buffer, this`used, this`hdrNext, this`dataLen, this`current, this`first
    {
      && 0 < maxNode && 0 < elemLen <= bufferLen < 0x1_0000
      && |buffer| == |used| == |hdrNext| == |dataLen| == maxNode
      && current < maxNode && first < maxNode
      && (forall i :: 0 <= i < maxNode ==> |buffer[i]| == bufferLen)
      && (forall i :: 0 <= i < maxNode ==> hdrNext[i] == Around(i, 1, maxNode))
    }

    /** The current node holds whole elements, and its header their length. */
    ghost predicate Whole()
      requires Shape()
      reads this`buffer, this`used, this`hdrNext, this`dataLen, this`current, this`first
    {
      used[current] <= bufferLen && used[current] % elemLen == 0 &&
      (used[current] > 0 ==> dataLen[current] == used[current])
    }

    /** Free, pending and in-flight nodes are all the nodes, in ring order. */
    ghost predicate Counted()
      requires Shape()
      reads this
    {
      && |queue| == inFlight + txNodeCount < maxNode
      && nrNode + txNodeCount + inFlight == maxNode
      && current == Around(first, |queue|, maxNode)
    }

    /** Payload `k` is still what the hardware reads, and it is whole elements. */
    ghost predicate Kept(k: nat)
      requires Shape() && k < |queue| < maxNode
      reads this`buffer, this`used, this`hdrNext, this`dataLen, this`current, this`first, this`queue, this`clean
    {
      Seen(Around(first, k, maxNode)) == queue[k] && (clean ==> |queue[k]| % elemLen == 0)
    }

    /** Nothing is lost or overwritten: what was set and not handed over is in the
        pending nodes and the current one. */
    ghost predicate Conserved()
      reads this
    {
      && Shape() && Whole() && Counted()
      && (forall k :: 0 <= k < |queue| ==> Kept(k))
      && (clean ==> accepted == handed + Concat(queue[inFlight..]) + buffer[current][..used[current]])
    }

    /** Between operations there is also room for one more element. */
    ghost predicate Valid()
      reads this
    {
      Conserved() && used[current] + elemLen <= bufferLen
    }

    // ----- operations -----

    /** skw_edma_chn_init; the headers and buffers start with filler bytes. */
    constructor (maxNode: nat, bufferLen: nat, elemLen: nat)
      requires 0 < maxNode && 0 < elemLen <= bufferLen < 0x1_0000
      ensures Valid() && current == 0 && nrNode == maxNode && txNodeCount == 0 && inFlight == 0
      ensures this.maxNode == maxNode && this.bufferLen == bufferLen && this.elemLen == elemLen
      ensures accepted == handed == [] && clean
      ensures forall i :: 0 <= i < maxNode ==> dataLen[i] == 0x6a6a && buffer[i] == seq(bufferLen, _ => 0x5a)
    {
      this.maxNode, this.bufferLen, this.elemLen := maxNode, bufferLen, elemLen;
      current, nrNode, txNodeCount := 0, maxNode, 0;
      first, inFlight, queue, accepted, handed, clean := 0, 0, [], [], [], true;
      var next: seq<nat> := [];
      var blank: seq<byte> := seq(bufferLen, _ => 0x5a);
      var buffers: seq<seq<byte>> := [];
      for i := 0 to maxNode
        invariant |next| == |buffers| == i
        invariant forall j :: 0 <= j < i ==> next[j] == Around(j, 1, maxNode) && buffers[j] == blank
      {
        NextModulo(i, maxNode);
        next := next + [(i + 1) % maxNode];
        buffers := buffers + [blank];
      }
      hdrNext := next;
      buffer := buffers;
      used := seq(maxNode, _ => 0);
      dataLen := seq(maxNode, _ => 0x6a6a);
      new;
      assert Concat(queue[inFlight..]) == [];
    }

    /** skw_edma_next_node: the list and the header links walk the same ring. */
    method NextNode()
      requires Shape() && Counted() && nrNode >= 2
      requires forall k :: 0 <= k < |queue| ==> Kept(k)
      requires clean ==> |Seen(current)| % elemLen == 0
      modifies this`current, this`used, this`txNodeCount, this`nrNode, this`queue
      ensures Shape() && Counted() && Whole() && used[current] == 0
      ensures forall k :: 0 <= k < |queue| ==> Kept(k)
      ensures current == hdrNext[old(current)] && nrNode == old(nrNode) - 1 && txNodeCount == old(txNodeCount) + 1
      ensures queue == old(queue) + [old(Seen(current))]
    {
      queue := queue + [Seen(current)];
      current := if current == maxNode - 1 then 0 else current + 1;
      used := used[current := 0];
      txNodeCount := txNodeCount + 1;
      nrNode := nrNode - 1;
      assert 0 % elemLen == 0;
      forall k | 0 <= k < |queue| ensures Kept(k) {
        if k < |queue| - 1 {
          assert old(Kept(k));
        }
      }
    }

    /** A node nothing was set in is left with a length in its header. */
    ghost method Soil()
      requires Conserved()
      modifies this`clean
      ensures Conserved() && clean == (old(clean) && (used[current] > 0 || dataLen[current] == 0))
      ensures clean ==> Seen(current) == buffer[current][..used[current]] && |Seen(current)| % elemLen == 0
    {
      clean := clean && (used[current] > 0 || dataLen[current] == 0);
      forall k | 0 <= k < |queue| ensures Kept(k) {
        assert old(Kept(k));
      }
    }

    /** Leaving a node makes it pending with what the hardware would read there. */
    method CloseNode()
      requires Conserved() && nrNode >= 2
      modifies this`current, this`used, this`txNodeCount, this`nrNode, this`queue, this`clean
      ensures Valid() && used[current] == 0
      ensures current == hdrNext[old(current)] && nrNode == old(nrNode) - 1
      ensures queue == old(queue) + [old(Seen(current))]
      ensures clean == (old(clean) && (old(used[current]) > 0 || old(dataLen[current]) == 0))
    {
      ghost var pending, last := queue[inFlight..], Seen(current);
      Soil();
      NextNode();
      assert queue[inFlight..] == pending + [last];
      PendingGrows(handed, pending, last);
      assert buffer[current][..used[current]] == [];
    }

    /** The copy behind what the node already holds. */
    method Store(data: seq<byte>)
      requires Valid() && |data| == elemLen
      modifies this`buffer, this`used, this`dataLen
      ensures Shape() && Whole() && Counted() && (forall k :: 0 <= k < |queue| ==> Kept(k))
      ensures used[current] == old(used[current]) + elemLen && dataLen[current] == used[current]
      ensures buffer[current][..used[current]] == old(buffer[current][..used[current]]) + data
      ensures buffer == old(buffer)[current := buffer[current]] && dataLen == old(dataLen)[current := dataLen[current]]
    {
      var b, u := buffer[current], used[current];
      AddMultiple(u, elemLen);
      buffer := buffer[current := b[..u] + data + b[u + |data|..]];
      used := used[current := u + |data|];
      dataLen := dataLen[current := u + |data|];
      forall k | 0 <= k < |queue| ensures Kept(k) {
        assert old(Kept(k));
        assert Around(first, k, maxNode) != current;
      }
    }

    /** The element is in the current node. */
    method Accept(data: seq<byte>)
      requires Valid() && |data| == elemLen
      modifies this`buffer, this`used, this`dataLen, this`accepted
      ensures Conserved() && accepted == old(accepted) + data && used[current] == old(used[current]) + elemLen
      ensures buffer == old(buffer)[current := buffer[current]] && dataLen == old(dataLen)[current := dataLen[current]]
    {
      ghost var before, sent := buffer[current][..used[current]], handed + Concat(queue[inFlight..]);
      Store(data);
      accepted := accepted + data;
      assert (sent + before) + data == sent + (before + data);
    }

    /** skw_edma_set_data: the element goes behind the others, and a node that could
        not take another one is left at once. */
    method SetData(data: seq<byte>)
      requires Valid() && |data| == elemLen
      requires used[current] + 2 * elemLen > bufferLen ==> nrNode >= 2
      modifies this
      ensures Valid() && accepted == old(accepted) + data && handed == old(handed) && clean == old(clean)
      ensures inFlight == old(inFlight) && first == old(first)
      ensures buffer == old(buffer)[old(current) := buffer[old(current)]] &&
        dataLen == old(dataLen)[old(current) := dataLen[old(current)]]
      ensures var full := old(used[current] + 2 * elemLen > bufferLen);
              && current == (if full then hdrNext[old(current)] else old(current))
              && nrNode == old(nrNode) - (if full then 1 else 0)
    {
      Accept(data);
      if used[current] + |data| > bufferLen {
        CloseNode();
      }
    }

    /** The pending nodes go out. */
    method Submit() returns (ghost bytes: seq<byte>)
      requires Valid() && used[current] == 0
      modifies this`txNodeCount, this`inFlight, this`handed
      ensures Valid() && txNodeCount == 0 && inFlight == |queue|
      ensures bytes == Concat(queue[old(inFlight)..]) && handed == old(handed) + bytes && (clean ==> handed == accepted)
    {
      bytes := Concat(queue[inFlight..]);
      assert buffer[current][..used[current]] == [];
      handed := handed + bytes;
      inFlight := |queue|;
      txNodeCount := 0;
      assert queue[inFlight..] == [];
    }

    /** skw_edma_tx: an empty current node goes out too, with the length left in its
        header. The hardware gets exactly the bytes set since the last transmit if
        and only if something was set in that node, or its header says nothing was. */
    method Tx() returns (ghost bytes: seq<byte>)
      requires Valid() && nrNode >= 2
      modifies this
      ensures Valid() && txNodeCount == 0 && nrNode == old(nrNode) - 1 && inFlight == old(|queue|) + 1 == |queue|
      ensures accepted == old(accepted) && handed == old(handed) + bytes && current == hdrNext[old(current)]
      ensures bytes == Concat(old(queue[inFlight..])) + old(Seen(current))
      ensures bytes == Concat(old(queue[inFlight..])) + old(buffer[current][..used[current]])
         <==> old(used[current]) > 0 || old(dataLen[current]) == 0
      ensures clean == (old(clean) && (old(used[current]) > 0 || old(dataLen[current]) == 0))
      ensures clean ==> handed == accepted
    {
      ghost var pending, last := queue[inFlight..], Seen(current);
      ghost var node := buffer[current][..used[current]];
      CloseNode();
      assert queue[inFlight..] == pending + [last];
      ConcatAppend(pending, last);
      bytes := Submit();
      assert |Concat(pending) + last| == |Concat(pending)| + |last|;
    }

    /** The counting loop of skw_edma_tx_node_isr. */
    method CountFree(count: nat)
      modifies this`nrNode
      ensures nrNode == old(nrNode) + count
    {
      var i := 0;
      while i < count
        invariant i <= count && nrNode == old(nrNode) + i
      {
        nrNode := nrNode + 1;
        i := i + 1;
      }
    }

    /** skw_edma_tx_node_isr: the oldest transmitted nodes are free again, and until
        now held what was handed over. */
    method Complete(count: nat) returns (ghost done: seq<seq<byte>>)
      requires Valid() && count <= inFlight
      modifies this`nrNode, this`first, this`inFlight, this`queue
      ensures Valid() && nrNode == old(nrNode) + count && inFlight == old(inFlight) - count
      ensures |done| == count && queue == old(queue)[count..] && done == old(queue)[..count]
      ensures forall k :: 0 <= k < count ==> done[k] == Seen(Around(old(first), k, maxNode))
    {
      done := queue[..count];
      forall k | 0 <= k < count ensures done[k] == Seen(Around(first, k, maxNode)) {
        assert Kept(k);
      }
      CountFree(count);
      DropOldest(count);
    }

    /** The bookkeeping of a completion. */
    ghost method DropOldest(count: nat)
      requires Shape() && Whole() && |queue| == inFlight + txNodeCount < maxNode && count <= inFlight
      requires nrNode + txNodeCount + inFlight == maxNode + count && current == Around(first, |queue|, maxNode)
      requires forall k :: 0 <= k < |queue| ==> Kept(k)
      modifies this`first, this`inFlight, this`queue
      ensures Shape() && Whole() && Counted() && (forall k :: 0 <= k < |queue| ==> Kept(k))
      ensures inFlight == old(inFlight) - count && queue == old(queue)[count..]
      ensures queue[inFlight..] == old(queue[inFlight..])
    {
      first := Around(first, count, maxNode);
      queue := queue[count..];
      inFlight := inFlight - count;
      forall k | 0 <= k < |queue| ensures Kept(k) {
        assert old(Kept(count + k));
      }
    }

    /** Any run within credit: the counts stay balanced, and while no empty node is
        transmitted the hardware gets the bytes that were set, in order. */
    method Run(steps: nat)
      requires Valid()
      modifies this
      ensures Valid() && (clean ==> handed <= accepted)
    {
      var i := 0;
      while i < steps
        invariant Valid()
      {
        var data: seq<byte>, count: nat := *, *;
        if {
        case |data| == elemLen && (nrNode >= 2 || used[current] + 2 * elemLen <= bufferLen) => SetData(data);
        case nrNode >= 2 => ghost var bytes := Tx();
        case true =>
          ghost var done;
          if count + txNodeCount + nrNode <= maxNode {
            done := Complete(count);
          }
        }
        i := i + 1;
      }
    }
  }

  /** A node of one element is left as soon as it is full, so transmitting right after
      sends the next node too, and with it a filler byte nobody set. */
  method EmptyNodeGoesOut() returns (c: Channel)
    ensures c.accepted == [7] && c.handed == [7, 0x5a]
  {
    c := new Channel(3, 1, 1);
    c.SetData([7]);
    ghost var bytes := c.Tx();
    assert c.handed == bytes;
  }

  lemma NextModulo(i: nat, max: nat)
    requires i < max
    ensures (i + 1) % max == Around(i, 1, max)
  {
    if i + 1 < max {
    } else {
      assert max % max == 0;
    }
  }

  lemma AddMultiple(u: nat, e: nat)
    requires 0 < e && u % e == 0
    ensures (u + e) % e == 0
  {
    var q := u / e;
    assert u == q * e;
    assert u + e == (q + 1) * e;
    MultipleMod(q + 1, e);
  }

  lemma MultipleMod(q: nat, e: nat)
    requires 0 < e
    ensures (q * e) % e == 0
  {
    QuotientIs(q * e, e, q);
  }
}
