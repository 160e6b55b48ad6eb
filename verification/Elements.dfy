/** Information elements: an id byte, a length byte and that many data bytes
    (section 9.4.2.1 of IEEE Std 802.11-2020), and sequences of them as bytes. */
module Elements {

  import opened ByteBuffer

  type Data = d: seq<byte> | |d| < 256

  datatype Elem = Elem(id: byte, data: Data)

  function Encode(e: Elem): (b: seq<byte>)
    ensures |b| == |e.data| + 2
  {
    [e.id, |e.data|] + e.data
  }

  function EncodeAll(es: seq<Elem>): seq<byte> {
    if es == [] then [] else Encode(es[0]) + EncodeAll(es[1..])
  }

  /** Byte position of element `k`. */
  function Position(es: seq<Elem>, k: nat): nat
    requires k <= |es|
  {
    if k == 0 then 0 else Position(es, k - 1) + |es[k - 1].data| + 2
  }

  /** Element `e` occupies the bytes at `p`. */
  predicate Occupies(b: seq<byte>, p: nat, e: Elem) {
    p + |e.data| + 2 <= |b| && b[p] == e.id && b[p + 1] == |e.data| && b[p + 2..p + |e.data| + 2] == e.data
  }

  predicate ElementAt(b: seq<byte>, es: seq<Elem>, k: nat)
    requires k < |es|
  {
    Occupies(b, Position(es, k), es[k])
  }

  /** The bytes are exactly these elements, each at its position. */
  ghost predicate Laid(b: seq<byte>, es: seq<Elem>) {
    |b| == Position(es, |es|) && forall k :: 0 <= k < |es| ==> ElementAt(b, es, k)
  }

  lemma {:induction false} EncodeAllConcat(a: seq<Elem>, b: seq<Elem>)
    ensures EncodeAll(a + b) == EncodeAll(a) + EncodeAll(b)
  {
    if a == [] {
      assert a + b == b;
    } else {
      EncodeAllConcat(a[1..], b);
      assert (a + b)[1..] == a[1..] + b && (a + b)[0] == a[0];
      var head, tail := Encode(a[0]), EncodeAll(a[1..]);
      assert head + (tail + EncodeAll(b)) == (head + tail) + EncodeAll(b);
    }
  }

  lemma EncodeOne(e: Elem)
    ensures EncodeAll([e]) == Encode(e)
  {
    assert [e][1..] == [];
  }

  lemma {:induction false} PositionOrder(es: seq<Elem>, j: nat, k: nat)
    requires j <= k <= |es|
    ensures Position(es, j) <= Position(es, k)
    ensures j < k ==> Position(es, j) + |es[j].data| + 2 <= Position(es, k)
    decreases k
  {
    if j < k {
      PositionOrder(es, j, k - 1);
    }
  }

  lemma {:induction false} PositionOfPrefix(es: seq<Elem>, more: seq<Elem>, k: nat)
    requires k <= |es|
    ensures Position(es + more, k) == Position(es, k)
  {
    if k > 0 {
      PositionOfPrefix(es, more, k - 1);
    }
  }

  lemma OccupiesAppend(b: seq<byte>, more: seq<byte>, p: nat, e: Elem)
    requires Occupies(b, p, e)
    ensures Occupies(b + more, p, e)
  {
    assert (b + more)[p + 2..p + |e.data| + 2] == b[p + 2..p + |e.data| + 2];
  }

  lemma OccupiesEnd(b: seq<byte>, e: Elem)
    ensures Occupies(b + Encode(e), |b|, e)
  {
    var all, p := b + Encode(e), |b|;
    assert all[p + 2..p + |e.data| + 2] == e.data;
  }

  lemma LaidAppend(b: seq<byte>, es: seq<Elem>, e: Elem)
    requires Laid(b, es)
    ensures Laid(b + Encode(e), es + [e])
  {
    var n, more, all := |es|, es + [e], b + Encode(e);
    PositionOfPrefix(es, [e], n);
    forall k | 0 <= k <= n ensures ElementAt(all, more, k) {
      PositionOfPrefix(es, [e], k);
      if k < n {
        assert ElementAt(b, es, k);
        OccupiesAppend(b, Encode(e), Position(es, k), es[k]);
      } else {
        OccupiesEnd(b, e);
      }
    }
    assert Position(more, n + 1) == Position(more, n) + |e.data| + 2;
  }

  lemma EncodeAppend(es: seq<Elem>, e: Elem)
    ensures EncodeAll(es + [e]) == EncodeAll(es) + Encode(e)
  {
    EncodeAllConcat(es, [e]);
    EncodeOne(e);
  }

  /** Encoding lays elements out end to end. */
  lemma {:induction false} EncodeLaid(es: seq<Elem>)
    ensures Laid(EncodeAll(es), es)
    decreases |es|
  {
    if es != [] {
      var before, e := es[..|es| - 1], es[|es| - 1];
      assert es == before + [e];
      EncodeLaid(before);
      EncodeAppend(before, e);
      LaidAppend(EncodeAll(before), before, e);
    }
  }

  /** Size of the element at `k`. */
  function SizeAt(b: seq<byte>, k: nat): nat
    requires k + 1 < |b|
  {
    b[k + 1] as int + 2
  }

  /** From `k` on the bytes are whole elements, end to end. */
  predicate WholeFrom(b: seq<byte>, k: nat)
    decreases |b| - k
  {
    k == |b| || (k + 1 < |b| && k + SizeAt(b, k) <= |b| && WholeFrom(b, k + SizeAt(b, k)))
  }

  predicate WellFormed(b: seq<byte>) {
    WholeFrom(b, 0)
  }

  function ElementFrom(b: seq<byte>, k: nat): Elem
    requires k + 1 < |b| && k + SizeAt(b, k) <= |b|
  {
    Elem(b[k], b[k + 2..k + SizeAt(b, k)])
  }

  function ParseFrom(b: seq<byte>, k: nat): seq<Elem>
    requires WholeFrom(b, k)
    decreases |b| - k
  {
    if k == |b| then [] else [ElementFrom(b, k)] + ParseFrom(b, k + SizeAt(b, k))
  }

  function Parse(b: seq<byte>): seq<Elem>
    requires WellFormed(b)
  {
    ParseFrom(b, 0)
  }

  /** Parsing loses nothing. */
  lemma {:induction false} EncodeParseFrom(b: seq<byte>, k: nat)
    requires WholeFrom(b, k)
    ensures k <= |b| && EncodeAll(ParseFrom(b, k)) == b[k..]
    decreases |b| - k
  {
    if k != |b| {
      var next := k + SizeAt(b, k);
      EncodeParseFrom(b, next);
      assert Encode(ElementFrom(b, k)) == b[k..next];
      assert b[k..] == b[k..next] + b[next..];
    }
  }

  lemma EncodeParse(b: seq<byte>)
    requires WellFormed(b)
    ensures EncodeAll(Parse(b)) == b
  {
    EncodeParseFrom(b, 0);
  }

  lemma ParseOne(b: seq<byte>, es: seq<Elem>, k: nat)
    requires Laid(b, es) && k < |es| && WholeFrom(b, Position(es, k + 1))
    ensures WholeFrom(b, Position(es, k))
    ensures ParseFrom(b, Position(es, k)) == [es[k]] + ParseFrom(b, Position(es, k + 1))
  {
    PositionOrder(es, k + 1, |es|);
    assert ElementAt(b, es, k);
  }

  lemma {:induction false} ParseLaid(b: seq<byte>, es: seq<Elem>, k: nat)
    requires Laid(b, es) && k <= |es|
    ensures WholeFrom(b, Position(es, k)) && ParseFrom(b, Position(es, k)) == es[k..]
    decreases |es| - k
  {
    if k < |es| {
      ParseLaid(b, es, k + 1);
      ParseOne(b, es, k);
    }
  }

  /** Parsing inverts encoding. */
  lemma ParseEncode(es: seq<Elem>)
    ensures WellFormed(EncodeAll(es)) && Parse(EncodeAll(es)) == es
  {
    EncodeLaid(es);
    ParseLaid(EncodeAll(es), es, 0);
  }
}
