/** skw_gen_new_ie on its buffers: look-ups walk the scratch copy of the profile,
    consumption overwrites ids in it, and output grows behind a write pointer. */
module MbssidBuffer {
  import opened ByteBuffer
  import opened CInt
  import opened Elements
  import opened Optional
  import opened MbssidBytes
  import opened MbssidMerge
  import opened MbssidSize

  lemma NextPosition(es: seq<Elem>, i: nat)
    requires i < |es|
    ensures Position(es, i + 1) == Position(es, i) + Size(es[i]) <= Position(es, |es|)
  {
    PositionOrder(es, i + 1, |es|);
  }

  lemma PositionInside(b: seq<byte>, es: seq<Elem>, i: nat)
    requires Holds(b, es) && i <= |es|
    ensures i < |es| ==> Position(es, i) + Size(es[i]) <= |b| && Occupies(b, Position(es, i), es[i])
    ensures i == |es| <==> !WholeAt(b, Position(es, i))
  {
    if i < |es| {
      NextPosition(es, i);
      assert ElementAt(b, es, i);
    }
  }

  /** The walk position of element `i`: its header, or the tail. */
  lemma HeaderInside(b: seq<byte>, es: seq<Elem>, i: nat)
    requires Holds(b, es) && i <= |es|
    ensures Position(es, i) <= |b| && (i == |es| <==> !WholeAt(b, Position(es, i)))
    ensures i < |es| ==>
      var p := Position(es, i);
      && p + Size(es[i]) == Position(es, i + 1) <= |b| && b[p] == es[i].id && b[p + 1] == |es[i].data|
  {
    PositionInside(b, es, i);
  }

  lemma OccupiesEncode(b: seq<byte>, p: nat, e: Elem)
    requires Occupies(b, p, e)
    ensures b[p..p + Size(e)] == Encode(e)
  {
  }

  lemma SpendPosition(es: seq<Elem>, k: nat, i: nat)
    requires k < |es| && i <= |es|
    ensures Position(Spend(es, k), i) == Position(es, i)
  {
    if i > 0 {
      SpendPosition(es, k, i - 1);
    }
  }

  lemma MarkElsewhere(b: seq<byte>, p: nat, e: Elem, q: nat)
    requires Occupies(b, p, e) && q < |b| && (q < p || p + Size(e) <= q)
    ensures Occupies(b[q := SSID], p, e)
  {
    assert b[q := SSID][p + 2..p + Size(e)] == b[p + 2..p + Size(e)];
  }

  lemma MarkHere(b: seq<byte>, p: nat, e: Elem)
    requires Occupies(b, p, e)
    ensures Occupies(b[p := SSID], p, Elem(SSID, e.data))
  {
    assert b[p := SSID][p + 2..p + Size(e)] == b[p + 2..p + Size(e)];
  }

  /** Overwriting one id byte changes that element's id and nothing else. */
  lemma MarkIsSpend(b: seq<byte>, es: seq<Elem>, k: nat)
    requires Holds(b, es) && k < |es|
    ensures Position(es, k) < |b| && Holds(b[Position(es, k) := SSID], Spend(es, k))
  {
    HeaderInside(b, es, k);
    var q := Position(es, k);
    var marked, spent := b[q := SSID], Spend(es, k);
    SpendPosition(es, k, |es|);
    PositionOrder(es, k, |es|);
    assert !WholeAt(marked, Position(es, |es|));
    forall i | 0 <= i < |es| ensures ElementAt(marked, spent, i) {
      SpendPosition(es, k, i);
      var p := Position(es, i);
      assert ElementAt(b, es, i);
      if i == k {
        MarkHere(b, p, es[i]);
      } else {
        if i < k { PositionOrder(es, i, k); } else { PositionOrder(es, k, i); }
        MarkElsewhere(b, p, es[i], q);
      }
    }
  }

  /** Where a found element begins. */
  function PlaceOf(es: seq<Elem>, found: Option<nat>): Option<nat>
    requires found.Some? ==> found.value < |es|
  {
    match found
    case Some(k) => Some(Position(es, k))
    case None => None
  }

  /** cfg80211_find_ie */
  method FindIe(id: byte, b: seq<byte>) returns (pos: Option<nat>)
    ensures pos == FindAt(b, 0, id)
  {
    var p := 0;
    while p + 1 < |b| && p + b[p + 1] as int + 2 <= |b|
      invariant FindAt(b, 0, id) == FindAt(b, p, id)
      decreases |b| - p
    {
      if b[p] == id {
        return Some(p);
      }
      p := p + b[p + 1] as int + 2;
    }
    pos := None;
  }

  /** The byte walk finds the first element with the id. */
  lemma {:induction false} FindAtHeld(b: seq<byte>, es: seq<Elem>, k: nat, id: byte)
    requires Holds(b, es) && k <= |es|
    ensures FindAt(b, Position(es, k), id) == PlaceOf(es, FindId(es, k, id))
    decreases |es| - k
  {
    HeaderInside(b, es, k);
    if k < |es| {
      FindAtHeld(b, es, k + 1, id);
    }
  }

  lemma HeldElement(b: seq<byte>, es: seq<Elem>, i: nat)
    requires Holds(b, es) && i < |es|
    ensures var p := Position(es, i);
            WholeAt(b, p) && ElementFrom(b, p) == es[i] && p + SizeAt(b, p) == Position(es, i + 1)
  {
    PositionInside(b, es, i);
  }

  lemma SliceOfSlice(b: seq<byte>, x: nat, d: seq<byte>, i: nat, j: nat)
    requires x + |d| <= |b| && b[x..x + |d|] == d && i <= j <= |d|
    ensures b[x + i..x + j] == d[i..j]
  {
    forall k | 0 <= k < j - i ensures b[x + i..x + j][k] == d[i..j][k] {
      assert b[x..x + |d|][i + k] == b[x + i + k];
    }
  }

  lemma MatchNext(es: seq<Elem>, k: nat, id: byte, m: seq<byte>, offset: nat)
    requires k < |es| && Matchable(|m|, offset)
    ensures FindMatch(es, k, id, m, offset)
         == if es[k].id == id && DataMatches(es[k], m, offset) then Some(k) else FindMatch(es, k + 1, id, m, offset)
  {
  }

  /** The test of skw_find_elem on the bytes of one element; the length test is
      unsigned, and the comparison is a memcmp. */
  method MatchesAt(b: seq<byte>, p: nat, id: byte, m: seq<byte>, offset: nat) returns (found: bool)
    requires WholeAt(b, p) && Matchable(|m|, offset) && offset - 2 + |m| < TWO_32
    ensures found == (b[p] == id && DataMatches(ElementFrom(b, p), m, offset))
  {
    found := false;
    if b[p] == id && b[p + 1] as int >= U32(offset - 2 + |m|) {
      if offset < 2 {
        return true;
      }
      SliceOfSlice(b, p + 2, ElementFrom(b, p).data, offset - 2, offset - 2 + |m|);
      found := b[p + offset..p + offset + |m|] == m;
    }
  }

  /** skw_find_elem */
  method FindElem(id: byte, b: seq<byte>, m: seq<byte>, offset: nat, ghost es: seq<Elem>) returns (pos: Option<nat>)
    requires Holds(b, es) && Matchable(|m|, offset) && offset - 2 + |m| < TWO_32
    ensures pos == PlaceOf(es, FindMatch(es, 0, id, m, offset))
  {
    var p := 0;
    ghost var k: nat := 0;
    HeaderInside(b, es, 0);
    while p + 1 < |b| && p + b[p + 1] as int + 2 <= |b|
      invariant k <= |es| && p == Position(es, k) && (k == |es| <==> !WholeAt(b, p))
      invariant FindMatch(es, 0, id, m, offset) == FindMatch(es, k, id, m, offset)
      decreases |b| - p
    {
      HeldElement(b, es, k);
      MatchNext(es, k, id, m, offset);
      var found := MatchesAt(b, p, id, m, offset);
      if found {
        return Some(p);
      }
      p := p + b[p + 1] as int + 2;
      k := k + 1;
      HeaderInside(b, es, k);
    }
    pos := None;
  }

  /** skw_is_element_inherited */
  method IsElementInherited(e: Elem, ni: Option<Elem>) returns (r: bool)
    requires Usable(e)
    ensures r == Inherited(e, ni)
  {
    if e.id == MULTIPLE_BSSID {
      return false;
    }
    if ni.None? || |ni.value.data| < 2 {
      return true;
    }
    var data := ni.value.data;
    var idLen := data[1] as int;
    if |data| < 3 + idLen {
      return true;
    }
    var extIdLen := data[2 + idLen] as int;
    if |data| < 3 + idLen + extIdLen {
      return true;
    }
    var at, loopLen, id := 2, idLen, e.id;
    if e.id == EXTENSION {
      at, loopLen, id := 3 + idLen, extIdLen, e.data[0];
    }
    var listed := InList(data, at, loopLen, id);
    return !listed;
  }

  /** The loop over one of the lists. */
  method InList(data: seq<byte>, at: nat, len: nat, id: byte) returns (found: bool)
    requires at + len <= |data|
    ensures found == (id in data[at..at + len])
  {
    ghost var list := data[at..at + len];
    for i := 0 to len
      invariant id !in list[..i]
    {
      assert data[at + i] == list[i];
      if data[at + i] == id {
        return true;
      }
    }
    assert list[..len] == list;
    return false;
  }

  /** What a fate emits. */
  function Output(fate: Fate, cur: seq<Elem>, was: Elem): seq<byte>
    requires fate.Replaced? ==> fate.slot < |cur|
  {
    match fate
    case Kept => Encode(was)
    case Dropped => []
    case Replaced(k) => Encode(cur[k])
  }

  /** The profile element that answers an old one: by extension id or by id. */
  method FindCounterpart(b: seq<byte>, ghost cur: seq<Elem>, was: Elem) returns (pos: Option<nat>)
    requires Holds(b, cur) && Usable(was)
    ensures pos == PlaceOf(cur, Lookup(cur, was))
  {
    if was.id == EXTENSION {
      pos := FindElem(EXTENSION, b, [was.data[0]], 2, cur);
    } else {
      pos := FindIe(was.id, b);
      FindAtHeld(b, cur, 0, was.id);
    }
  }

  /** The bytes of the element at `p`, read through its length byte. */
  method ReadElement(b: seq<byte>, p: nat, ghost es: seq<Elem>, ghost k: nat) returns (bytes: seq<byte>)
    requires Holds(b, es) && k < |es| && p == Position(es, k)
    ensures bytes == Encode(es[k])
  {
    HeaderInside(b, es, k);
    PositionInside(b, es, k);
    OccupiesEncode(b, p, es[k]);
    bytes := b[p..p + b[p + 1] as int + 2];
  }

  /** One turn of the loop over the old elements. */
  method HandleOld(was: Elem, ni: Option<Elem>, subCopy: array<byte>, newIe: array<byte>, pos: nat,
      ghost cur: seq<Elem>)
      returns (next: nat, ghost cur': seq<Elem>)
    requires Usable(was) && AllUsable(cur) && Holds(subCopy[..], cur) && subCopy != newIe
    requires pos + |Output(FateOf(cur, was, ni), cur, was)| <= newIe.Length
    modifies subCopy, newIe
    ensures var fate := FateOf(cur, was, ni);
            && next <= newIe.Length && newIe[..next] == old(newIe[..pos]) + Output(fate, cur, was)
            && Holds(subCopy[..], cur') && cur' == if fate.Replaced? then Spend(cur, fate.slot) else cur
  {
    ghost var fate := FateOf(cur, was, ni);
    var out: seq<byte> := Encode(was);
    cur' := cur;
    var tmp := FindCounterpart(subCopy[..], cur, was);
    if tmp.None? {
      var inherited := IsElementInherited(was, ni);
      if !inherited {
        out := [];
      }
    } else {
      ghost var k := Lookup(cur, was).value;
      var found := ReadElement(subCopy[..], tmp.value, cur, k);
      assert Usable(cur[k]);
      if was.id != VENDOR || found[2..7] == was.data[..5] {
        assert was.id == VENDOR ==> found[2..7] == cur[k].data[..5];
        out := found;
        MarkIsSpend(subCopy[..], cur, k);
        subCopy[tmp.value] := SSID;
        cur' := Spend(cur, k);
      } else {
        assert found[2..7] == cur[k].data[..5];
      }
    }
    assert out == Output(fate, cur, was);
    Copy(newIe, pos, out);
    next := pos + |out|;
  }

  /** `prefix` and behind it the unspent elements among the first m. */
  function Appended(prefix: seq<byte>, cur: seq<Elem>, m: nat): seq<byte>
    requires m <= |cur|
  {
    if m == 0 then prefix
    else if InProfile(cur[m - 1].id) then Appended(prefix, cur, m - 1) + Encode(cur[m - 1])
    else Appended(prefix, cur, m - 1)
  }

  lemma {:induction false} AppendedGrows(prefix: seq<byte>, cur: seq<Elem>, m: nat, n: nat)
    requires m <= n <= |cur|
    ensures |Appended(prefix, cur, m)| <= |Appended(prefix, cur, n)|
    decreases n
  {
    if m < n {
      AppendedGrows(prefix, cur, m, n - 1);
    }
  }

  /** One turn of the last loop. */
  method AppendOne(element: Elem, newIe: array<byte>, pos: nat, ghost prefix: seq<byte>, ghost cur: seq<Elem>,
      ghost m: nat)
      returns (next: nat)
    requires m < |cur| && element == cur[m] && |Appended(prefix, cur, m + 1)| <= newIe.Length
    requires pos <= newIe.Length && newIe[..pos] == Appended(prefix, cur, m)
    modifies newIe
    ensures next <= newIe.Length && newIe[..next] == Appended(prefix, cur, m + 1)
  {
    next := pos;
    if element.id != NON_TX_BSSID_CAP && element.id != SSID {
      var out := Encode(element);
      Copy(newIe, pos, out);
      next := pos + |out|;
    }
  }

  /** The last loop: unspent profile elements are appended in order. */
  method AppendUnspent(subCopy: seq<byte>, newIe: array<byte>, start: nat, ghost cur: seq<Elem>) returns (pos: nat)
    requires Holds(subCopy, cur) && TailIsSafe(|subCopy|, Position(cur, |cur|)) && start <= newIe.Length
    requires |Appended(newIe[..start], cur, |cur|)| <= newIe.Length
    modifies newIe
    ensures pos <= newIe.Length && newIe[..pos] == Appended(old(newIe[..start]), cur, |cur|)
  {
    ghost var prefix := newIe[..start];
    pos := start;
    var tmpNew := 0;
    ghost var m := 0;
    HeaderInside(subCopy, cur, 0);
    while tmpNew + subCopy[tmpNew + 1] as int + 2 <= |subCopy|
      invariant m <= |cur| && tmpNew == Position(cur, m) && tmpNew + 1 < |subCopy|
      invariant m == |cur| <==> !WholeAt(subCopy, tmpNew)
      invariant pos <= newIe.Length && newIe[..pos] == Appended(prefix, cur, m)
      decreases |subCopy| - tmpNew
    {
      AppendedGrows(prefix, cur, m + 1, |cur|);
      HeldElement(subCopy, cur, m);
      HeaderInside(subCopy, cur, m + 1);
      pos := AppendOne(ElementFrom(subCopy, tmpNew), newIe, pos, prefix, cur, m);
      m := m + 1;
      if tmpNew + subCopy[tmpNew + 1] as int + 2 == |subCopy| {
        break;
      }
      tmpNew := tmpNew + subCopy[tmpNew + 1] as int + 2;
    }
    assert m == |cur|;
  }
}
