/** The merged list never outgrows the two lists it is made from. */
module MbssidSize {
  import opened ByteBuffer
  import opened Elements
  import opened Optional
  import opened MbssidMerge

  function Size(e: Elem): nat { |e.data| + 2 }

  /** Bytes of the elements that are not (or no longer) marked as an SSID. */
  function Live(cur: seq<Elem>, m: nat): nat
    requires m <= |cur|
  {
    if m == 0 then 0 else Live(cur, m - 1) + if cur[m - 1].id != SSID then Size(cur[m - 1]) else 0
  }

  lemma {:induction false} LiveIsPart(cur: seq<Elem>, m: nat, k: nat)
    requires m <= |cur| && k < m
    ensures Live(cur, m) <= Position(cur, m)
    ensures cur[k].id == SSID ==> Live(cur, m) + Size(cur[k]) <= Position(cur, m)
  {
    if m > 1 {
      LiveIsPart(cur, m - 1, if k == m - 1 then 0 else k);
    }
  }

  lemma {:induction false} SpendLive(cur: seq<Elem>, k: nat, m: nat)
    requires k < |cur| && m <= |cur| && cur[k].id != SSID
    ensures Live(cur, m) == Live(Spend(cur, k), m) + if k < m then Size(cur[k]) else 0
  {
    if m > 0 {
      SpendLive(cur, k, m - 1);
    }
  }

  /** Bytes of the rendered origins. */
  function Bytes(os: seq<Origin>, sub: seq<Elem>, olds: seq<Elem>): nat
    requires forall j :: 0 <= j < |os| ==> Known(os[j], sub, olds)
  {
    if os == [] then 0
    else
      var n := |os| - 1;
      assert forall j :: 0 <= j < n ==> Known(os[..n][j], sub, olds);
      Bytes(os[..n], sub, olds) + Size(Source(os[n], sub, olds))
  }

  lemma {:induction false} BytesConcat(a: seq<Origin>, b: seq<Origin>, sub: seq<Elem>, olds: seq<Elem>)
    requires AllKnown(a, sub, olds) && AllKnown(b, sub, olds)
    ensures Bytes(a + b, sub, olds) == Bytes(a, sub, olds) + Bytes(b, sub, olds)
    decreases |b|
  {
    if b == [] {
      assert a + b == a;
    } else {
      var n := |b| - 1;
      BytesConcat(a, b[..n], sub, olds);
      assert (a + b)[..|a| + n] == a + b[..n];
    }
  }

  lemma BytesAppend(os: seq<Origin>, o: Origin, sub: seq<Elem>, olds: seq<Elem>)
    requires AllKnown(os, sub, olds) && Known(o, sub, olds)
    ensures AllKnown(os + [o], sub, olds)
    ensures Bytes(os + [o], sub, olds) == Bytes(os, sub, olds) + Size(Source(o, sub, olds))
  {
    assert (os + [o])[..|os|] == os;
  }

  lemma {:induction false} BytesIsLength(os: seq<Origin>, sub: seq<Elem>, olds: seq<Elem>)
    requires AllKnown(os, sub, olds)
    ensures |EncodeAll(Render(os, sub, olds))| == Bytes(os, sub, olds)
    decreases |os|
  {
    if os != [] {
      var n := |os| - 1;
      BytesIsLength(os[..n], sub, olds);
      RenderLast(os, sub, olds);
      EncodeAppend(Render(os[..n], sub, olds), Source(os[n], sub, olds));
    }
  }

  lemma RenderLast(os: seq<Origin>, sub: seq<Elem>, olds: seq<Elem>)
    requires AllKnown(os, sub, olds) && os != []
    ensures AllKnown(os[..|os| - 1], sub, olds)
    ensures Render(os, sub, olds) == Render(os[..|os| - 1], sub, olds) + [Source(os[|os| - 1], sub, olds)]
  {
  }

  /** One old element: what it emits is paid for by itself or by the element it spends. */
  lemma StepBytes(sub: seq<Elem>, olds: seq<Elem>, ni: Option<Elem>, n: nat)
    requires n < |olds| && AllUsable(olds) && NoSsid(olds)
    ensures AllKnown(Walk(sub, olds, ni, n).origins, sub, olds)
    ensures AllKnown(Walk(sub, olds, ni, n + 1).origins, sub, olds)
    ensures var p, q := Walk(sub, olds, ni, n), Walk(sub, olds, ni, n + 1);
            Bytes(q.origins, sub, olds) + Live(q.cur, |sub|)
            <= Bytes(p.origins, sub, olds) + Live(p.cur, |sub|) + Size(olds[n])
  {
    WalkTracks(sub, olds, ni, n);
    WalkTracks(sub, olds, ni, n + 1);
    var p := Walk(sub, olds, ni, n);
    match FateOf(p.cur, olds[n], ni)
    case Dropped =>
    case Kept =>
      BytesAppend(p.origins, FromOld(n), sub, olds);
    case Replaced(k) =>
      assert Tracked(sub, p, k);
      BytesAppend(p.origins, FromSub(k), sub, olds);
      SpendLive(p.cur, k, |sub|);
  }

  /** What the walk has written is paid for after n old elements. */
  ghost predicate Paid(sub: seq<Elem>, olds: seq<Elem>, ni: Option<Elem>, n: nat)
    requires n <= |olds| && AllUsable(olds)
  {
    var p := Walk(sub, olds, ni, n);
    && AllKnown(p.origins, sub, olds)
    && Bytes(p.origins, sub, olds) + Live(p.cur, |sub|) <= Position(olds, n) + Live(sub, |sub|)
  }

  lemma StepPaid(sub: seq<Elem>, olds: seq<Elem>, ni: Option<Elem>, n: nat)
    requires n < |olds| && AllUsable(olds) && NoSsid(olds) && Paid(sub, olds, ni, n)
    ensures Paid(sub, olds, ni, n + 1)
  {
    StepBytes(sub, olds, ni, n);
    assert Position(olds, n + 1) == Position(olds, n) + Size(olds[n]);
  }

  lemma {:induction false} WalkBytes(sub: seq<Elem>, olds: seq<Elem>, ni: Option<Elem>, n: nat)
    requires n <= |olds| && AllUsable(olds) && NoSsid(olds)
    ensures Paid(sub, olds, ni, n)
  {
    if n > 0 {
      WalkBytes(sub, olds, ni, n - 1);
      StepPaid(sub, olds, ni, n - 1);
    }
  }

  lemma {:induction false} UnspentBytes(cur: seq<Elem>, m: nat, sub: seq<Elem>, olds: seq<Elem>)
    requires m <= |cur| == |sub| && forall k :: 0 <= k < |sub| ==> cur[k].data == sub[k].data
    ensures AllKnown(Unspent(cur, m), sub, olds)
    ensures Bytes(Unspent(cur, m), sub, olds) <= Live(cur, m)
  {
    if m == 0 {
      assert Unspent(cur, m) == [];
    } else {
      UnspentBytes(cur, m - 1, sub, olds);
      if InProfile(cur[m - 1].id) {
        assert cur[m - 1].data == sub[m - 1].data;
        BytesAppend(Unspent(cur, m - 1), FromSub(m - 1), sub, olds);
      } else {
        assert Unspent(cur, m) == Unspent(cur, m - 1);
      }
    }
  }

  lemma SsidBytes(sub: seq<Elem>, olds: seq<Elem>)
    ensures AllKnown(NewSsid(sub), sub, olds)
    ensures Bytes(NewSsid(sub), sub, olds) + Live(sub, |sub|) <= Position(sub, |sub|)
  {
    var first := FindId(sub, 0, SSID);
    if first.Some? {
      BytesAppend([], FromSub(first.value), sub, olds);
      assert [] + [FromSub(first.value)] == NewSsid(sub);
      LiveIsPart(sub, |sub|, first.value);
    } else if sub != [] {
      LiveIsPart(sub, |sub|, 0);
    }
  }

  lemma OriginsKnown(sub: seq<Elem>, olds: seq<Elem>, ni: Option<Elem>)
    requires AllUsable(olds) && NoSsid(olds)
    ensures AllKnown(Origins(sub, olds, ni), sub, olds)
    ensures Bytes(Origins(sub, olds, ni), sub, olds) <= Position(olds, |olds|) + Position(sub, |sub|)
  {
    var p := Walk(sub, olds, ni, |olds|);
    WalkBytes(sub, olds, ni, |olds|);
    WalkTracks(sub, olds, ni, |olds|);
    forall k | 0 <= k < |sub| ensures p.cur[k].data == sub[k].data {
      assert Tracked(sub, p, k);
    }
    UnspentBytes(p.cur, |sub|, sub, olds);
    SsidBytes(sub, olds);
    BytesConcat(NewSsid(sub), p.origins, sub, olds);
    BytesConcat(NewSsid(sub) + p.origins, Unspent(p.cur, |sub|), sub, olds);
  }

  /** The merged element list. */
  function Merge(sub: seq<Elem>, olds: seq<Elem>, ni: Option<Elem>): seq<Elem>
    requires forall i :: 0 <= i < |olds| ==> Usable(olds[i]) && olds[i].id != SSID
  {
    assert AllKnown(Origins(sub, olds, ni), sub, olds) by { OriginsKnown(sub, olds, ni); }
    Render(Origins(sub, olds, ni), sub, olds)
  }

  /** The output takes at most as many bytes as the old elements and the profile. */
  lemma MergeFits(sub: seq<Elem>, olds: seq<Elem>, ni: Option<Elem>)
    requires AllUsable(olds) && NoSsid(olds)
    ensures |EncodeAll(Merge(sub, olds, ni))| <= |EncodeAll(olds)| + |EncodeAll(sub)|
  {
    OriginsKnown(sub, olds, ni);
    BytesIsLength(Origins(sub, olds, ni), sub, olds);
    EncodeLaid(olds);
    EncodeLaid(sub);
  }
}
