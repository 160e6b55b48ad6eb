/** What the element list of a non-transmitted BSS should be, given the list of
    the transmitting BSS and the profile (sections 9.4.2.45 and 11.1.3.8 of IEEE
    Std 802.11-2020), as skw_gen_new_ie computes it. */
module MbssidMerge {
  import opened ByteBuffer
  import opened CInt
  import opened Elements
  import opened Optional

  const SSID: byte := 0
  const MULTIPLE_BSSID: byte := 71
  const NON_TX_BSSID_CAP: byte := 83
  const VENDOR: byte := 221
  const EXTENSION: byte := 255
  const NON_INHERITANCE: byte := 56

  // ----- look-ups -----

  /** cfg80211_find_ie: the first element from `i` on with this id. */
  function FindId(es: seq<Elem>, i: nat, id: byte): (r: Option<nat>)
    requires i <= |es|
    ensures r.Some? ==> i <= r.value < |es| && es[r.value].id == id
    ensures r.Some? ==> forall j :: i <= j < r.value ==> es[j].id != id
    ensures r.None? ==> forall j :: i <= j < |es| ==> es[j].id != id
    decreases |es| - i
  {
    if i == |es| then None else if es[i].id == id then Some(i) else FindId(es, i + 1, id)
  }

  /** The bytes compared lie in the data, or the length test wraps before they matter. */
  predicate Matchable(len: nat, offset: nat) {
    offset >= 2 || offset + len < 2
  }

  /** skw_find_elem's test: the sum on the right of the length test is unsigned. */
  predicate DataMatches(e: Elem, m: seq<byte>, offset: nat)
    requires Matchable(|m|, offset)
  {
    && |e.data| >= U32(offset - 2 + |m|)
    && (offset >= 2 ==> offset - 2 + |m| <= |e.data| && e.data[offset - 2..offset - 2 + |m|] == m)
  }

  /** skw_find_elem: the first element from `i` on with this id and these data bytes. */
  function FindMatch(es: seq<Elem>, i: nat, id: byte, m: seq<byte>, offset: nat): (r: Option<nat>)
    requires i <= |es| && Matchable(|m|, offset)
    ensures r.Some? ==> i <= r.value < |es| && es[r.value].id == id && DataMatches(es[r.value], m, offset)
    ensures r.Some? ==> forall j :: i <= j < r.value ==> !(es[j].id == id && DataMatches(es[j], m, offset))
    ensures r.None? ==> forall j :: i <= j < |es| ==> !(es[j].id == id && DataMatches(es[j], m, offset))
    decreases |es| - i
  {
    if i == |es| then None
    else if es[i].id == id && DataMatches(es[i], m, offset) then Some(i)
    else FindMatch(es, i + 1, id, m, offset)
  }

  /** With match offset 0 and at most one byte to match the unsigned length test wraps
      and nothing ever matches: the look-ups of the non-inheritance element (one byte)
      and of a profile continuation (none) always come back empty. */
  lemma OffsetZeroFindsNothing(es: seq<Elem>, id: byte, m: seq<byte>)
    requires |m| <= 1
    ensures FindMatch(es, 0, id, m, 0) == None
  {
    assert U32(0 - 2 + |m|) == TWO_32 - 2 + |m|;
  }

  /** The non-inheritance element as found with this match offset. */
  function NonInheritance(sub: seq<Elem>, offset: nat): Option<Elem>
    requires offset != 1
  {
    match FindMatch(sub, 0, EXTENSION, [NON_INHERITANCE], offset)
    case Some(k) => Some(sub[k])
    case None => None
  }

  // ----- inheritance -----

  /** The two id lists of a non-inheritance element, if both fit in it. */
  function InheritanceLists(e: Elem): Option<(seq<byte>, seq<byte>)> {
    if |e.data| < 2 then None else
    var idLen := e.data[1] as int;
    if |e.data| < 3 + idLen then None else
    var extLen := e.data[2 + idLen] as int;
    if |e.data| < 3 + idLen + extLen then None
    else Some((e.data[2..2 + idLen], e.data[3 + idLen..3 + idLen + extLen]))
  }

  predicate Usable(e: Elem) {
    (e.id == EXTENSION ==> |e.data| >= 1) && (e.id == VENDOR ==> |e.data| >= 5)
  }

  /** The list that governs `e` names it. */
  predicate Listed(e: Elem, ni: Option<Elem>)
    requires Usable(e)
  {
    ni.Some? && InheritanceLists(ni.value).Some? &&
    var lists := InheritanceLists(ni.value).value;
    if e.id == EXTENSION then e.data[0] in lists.1 else e.id in lists.0
  }

  predicate Inherited(e: Elem, ni: Option<Elem>)
    requires Usable(e)
  {
    e.id != MULTIPLE_BSSID && !Listed(e, ni)
  }

  // ----- the walk over the old elements -----

  ghost predicate AllUsable(es: seq<Elem>) {
    forall i :: 0 <= i < |es| ==> Usable(es[i])
  }

  /** The profile element that would stand in for `was`. */
  function Lookup(cur: seq<Elem>, was: Elem): Option<nat>
    requires Usable(was)
  {
    if was.id == EXTENSION then FindMatch(cur, 0, EXTENSION, [was.data[0]], 2) else FindId(cur, 0, was.id)
  }

  predicate SameVendorType(a: Elem, b: Elem) {
    |a.data| >= 5 && |b.data| >= 5 && a.data[..5] == b.data[..5]
  }

  datatype Fate = Kept | Dropped | Replaced(slot: nat)

  function FateOf(cur: seq<Elem>, was: Elem, ni: Option<Elem>): Fate
    requires Usable(was)
  {
    match Lookup(cur, was)
    case None => if Inherited(was, ni) then Kept else Dropped
    case Some(k) => if was.id == VENDOR && !SameVendorType(was, cur[k]) then Kept else Replaced(k)
  }

  /** Consuming a profile element overwrites its id with that of an SSID. */
  function Spend(cur: seq<Elem>, k: nat): (r: seq<Elem>)
    requires k < |cur|
    ensures |r| == |cur|
  {
    cur[k := Elem(SSID, cur[k].data)]
  }

  datatype Origin = FromOld(i: nat) | FromSub(k: nat)

  function Emitted(fate: Fate, i: nat): seq<Origin> {
    match fate
    case Kept => [FromOld(i)]
    case Dropped => []
    case Replaced(k) => [FromSub(k)]
  }

  datatype Progress = Progress(origins: seq<Origin>, cur: seq<Elem>)

  /** After the first n old elements. */
  function Walk(sub: seq<Elem>, olds: seq<Elem>, ni: Option<Elem>, n: nat): (p: Progress)
    requires n <= |olds| && forall i :: 0 <= i < |olds| ==> Usable(olds[i])
    ensures |p.cur| == |sub|
  {
    if n == 0 then Progress([], sub)
    else
      var p := Walk(sub, olds, ni, n - 1);
      match FateOf(p.cur, olds[n - 1], ni)
      case Kept => p.(origins := p.origins + [FromOld(n - 1)])
      case Dropped => p
      case Replaced(k) => Progress(p.origins + [FromSub(k)], Spend(p.cur, k))
  }

  predicate InProfile(id: byte) { id != SSID && id != NON_TX_BSSID_CAP }

  /** Profile elements among the first m that are still unspent. */
  function Unspent(cur: seq<Elem>, m: nat): seq<Origin>
    requires m <= |cur|
  {
    if m == 0 then []
    else if InProfile(cur[m - 1].id) then Unspent(cur, m - 1) + [FromSub(m - 1)]
    else Unspent(cur, m - 1)
  }

  function NewSsid(sub: seq<Elem>): seq<Origin> {
    match FindId(sub, 0, SSID)
    case None => []
    case Some(k) => [FromSub(k)]
  }

  function AfterSsid(ie: seq<Elem>): seq<Elem> {
    match FindId(ie, 0, SSID)
    case None => ie
    case Some(k) => ie[k + 1..]
  }

  /** Where every element of the merged list comes from, in order. */
  function Origins(sub: seq<Elem>, olds: seq<Elem>, ni: Option<Elem>): seq<Origin>
    requires forall i :: 0 <= i < |olds| ==> Usable(olds[i])
  {
    var p := Walk(sub, olds, ni, |olds|);
    NewSsid(sub) + p.origins + Unspent(p.cur, |sub|)
  }

  predicate Known(o: Origin, sub: seq<Elem>, olds: seq<Elem>) {
    match o
    case FromOld(i) => i < |olds|
    case FromSub(k) => k < |sub|
  }

  function Source(o: Origin, sub: seq<Elem>, olds: seq<Elem>): Elem
    requires Known(o, sub, olds)
  {
    match o
    case FromOld(i) => olds[i]
    case FromSub(k) => sub[k]
  }

  ghost predicate AllKnown(os: seq<Origin>, sub: seq<Elem>, olds: seq<Elem>) {
    forall j :: 0 <= j < |os| ==> Known(os[j], sub, olds)
  }

  /** The elements themselves: every origin with its original bytes. */
  function Render(os: seq<Origin>, sub: seq<Elem>, olds: seq<Elem>): (es: seq<Elem>)
    requires forall j :: 0 <= j < |os| ==> Known(os[j], sub, olds)
    ensures |es| == |os|
  {
    seq(|os|, j requires 0 <= j < |os| => Source(os[j], sub, olds))
  }

  // ----- consumption by overwriting ids loses and repeats nothing -----

  /** How often `o` occurs. */
  function Times(os: seq<Origin>, o: Origin): nat {
    if os == [] then 0 else Times(os[..|os| - 1], o) + if os[|os| - 1] == o then 1 else 0
  }

  lemma {:induction false} TimesConcat(a: seq<Origin>, b: seq<Origin>, o: Origin)
    ensures Times(a + b, o) == Times(a, o) + Times(b, o)
    decreases |b|
  {
    if b == [] {
      assert a + b == a;
    } else {
      var n := |b| - 1;
      TimesConcat(a, b[..n], o);
      assert (a + b)[..|a| + n] == a + b[..n];
    }
  }

  lemma TimesOne(o: Origin, p: Origin)
    ensures Times([o], p) == if o == p then 1 else 0
  {
    assert [o][..0] == [];
  }

  lemma TimesAppend(a: seq<Origin>, p: Origin, o: Origin)
    ensures Times(a + [p], o) == Times(a, o) + if p == o then 1 else 0
  {
    TimesConcat(a, [p], o);
    TimesOne(p, o);
  }

  /** A profile element is either untouched and not yet emitted, or emitted once
      and marked; its data never changes. */
  ghost predicate Tracked(sub: seq<Elem>, p: Progress, k: nat)
    requires k < |sub| == |p.cur|
  {
    if p.cur[k] == sub[k] then Times(p.origins, FromSub(k)) == 0
    else p.cur[k] == Elem(SSID, sub[k].data) && sub[k].id != SSID && Times(p.origins, FromSub(k)) == 1
  }

  ghost predicate NoSsid(olds: seq<Elem>) {
    forall i :: 0 <= i < |olds| ==> olds[i].id != SSID
  }

  /** Emitting one origin, and marking the element it spends, keeps track. */
  lemma EmitTracks(sub: seq<Elem>, p: Progress, q: Progress, o: Origin, k: nat)
    requires k < |sub| == |p.cur| && Tracked(sub, p, k) && q.origins == p.origins + [o]
    requires o.FromSub? ==> o.k < |sub| && sub[o.k].id != SSID && p.cur[o.k].id != SSID && q.cur == Spend(p.cur, o.k)
    requires o.FromOld? ==> q.cur == p.cur
    ensures Tracked(sub, q, k)
  {
    TimesAppend(p.origins, o, FromSub(k));
  }

  lemma {:induction false} WalkTracks(sub: seq<Elem>, olds: seq<Elem>, ni: Option<Elem>, n: nat)
    requires n <= |olds| && AllUsable(olds) && NoSsid(olds)
    ensures var p := Walk(sub, olds, ni, n);
            && AllKnown(p.origins, sub, olds)
            && forall k :: 0 <= k < |sub| ==> Tracked(sub, p, k)
  {
    if n > 0 {
      WalkTracks(sub, olds, ni, n - 1);
      var p, q := Walk(sub, olds, ni, n - 1), Walk(sub, olds, ni, n);
      var fate := FateOf(p.cur, olds[n - 1], ni);
      if fate.Replaced? {
        assert Tracked(sub, p, fate.slot);
      }
      forall k | 0 <= k < |sub| ensures Tracked(sub, q, k) {
        assert Tracked(sub, p, k);
        if !fate.Dropped? {
          EmitTracks(sub, p, q, Emitted(fate, n - 1)[0], k);
        }
      }
    }
  }

  lemma UnspentTimes(cur: seq<Elem>, m: nat, o: Origin)
    requires m < |cur|
    ensures Times(Unspent(cur, m + 1), o)
         == Times(Unspent(cur, m), o) + if InProfile(cur[m].id) && o == FromSub(m) then 1 else 0
  {
    TimesAppend(Unspent(cur, m), FromSub(m), o);
  }

  lemma {:induction false} UnspentOnce(cur: seq<Elem>, m: nat, k: nat)
    requires m <= |cur| && k < |cur|
    ensures Times(Unspent(cur, m), FromSub(k)) == if k < m && InProfile(cur[k].id) then 1 else 0
  {
    if m > 0 {
      UnspentOnce(cur, m - 1, k);
      UnspentTimes(cur, m - 1, FromSub(k));
    }
  }

  /** Every profile element other than SSID and capability appears exactly once;
      the first SSID once, other SSIDs never, the capability at most once. */
  lemma ProfileElementsOnce(sub: seq<Elem>, olds: seq<Elem>, ni: Option<Elem>, k: nat)
    requires AllUsable(olds) && NoSsid(olds) && k < |sub|
    ensures var t := Times(Origins(sub, olds, ni), FromSub(k));
            && (sub[k].id != 0 && sub[k].id != 83 ==> t == 1)
            && (sub[k].id == 0 ==> t == if FindId(sub, 0, 0) == Some(k) then 1 else 0)
            && t <= 1
  {
    var p := Walk(sub, olds, ni, |olds|);
    WalkTracks(sub, olds, ni, |olds|);
    assert Tracked(sub, p, k);
    UnspentOnce(p.cur, |sub|, k);
    TimesConcat(NewSsid(sub) + p.origins, Unspent(p.cur, |sub|), FromSub(k));
    TimesConcat(NewSsid(sub), p.origins, FromSub(k));
    var first := FindId(sub, 0, SSID);
    if first.Some? {
      TimesOne(FromSub(first.value), FromSub(k));
    }
  }

  // ----- what happens to each old element -----

  predicate Matching(was: Elem, e: Elem)
    requires Usable(was)
  {
    && e.id == was.id
    && (was.id == EXTENSION ==> |e.data| >= 1 && e.data[0] == was.data[0])
    && (was.id == VENDOR ==> SameVendorType(was, e))
  }

  function FateAt(sub: seq<Elem>, olds: seq<Elem>, ni: Option<Elem>, i: nat): Fate
    requires i < |olds| && forall i :: 0 <= i < |olds| ==> Usable(olds[i])
  {
    FateOf(Walk(sub, olds, ni, i).cur, olds[i], ni)
  }

  lemma WalkStep(sub: seq<Elem>, olds: seq<Elem>, ni: Option<Elem>, n: nat)
    requires n < |olds| && AllUsable(olds)
    ensures Walk(sub, olds, ni, n + 1).origins
         == Walk(sub, olds, ni, n).origins + Emitted(FateAt(sub, olds, ni, n), n)
  {
  }

  /** What the first n fates emit. */
  function EmitAll(fates: seq<Fate>, n: nat): seq<Origin>
    requires n <= |fates|
  {
    if n == 0 then []
    else
      match fates[n - 1]
      case Kept => EmitAll(fates, n - 1) + [FromOld(n - 1)]
      case Dropped => EmitAll(fates, n - 1)
      case Replaced(k) => EmitAll(fates, n - 1) + [FromSub(k)]
  }

  lemma {:induction false} WalkEmits(sub: seq<Elem>, olds: seq<Elem>, ni: Option<Elem>, fates: seq<Fate>, n: nat)
    requires n <= |olds| == |fates| && AllUsable(olds)
    requires forall i :: 0 <= i < |olds| ==> fates[i] == FateAt(sub, olds, ni, i)
    ensures Walk(sub, olds, ni, n).origins == EmitAll(fates, n)
  {
    if n > 0 {
      WalkEmits(sub, olds, ni, fates, n - 1);
      WalkStep(sub, olds, ni, n - 1);
    }
  }

  lemma EmitTimes(fates: seq<Fate>, n: nat, i: nat)
    requires 0 < n <= |fates|
    ensures Times(EmitAll(fates, n), FromOld(i))
         == Times(EmitAll(fates, n - 1), FromOld(i)) + if fates[n - 1].Kept? && i == n - 1 then 1 else 0
  {
    var before := EmitAll(fates, n - 1);
    match fates[n - 1]
    case Kept => TimesAppend(before, FromOld(n - 1), FromOld(i));
    case Dropped =>
    case Replaced(k) => TimesAppend(before, FromSub(k), FromOld(i));
  }

  lemma {:induction false} OldTimes(fates: seq<Fate>, n: nat, i: nat)
    requires n <= |fates| && i < |fates|
    ensures Times(EmitAll(fates, n), FromOld(i)) == if i < n && fates[i].Kept? then 1 else 0
  {
    if n == 0 {
      assert EmitAll(fates, n) == [];
    } else {
      OldTimes(fates, n - 1, i);
      EmitTimes(fates, n, i);
    }
  }

  lemma {:induction false} UnspentHasNoOld(cur: seq<Elem>, m: nat, i: nat)
    requires m <= |cur|
    ensures Times(Unspent(cur, m), FromOld(i)) == 0
  {
    if m > 0 {
      UnspentHasNoOld(cur, m - 1, i);
      UnspentTimes(cur, m - 1, FromOld(i));
    }
  }

  /** An old element appears once when it is kept and never otherwise. */
  lemma OldElementTimes(sub: seq<Elem>, olds: seq<Elem>, ni: Option<Elem>, i: nat)
    requires AllUsable(olds) && i < |olds|
    ensures Times(Origins(sub, olds, ni), FromOld(i)) == if FateAt(sub, olds, ni, i).Kept? then 1 else 0
  {
    var p := Walk(sub, olds, ni, |olds|);
    var fates := seq(|olds|, j requires 0 <= j < |olds| => FateAt(sub, olds, ni, j));
    WalkEmits(sub, olds, ni, fates, |olds|);
    OldTimes(fates, |olds|, i);
    UnspentHasNoOld(p.cur, |sub|, i);
    TimesConcat(NewSsid(sub) + p.origins, Unspent(p.cur, |sub|), FromOld(i));
    TimesConcat(NewSsid(sub), p.origins, FromOld(i));
    var first := FindId(sub, 0, SSID);
    if first.Some? {
      TimesOne(FromSub(first.value), FromOld(i));
    }
  }

  /** The look-up's condition, which leaves the vendor type out. */
  predicate Answers(was: Elem, e: Elem)
    requires Usable(was)
  {
    e.id == was.id && (was.id == 255 ==> |e.data| >= 1 && e.data[0] == was.data[0])
  }

  /** The first element that answers `was`. */
  ghost predicate FirstAnswer(cur: seq<Elem>, was: Elem, k: nat)
    requires Usable(was)
  {
    k < |cur| && Answers(was, cur[k]) && forall j :: 0 <= j < k ==> !Answers(was, cur[j])
  }

  ghost predicate Unanswered(cur: seq<Elem>, was: Elem)
    requires Usable(was)
  {
    forall k :: 0 <= k < |cur| ==> !Answers(was, cur[k])
  }

  /** What becomes of an old element, on the two lists alone. The first element that
      answers it replaces it, unless both are vendor elements of different types, when
      the old one stays. Without an answer it stays exactly when it is inherited. */
  lemma FateExactly(cur: seq<Elem>, was: Elem, ni: Option<Elem>, k: nat)
    requires Usable(was)
    ensures FateOf(cur, was, ni) == Replaced(k) <==>
      FirstAnswer(cur, was, k) && (was.id == 221 ==> was.data[..5] <= cur[k].data)
    ensures FateOf(cur, was, ni).Dropped? <==>
      Unanswered(cur, was) && (was.id == 71 || Listed(was, ni))
    ensures FirstAnswer(cur, was, k) ==>
      (FateOf(cur, was, ni).Kept? <==> was.id == 221 && !(was.data[..5] <= cur[k].data))
    ensures Unanswered(cur, was) ==>
      (FateOf(cur, was, ni).Kept? <==> was.id != 71 && !Listed(was, ni))
  {
    LookupExactly(cur, was, k);
    if k < |cur| && was.id == VENDOR {
      VendorTypes(was, cur[k]);
    }
  }

  /** The five bytes compared are an organisation and its own type. */
  lemma VendorTypes(a: Elem, b: Elem)
    requires |a.data| >= 5
    ensures SameVendorType(a, b) <==> a.data[..5] <= b.data
  {
    assert |b.data| >= 5 ==> b.data[..5] <= b.data;
  }

  lemma LookupExactly(cur: seq<Elem>, was: Elem, k: nat)
    requires Usable(was)
    ensures Lookup(cur, was) == Some(k) <==> FirstAnswer(cur, was, k)
    ensures Lookup(cur, was).None? <==> Unanswered(cur, was)
  {
    forall e: Elem | was.id == EXTENSION && e.id == EXTENSION
      ensures DataMatches(e, [was.data[0]], 2) <==> Answers(was, e)
    {
      assert |e.data| >= 1 ==> e.data[0..1] == [e.data[0]];
    }
  }

  /** An RSN element of the profile takes the place of the old one. */
  lemma RsnIsReplaced()
    ensures var sub, olds := [Elem(0, [98]), Elem(48, [2, 0])], [Elem(48, [1, 0])];
            Origins(sub, olds, None) == [FromSub(0), FromSub(1)]
  {
    var sub, olds := [Elem(SSID, [98]), Elem(48, [2, 0])], [Elem(48, [1, 0])];
    FateExactly(sub, olds[0], None, 1);
    var cur := Spend(sub, 1);
    assert Walk(sub, olds, None, 0) == Progress([], sub);
    assert Walk(sub, olds, None, 1) == Progress([FromSub(1)], cur);
    assert Unspent(cur, 0) == [] && Unspent(cur, 1) == [] && Unspent(cur, 2) == [];
  }

  /** A list is read back as it was built: an extension id, the ids and their number,
      the extension ids and theirs. */
  lemma ListsAreRead(ids: seq<byte>, exts: seq<byte>)
    requires |ids| + |exts| + 3 < 256
    ensures var ni := Elem(255, [56, |ids|] + ids + [|exts|] + exts);
            forall e: Elem :: Usable(e) ==>
              (Inherited(e, Some(ni)) <==>
                e.id != 71 && if e.id == 255 then e.data[0] !in exts else e.id !in ids)
  {
    var data: Data := [NON_INHERITANCE, |ids|] + ids + [|exts|] + exts;
    assert data[1] == |ids| && data[2 + |ids|] == |exts|;
    assert data[2..2 + |ids|] == ids && data[3 + |ids|..3 + |ids| + |exts|] == exts;
  }

  /** The profile's first SSID comes first. */
  lemma SsidComesFirst(sub: seq<Elem>, olds: seq<Elem>, ni: Option<Elem>, k: nat)
    requires AllUsable(olds) && FindId(sub, 0, 0) == Some(k)
    ensures Origins(sub, olds, ni) != [] && Origins(sub, olds, ni)[0] == FromSub(k)
  {
  }

  /** The leftovers come last, in the order of the profile. */
  lemma {:induction false} LeftoversInOrder(cur: seq<Elem>, m: nat, i: nat, j: nat)
    requires m <= |cur| && i < j < |Unspent(cur, m)|
    ensures Unspent(cur, m)[i].FromSub? && Unspent(cur, m)[j].FromSub?
    ensures Unspent(cur, m)[i].k < Unspent(cur, m)[j].k < m
  {
    if InProfile(cur[m - 1].id) {
      LeftoversBelow(cur, m - 1, i);
      if j < |Unspent(cur, m - 1)| {
        LeftoversInOrder(cur, m - 1, i, j);
      }
    } else {
      LeftoversInOrder(cur, m - 1, i, j);
    }
  }

  lemma {:induction false} LeftoversBelow(cur: seq<Elem>, m: nat, i: nat)
    requires m <= |cur| && i < |Unspent(cur, m)|
    ensures Unspent(cur, m)[i].FromSub? && Unspent(cur, m)[i].k < m
  {
    if i < |Unspent(cur, m - 1)| {
      LeftoversBelow(cur, m - 1, i);
    }
  }

  /** Every old element is kept, or replaced in its place by a profile element
      that matches it and was not used before, or dropped because it is a Multiple
      BSSID element or named by the non-inheritance list while the profile has
      nothing left for it. Only a vendor element is kept against that list, and only a
      vendor element is kept although the profile answers it, with another type. */
  lemma OldElementFate(sub: seq<Elem>, olds: seq<Elem>, ni: Option<Elem>, i: nat)
    requires AllUsable(olds) && NoSsid(olds) && i < |olds|
    ensures var p, fate := Walk(sub, olds, ni, i), FateAt(sub, olds, ni, i);
            && (fate.Replaced? ==>
                  && fate.slot < |sub| && Matching(olds[i], sub[fate.slot])
                  && Times(p.origins, FromSub(fate.slot)) == 0)
            && (fate.Dropped? ==>
                  && (olds[i].id == 71 || Listed(olds[i], ni))
                  && forall k :: 0 <= k < |sub| ==> !Matching(olds[i], p.cur[k]))
            && (fate.Kept? && !Inherited(olds[i], ni) ==> olds[i].id == 221)
            && (fate.Kept? && olds[i].id != 221 ==> forall k :: 0 <= k < |sub| ==> !Matching(olds[i], p.cur[k]))
            && (fate.Kept? && olds[i].id == 221 ==>
                  forall k: nat :: FirstAnswer(p.cur, olds[i], k) ==> !(olds[i].data[..5] <= p.cur[k].data))
            && Walk(sub, olds, ni, i + 1).origins == p.origins + Emitted(fate, i)
  {
    WalkStep(sub, olds, ni, i);
    WalkTracks(sub, olds, ni, i);
    var p, fate := Walk(sub, olds, ni, i), FateAt(sub, olds, ni, i);
    forall k: nat ensures fate.Kept? && FirstAnswer(p.cur, olds[i], k) ==>
      olds[i].id == VENDOR && !(olds[i].data[..5] <= p.cur[k].data)
    {
      FateExactly(p.cur, olds[i], ni, k);
    }
    LookupExactly(p.cur, olds[i], 0);
    if fate.Replaced? {
      assert Tracked(sub, p, fate.slot);
    }
  }
}
