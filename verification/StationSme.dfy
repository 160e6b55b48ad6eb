/** The station's connection state machine: join and unjoin, authentication,
    association, the retry worker and the frames that move it, with every firmware
    command free to fail. */
module StationSme {
  import opened Optional
  import opened StationRetry

  const MAX_PEERS := 32
  const INVALID_ID := 0xff

  /** A 48-bit address. */
  type Mac = m: nat | m < 0x1_0000_0000_0000

  /** is_valid_ether_addr: neither zero nor a group address. */
  predicate ValidMac(m: Mac) {
    m != 0 && (m / 0x100_0000_0000) % 2 == 0
  }

  /** An accepted authentication request; a confirmed SAE exchange is over at once. */
  function AfterAuth(saeConfirm: bool, confirmed: bool): Attempt {
    Fresh(if saeConfirm && confirmed then Authed else Authing, confirmed)
  }

  datatype Peer = Peer(addr: Mac, iface: nat, active: bool)

  /** A peer context; `entry` says that it is published for transmission. */
  datatype Slot = Slot(peer: Option<Peer>, entry: bool)

  class Station {
    const id: nat
    var state: State
    var saeConfirmed: bool
    var bssid: Mac
    var ctxIdx: nat
    var retry: nat
    var timer: bool
    var workQueued: bool
    var peerMap: set<nat>
    var activedCtx: int
    var slots: seq<Slot>
    var lmacIfaces: set<nat>
    /** The BSS the firmware was last told to join and not told to leave. */
    ghost var joined: Option<Mac>
    /** Commands sent again since the request, and frames since then that cleared
        the retry counter without confirming SAE. */
    ghost var resends: nat
    ghost var clears: nat

    constructor (id: nat, slots: seq<Slot>, lmacIfaces: set<nat>)
      requires |slots| == MAX_PEERS
      requires forall i :: 0 <= i < MAX_PEERS ==> slots[i].peer.Some? ==> slots[i].peer.value.iface != id
      ensures Inv() && state == NoState && this.id == id
      ensures this.slots == slots && bssid == 0 && ctxIdx == 0 && joined == None && peerMap == {}
    {
      this.id, this.slots, this.lmacIfaces := id, slots, lmacIfaces;
      state, saeConfirmed, bssid, ctxIdx, retry, timer, workQueued := NoState, false, 0, 0, 0, false, false;
      peerMap, activedCtx, joined, resends, clears := {}, 0, None, 0, 0;
    }

    // ----- invariants -----

    predicate Ours(i: nat)
      requires i < |slots|
      reads this`slots
    {
      slots[i].peer.Some? && slots[i].peer.value.iface == id
    }

    /** The joined BSS, the one peer context bound for it and the LMAC bit agree. */
    ghost predicate Bindings()
      reads this`bssid, this`ctxIdx, this`peerMap, this`slots, this`lmacIfaces, this`joined, this`activedCtx
    {
      && |slots| == MAX_PEERS
      && (forall i :: i in peerMap ==> i < MAX_PEERS)
      && (forall i :: 0 <= i < MAX_PEERS ==> (i in peerMap <==> Ours(i)))
      && (if ValidMac(bssid) then Bound()
           else bssid == 0 && activedCtx == 0 && forall i :: 0 <= i < MAX_PEERS ==> !Ours(i))
    }

    /** A join is outstanding and everything the driver keeps for it is in place. */
    ghost predicate Bound()
      requires |slots| == MAX_PEERS
      reads this`bssid, this`ctxIdx, this`slots, this`lmacIfaces, this`joined, this`activedCtx
    {
      && joined == Some(bssid) && id in lmacIfaces
      && ctxIdx < MAX_PEERS && Ours(ctxIdx) && slots[ctxIdx].peer.value.addr == bssid
      && slots[ctxIdx].entry == slots[ctxIdx].peer.value.active
      && activedCtx == (if slots[ctxIdx].entry then 1 else 0)
      && forall i :: 0 <= i < MAX_PEERS && Ours(i) ==> i == ctxIdx
    }

    predicate Waiting()
      reads this`state
    {
      state.Authing? || state.Associng?
    }

    predicate ConnectedTo(mac: Mac)
      reads this`state, this`bssid
    {
      (state.Assoced? || state.Completed?) && bssid == mac
    }

    /** What the retry accounting sees of the station. */
    ghost function Acct(): Attempt
      reads this`state, this`saeConfirmed, this`retry, this`resends, this`clears
    {
      Attempt(state, saeConfirmed, retry, resends, clears)
    }

    /** At every release of the lock, whatever is received. */
    ghost predicate Base()
      reads this
    {
      Bindings() && Bounded(Acct()) && (Waiting() ==> timer || workQueued)
    }

    /** A station with a state has a join outstanding. */
    ghost predicate Backed()
      reads this`state, this`bssid
    {
      state != NoState ==> ValidMac(bssid)
    }

    /** At every release of the lock, unless a stray frame gave the station a state. */
    ghost predicate Inv()
      reads this
    {
      Base() && Backed()
    }

    /** A successful authentication frame with the all-zero address of no BSS, which is
        what a station that has not joined compares it with. */
    predicate StrayAuth(mac: Mac, success: bool)
      reads this`bssid
    {
      success && mac == 0 && bssid == 0
    }

    /** The peer at the context index has this address. */
    predicate PeerAnswers(mac: Mac)
      requires |slots| == MAX_PEERS
      reads this`ctxIdx, this`slots
    {
      ctxIdx < MAX_PEERS && slots[ctxIdx].peer.Some? && slots[ctxIdx].peer.value.addr == mac
    }

    /** A successful association response matching another interface's peer at this
        station's context index, which is 0 before the first join. */
    predicate StrayAssoc(mac: Mac, success: bool)
      requires |slots| == MAX_PEERS
      reads this`ctxIdx, this`slots
    {
      success && PeerAnswers(mac) && !Ours(ctxIdx)
    }

    /** The firmware hands out an index nobody else holds, or none of the 32. */
    predicate FreeIndex(idx: nat)
      requires |slots| == MAX_PEERS
      reads this`slots
    {
      idx < MAX_PEERS ==> slots[idx].peer.None? || Ours(idx)
    }

    // ----- peer contexts -----

    /** skw_peer_ctx: the interface's peers, lowest context first. */
    method PeerCtx(mac: Mac) returns (ctx: Option<nat>)
      requires |slots| == MAX_PEERS && forall i :: i in peerMap ==> i < MAX_PEERS
      ensures ctx.Some? ==> ctx.value in peerMap && slots[ctx.value].peer.Some?
      ensures ctx.Some? ==> slots[ctx.value].peer.value.addr == mac
      ensures ctx.None? ==> forall i :: 0 <= i < MAX_PEERS && i in peerMap && slots[i].peer.Some? ==>
        slots[i].peer.value.addr != mac
    {
      var idx := 0;
      while idx < MAX_PEERS
        invariant 0 <= idx <= MAX_PEERS
        invariant forall i :: 0 <= i < idx && i in peerMap && slots[i].peer.Some? ==> slots[i].peer.value.addr != mac
      {
        if idx in peerMap && slots[idx].peer.Some? && slots[idx].peer.value.addr == mac {
          return Some(idx);
        }
        idx := idx + 1;
      }
      ctx := None;
    }

    predicate JoinedTo(mac: Mac)
      reads this`bssid
    {
      ValidMac(mac) && mac == bssid
    }

    /** In a station the look-up finds the joined BSS and nothing else. */
    method OwnCtx(mac: Mac) returns (ctx: Option<nat>)
      requires Bindings()
      ensures ctx == if JoinedTo(mac) then Some(ctxIdx) else None
    {
      ctx := PeerCtx(mac);
      if ctx.Some? {
        assert Ours(ctx.value);
      }
    }

    /** __skw_peer_ctx_transmit(ctx, false) on the joined peer's context. */
    method TransmitOff()
      requires Bindings() && ValidMac(bssid)
      modifies this`slots, this`activedCtx
      ensures Bindings() && activedCtx == 0 && !slots[ctxIdx].entry && slots == old(slots)[ctxIdx := slots[ctxIdx]]
    {
      var peer := slots[ctxIdx].peer.value;
      if slots[ctxIdx].entry {
        activedCtx := activedCtx - 1;
        peer := peer.(active := false);
      }
      slots := slots[ctxIdx := Slot(Some(peer), false)];
    }

    /** __skw_peer_ctx_transmit(ctx, true): refused for a peer that is already active;
        the context counted is the peer's own interface's. */
    method TransmitOn()
      requires Bindings() && ctxIdx < MAX_PEERS && slots[ctxIdx].peer.Some?
      modifies this`slots, this`activedCtx
      ensures Bindings() && slots == old(slots)[ctxIdx := slots[ctxIdx]]
      ensures old(Ours(ctxIdx)) ==> activedCtx == 1 && slots[ctxIdx].entry
      ensures !old(Ours(ctxIdx)) ==> activedCtx == old(activedCtx)
      ensures slots[ctxIdx].peer == Some(old(slots[ctxIdx].peer.value).(active := true))
    {
      var peer := slots[ctxIdx].peer.value;
      if peer.active {
        return;
      }
      if peer.iface == id {
        activedCtx := activedCtx + 1;
      }
      slots := slots[ctxIdx := Slot(Some(peer.(active := true)), true)];
    }

    method Command() returns (ret: int)
    {
      ret := *;
    }

    /** The pending command goes out again; the firmware accepts it or not. */
    method Resend(accepted: bool) returns (ret: int)
      modifies this`resends
      ensures resends == old(resends) + 1 && (ret == 0 <==> accepted)
    {
      resends := resends + 1;
      ret := if accepted then 0 else -110;
    }

    // ----- join and unjoin -----

    /** skw_join */
    method Join(mac: Mac, peerIdx: nat) returns (ret: int)
      requires Bindings() && bssid == 0 && ValidMac(mac) && FreeIndex(peerIdx)
      modifies this`bssid, this`ctxIdx, this`peerMap, this`slots, this`lmacIfaces, this`joined
      ensures Bindings()
      ensures ret == 0 ==> bssid == mac && ctxIdx == peerIdx && lmacIfaces == old(lmacIfaces) + {id}
      ensures ret != 0 ==> ret < 0 && bssid == 0 && ctxIdx == old(ctxIdx)
      ensures ret != 0 ==> lmacIfaces == old(lmacIfaces) && slots == old(slots) && peerMap == old(peerMap)
    {
      var peerAlloc: bool := *;
      if !peerAlloc {
        return -12;
      }
      ret := Command();
      if ret < 0 {
        return;
      }
      joined := Some(mac);
      if peerIdx >= MAX_PEERS {
        var unjoined := Command();
        if unjoined == 0 {
          joined := None;
        }
        return -14;
      }
      slots := slots[peerIdx := Slot(Some(Peer(mac, id, false)), false)];
      peerMap := peerMap + {peerIdx};
      lmacIfaces := lmacIfaces + {id};
      bssid, ctxIdx := mac, peerIdx;
      ret := 0;
    }

    /** skw_unjoin: only the joined BSS is known; a refused command leaves the join
        outstanding, silent. */
    method Unjoin(mac: Mac) returns (ret: int)
      requires Bindings()
      modifies this`bssid, this`ctxIdx, this`peerMap, this`slots, this`lmacIfaces, this`joined, this`activedCtx
      ensures Bindings()
      ensures !old(JoinedTo(mac)) ==> ret == 0 && bssid == old(bssid) && slots == old(slots)
      ensures old(JoinedTo(mac)) && ret == 0 ==>
        bssid == 0 && ctxIdx == INVALID_ID && joined == None && id !in lmacIfaces
      ensures old(JoinedTo(mac)) && ret != 0 ==> bssid == mac && ctxIdx == old(ctxIdx) && activedCtx == 0
      ensures old(JoinedTo(mac)) && ret == 0 ==>
        slots == old(slots)[old(ctxIdx) := slots[old(ctxIdx)]] && slots[old(ctxIdx)].peer.None?
    {
      var ctx := OwnCtx(mac);
      if ctx.None? {
        return 0;
      }
      TransmitOff();
      ret := Command();
      if ret == 0 {
        joined := None;
        bssid, ctxIdx := 0, INVALID_ID;
        lmacIfaces := lmacIfaces - {id};
        slots := slots[ctx.value := Slot(None, slots[ctx.value].entry)];
        peerMap := peerMap - {ctx.value};
      }
    }

    /** skw_sta_leave: whatever the commands do, the station ends in no state. */
    method Leave(mac: Mac)
      requires Bindings() && Bounded(GivenUp(Acct()))
      modifies this
      ensures Inv() && !timer && Acct() == GivenUp(old(Acct())) && state == NoState && !saeConfirmed
      ensures bssid == old(bssid) || (mac == old(bssid) && bssid == 0)
    {
      timer := false;
      state := NoState;
      saeConfirmed := false;
      var _ := Unjoin(mac);
    }

    // ----- requests from cfg80211 -----

    /** skw_set_sta_timer, and the retry counter of a fresh attempt. */
    method BeginAttempt(next: State)
      modifies this`state, this`timer, this`retry, this`resends, this`clears
      ensures timer && Acct() == Fresh(next, saeConfirmed) && state == next && retry == 0
    {
      retry := 0;
      resends, clears := 0, 0;
      state := next;
      timer := true;
    }

    /** A started attempt that fails: the join is undone and the state dropped. */
    method Abandon(mac: Mac)
      requires Bindings() && Bounded(Acct().(state := NoState))
      modifies this`state, this`bssid, this`ctxIdx, this`peerMap, this`slots, this`lmacIfaces, this`joined,
        this`activedCtx
      ensures Inv() && Acct() == old(Acct()).(state := NoState)
      ensures !old(JoinedTo(mac)) ==> bssid == old(bssid)
    {
      var _ := Unjoin(mac);
      state := NoState;
    }

    /** The authentication command with its timer; a confirmed SAE exchange is over at once. */
    method SendAuth(saeConfirm: bool) returns (ret: int)
      modifies this`state, this`timer, this`retry, this`resends, this`clears
      ensures ret == 0 ==> timer && Acct() == AfterAuth(saeConfirm, saeConfirmed)
      ensures ret != 0 ==> !timer && Acct() == Fresh(Authing, saeConfirmed)
    {
      BeginAttempt(Authing);
      ret := Command();
      if ret != 0 {
        timer := false;
      } else if saeConfirm && saeConfirmed {
        state := Authed;
      }
    }

    /** The part of skw_auth behind the state check. */
    method StartAuth(mac: Mac, hasKey: bool, saeConfirm: bool) returns (ret: int)
      requires Bindings() && Bounded(Acct()) && (state.NoState? || state.Authed?)
      modifies this
      ensures Base() && (ValidMac(old(bssid)) ==> Backed()) && (ret != 0 ==> state == NoState)
      ensures ret == 0 || !old(JoinedTo(mac)) ==> bssid == old(bssid)
      ensures ret == 0 ==> timer
      ensures ret == 0 ==> Acct() == AfterAuth(saeConfirm, old(saeConfirmed))
    {
      ret := 0;
      if hasKey {
        ret := Command();
      }
      if ret >= 0 {
        ret := SendAuth(saeConfirm);
        if ret == 0 {
          return;
        }
      }
      Abandon(mac);
    }

    /** Everything skw_auth undoes and redoes before a station without a state may
        authenticate: a join left over from a refused unjoin, and the new join. */
    method Rejoin(mac: Mac, channelAllowed: bool, peerIdx: nat) returns (ret: int)
      requires Bindings() && state.NoState? && ValidMac(mac) && FreeIndex(peerIdx)
      modifies this`bssid, this`ctxIdx, this`peerMap, this`slots, this`lmacIfaces, this`joined, this`activedCtx
      ensures Bindings() && (ret == 0 ==> bssid == mac)
    {
      if ValidMac(bssid) {
        ret := Unjoin(bssid);
        if ret != 0 {
          return;
        }
      }
      if !channelAllowed {
        return -16;
      }
      ret := Join(mac, peerIdx);
    }

    /** skw_auth. In AUTHED nothing is joined and no address compared, so an accepted
        request leaves the BSS joined that was joined, whichever was asked for. */
    method Auth(mac: Mac, channelAllowed: bool, peerIdx: nat, hasKey: bool, saeConfirm: bool) returns (ret: int)
      requires Base() && ValidMac(mac) && FreeIndex(peerIdx)
      modifies this
      ensures Base() && (old(Backed()) ==> Backed())
      ensures old(Waiting()) ==> ret == -16 && Acct() == old(Acct()) && bssid == old(bssid)
      ensures !old(Waiting()) && ret != 0 ==> state == NoState
      ensures ret == 0 ==> bssid == if old(state).Authed? then old(bssid) else mac
      ensures old(state).Authed? && old(bssid) != mac ==> bssid == old(bssid)
      ensures ret == 0 ==> Acct() == if old(ConnectedTo(mac)) then old(Acct())
        else AfterAuth(saeConfirm, old(saeConfirmed))
    {
      match state
      case Authing => return -16;
      case Associng => return -16;
      case Assoced => ret := AuthRoaming(mac, channelAllowed, peerIdx, hasKey, saeConfirm);
      case Completed => ret := AuthRoaming(mac, channelAllowed, peerIdx, hasKey, saeConfirm);
      case NoState =>
        ret := Rejoin(mac, channelAllowed, peerIdx);
        if ret == 0 {
          ret := StartAuth(mac, hasKey, saeConfirm);
        }
      case Authed => ret := StartAuth(mac, hasKey, saeConfirm);
    }

    /** The present BSS is left and the requested one joined. */
    method LeaveAndRejoin(mac: Mac, channelAllowed: bool, peerIdx: nat) returns (ret: int)
      requires Bindings() && ValidMac(mac) && FreeIndex(peerIdx)
      modifies this`state, this`bssid, this`ctxIdx, this`peerMap, this`slots, this`lmacIfaces, this`joined,
        this`activedCtx
      ensures Bindings() && state == NoState && (ret == 0 ==> bssid == mac)
    {
      state := NoState;
      ret := Unjoin(bssid);
      if ret == 0 {
        ret := Rejoin(mac, channelAllowed, peerIdx);
      }
    }

    /** skw_auth on a connected station: nothing for its own BSS, else leave it first. */
    method AuthRoaming(mac: Mac, channelAllowed: bool, peerIdx: nat, hasKey: bool, saeConfirm: bool) returns (ret: int)
      requires Base() && (state.Assoced? || state.Completed?) && ValidMac(mac) && FreeIndex(peerIdx)
      modifies this
      ensures Base() && Backed() && (ret != 0 ==> state == NoState) && (ret == 0 ==> bssid == mac)
      ensures ret == 0 ==> Acct() == if old(ConnectedTo(mac)) then old(Acct())
        else AfterAuth(saeConfirm, old(saeConfirmed))
    {
      if bssid == mac {
        return 0;
      }
      ret := LeaveAndRejoin(mac, channelAllowed, peerIdx);
      if ret == 0 {
        ret := StartAuth(mac, hasKey, saeConfirm);
      }
    }

    /** The part of skw_assoc behind the state check. */
    method StartAssoc(mac: Mac) returns (ret: int)
      requires Bindings() && state.Authed?
      modifies this
      ensures Base() && (ValidMac(old(bssid)) ==> Backed()) && (ret != 0 ==> state == NoState)
      ensures ret == 0 || !old(JoinedTo(mac)) ==> bssid == old(bssid)
      ensures ret == 0 ==> Acct() == Fresh(Associng, old(saeConfirmed))
    {
      BeginAttempt(Associng);
      ret := Command();
      if ret != 0 {
        timer := false;
        Abandon(mac);
      }
    }

    /** skw_assoc on a connected station asked for another BSS. */
    method Roam(mac: Mac, peerIdx: nat) returns (ret: int)
      requires Bindings() && ValidMac(mac) && FreeIndex(peerIdx)
      modifies this`state, this`bssid, this`ctxIdx, this`peerMap, this`slots, this`lmacIfaces, this`joined,
        this`activedCtx
      ensures Bindings() && state == (if ret == 0 then Authed else NoState) && (ret == 0 ==> bssid == mac)
    {
      state := NoState;
      ret := Unjoin(bssid);
      if ret != 0 {
        return;
      }
      ret := Join(mac, peerIdx);
      if ret == 0 {
        state := Authed;
      }
    }

    /** skw_assoc; in AUTHED, again, whatever BSS was asked for. */
    method Assoc(mac: Mac, peerIdx: nat) returns (ret: int)
      requires Base() && ValidMac(mac) && FreeIndex(peerIdx)
      modifies this
      ensures Base() && (old(Backed()) ==> Backed())
      ensures old(Waiting()) ==> ret == -16 && Acct() == old(Acct()) && bssid == old(bssid)
      ensures !old(Waiting()) && ret != 0 ==> state == NoState
      ensures ret == 0 ==> Acct() == if old(ConnectedTo(mac)) then old(Acct()) else Fresh(Associng, old(saeConfirmed))
      ensures ret == 0 ==> bssid == if old(state).Authed? then old(bssid) else mac
      ensures old(state).Authed? && old(bssid) != mac ==> bssid == old(bssid)
    {
      if Waiting() {
        return -16;
      }
      if state == NoState {
        return -22;
      }
      if state == Assoced || state == Completed {
        if bssid == mac {
          return 0;
        }
        ret := Roam(mac, peerIdx);
        if ret != 0 {
          return;
        }
      }
      ret := StartAssoc(mac);
    }

    // ----- the retry worker -----

    /** skw_sta_timer */
    method TimerFires()
      requires Base() && timer
      modifies this`timer, this`workQueued
      ensures Base() && workQueued
    {
      timer := false;
      workQueued := true;
    }

    /** The step timeout of one turn: the retry is counted and the command repeated. */
    method CountRetry(resendIn: State, stepTimeout: bool, accepted: bool) returns (failed: bool)
      modifies this`state, this`retry, this`resends
      ensures Acct() == Counted(old(Acct()), resendIn, stepTimeout)
      ensures failed <==> stepTimeout && (old(retry) + 1 >= MAX_RETRY || !accepted)
    {
      failed := false;
      if stepTimeout {
        retry := retry + 1;
        if retry >= MAX_RETRY {
          failed := true;
        } else {
          state := resendIn;
          var ret := Resend(accepted);
          failed := ret != 0;
        }
      }
    }

    /** One turn of the worker while a response is awaited. */
    method RetryOrGiveUp(resendIn: State, connectTimeout: bool, stepTimeout: bool, accepted: bool)
      requires Bindings() && Bounded(Acct()) && Resending(Acct())
      requires resendIn == if state.Associng? then Associng else Authing
      modifies this
      ensures Base() && (old(Backed()) ==> Backed())
      ensures Acct() == Retried(old(Acct()), resendIn, Turn(connectTimeout, stepTimeout, accepted))
      ensures state == NoState <==> connectTimeout || (stepTimeout && (old(retry) + 1 >= 3 || !accepted))
      ensures state != NoState ==> state == if stepTimeout then resendIn else old(state)
      ensures resends == old(resends) + if stepTimeout && old(retry) + 1 < 3 then 1 else 0
      ensures retry == old(retry) + if stepTimeout then 1 else 0
      ensures state != NoState ==> bssid == old(bssid) && timer
    {
      CountedIsBounded(Acct(), resendIn, stepTimeout);
      var failed := CountRetry(resendIn, stepTimeout, accepted);
      if connectTimeout || failed {
        Leave(bssid);
      } else {
        timer := true;
      }
    }

    /** skw_sta_work: a station that may still resend counts a retry for a step timeout,
        resends unless it is the third, and gives up on that one, on a refused resend and
        on the connect timeout; every other station is left alone. */
    method Work(connectTimeout: bool, stepTimeout: bool, accepted: bool)
      requires Base()
      modifies this
      ensures Base() && (old(Backed()) ==> Backed())
      ensures Acct() == Step(old(Acct()), Turn(connectTimeout, stepTimeout, accepted))
      ensures var waits := old(Waiting() || (state.Authed? && !saeConfirmed));
              if waits
              then state == NoState <==> connectTimeout || (stepTimeout && (old(retry) + 1 >= 3 || !accepted))
              else state == old(state)
      ensures connectTimeout ==> !Waiting()
      ensures state != NoState ==> bssid == old(bssid)
      ensures state != NoState && old(Resending(Acct())) ==> timer
    {
      workQueued := false;
      match state
      case Authed =>
        if saeConfirmed {
          return;
        }
        RetryOrGiveUp(Authing, connectTimeout, stepTimeout, accepted);
      case Authing => RetryOrGiveUp(Authing, connectTimeout, stepTimeout, accepted);
      case Associng => RetryOrGiveUp(Associng, connectTimeout, stepTimeout, accepted);
      case _ =>
    }

    // ----- frames and events from the firmware -----

    /** The state, the retry counter and the status of an authentication frame. */
    method TakeStatus(mac: Mac, success: bool)
      requires Bindings() && Bounded(Acct())
      modifies this
      ensures Bindings() && clears == old(clears)
      ensures success ==> Acct() == old(Acct()).(state := Authed, retry := 0)
      ensures success ==> bssid == old(bssid) && joined == old(joined) && timer == old(timer)
      ensures !success ==> Acct() == GivenUp(old(Acct()).(retry := 0))
    {
      state := Authed;
      retry := 0;
      if !success {
        Leave(mac);
      }
    }

    /** The rest of skw_sta_rx_auth once the status has been handled. */
    method NoteConfirm(success: bool, confirm: bool)
      modifies this`saeConfirmed, this`clears
      ensures saeConfirmed == (confirm || old(saeConfirmed))
      ensures clears == old(clears) + if success && !saeConfirmed then 1 else 0
    {
      if confirm {
        saeConfirmed := true;
      }
      if success && !saeConfirmed {
        clears := clears + 1;
      }
    }

    /** skw_sta_rx_auth: the addresses alone are compared, so the invariant survives
        exactly when the frame is not a stray one. */
    method RxAuth(mac: Mac, success: bool, confirm: bool)
      requires Base()
      modifies this
      ensures Base() && (old(Backed()) ==> (Backed() <==> !old(StrayAuth(mac, success))))
      ensures Acct() == if mac == old(bssid) then Step(old(Acct()), AuthFrame(success, confirm)) else old(Acct())
      ensures mac == old(bssid) ==> state == (if success then Authed else NoState) && retry == 0
      ensures mac == old(bssid) ==> saeConfirmed == (confirm || (success && old(saeConfirmed)))
      ensures mac != old(bssid) || success ==> bssid == old(bssid) && joined == old(joined) && timer == old(timer)
    {
      if bssid != mac {
        return;
      }
      StepIsBounded(Acct(), AuthFrame(success, confirm));
      TakeStatus(mac, success);
      NoteConfirm(success, confirm);
    }

    /** skw_sta_rx_assoc: the context index alone is looked up, so the invariant
        survives exactly when the response is not a stray one. */
    method RxAssoc(mac: Mac, success: bool)
      requires Base()
      modifies this`state, this`slots, this`activedCtx
      ensures Base() && (old(Backed()) ==> (Backed() <==> !old(StrayAssoc(mac, success))))
      ensures old(JoinedTo(mac)) ==> old(PeerAnswers(mac)) && (success ==> activedCtx == 1)
      ensures old(PeerAnswers(mac)) ==> Acct() == Step(old(Acct()), AssocFrame(success))
      ensures old(PeerAnswers(mac)) ==> state == if success then Assoced else NoState
      ensures !old(PeerAnswers(mac)) ==> Acct() == old(Acct()) && slots == old(slots)
    {
      if !PeerAnswers(mac) {
        return;
      }
      if success {
        state := Assoced;
        TransmitOn();
      } else {
        state := NoState;
      }
    }

    /** skw_sta_rx_deauth */
    method RxDeauth(mac: Mac)
      requires Base()
      modifies this
      ensures Base() && (old(Backed()) ==> Backed())
      ensures Acct() == if old(JoinedTo(mac)) then GivenUp(old(Acct())) else old(Acct())
      ensures old(JoinedTo(mac)) ==> state == NoState && !saeConfirmed
    {
      var ctx := OwnCtx(mac);
      if ctx.Some? {
        Leave(mac);
      }
    }

    /** skw_change_station for a station interface. */
    method ChangeStation(mac: Mac, authorized: bool) returns (ret: int)
      requires Base()
      modifies this`state
      ensures Base() && (old(Backed()) ==> Backed()) && (ret == 0 <==> JoinedTo(mac))
      ensures Acct() == if ret == 0 && authorized then Step(old(Acct()), Authorize) else old(Acct())
      ensures ret == 0 && authorized ==> state == Completed
    {
      var ctx := OwnCtx(mac);
      if ctx.None? {
        return -22;
      }
      if authorized {
        state := Completed;
      }
      ret := 0;
    }

    /** Another interface of the chip rebinds a context that is not ours. */
    method OtherInterface(i: nat, slot: Slot)
      requires Base() && i < MAX_PEERS && !Ours(i) && (slot.peer.Some? ==> slot.peer.value.iface != id)
      modifies this`slots
      ensures Base() && slots == old(slots)[i := slot]
    {
      slots := slots[i := slot];
    }

    // ----- runs -----

    /** One request or event. `Leave` stands for a deauthentication or disassociation
        request and for the firmware's disconnect event, which look nothing up. */
    method Any(mac: Mac, idx: nat, slot: Slot, a: bool, b: bool, c: bool) returns (ghost stray: bool)
      requires Base()
      modifies this
      ensures Base() && (old(Backed()) && !stray ==> Backed())
      ensures stray ==> old(StrayAuth(mac, a) || StrayAssoc(mac, a))
    {
      stray := false;
      if {
      case ValidMac(mac) && FreeIndex(idx) => var _ := Auth(mac, a, idx, b, c);
      case ValidMac(mac) && FreeIndex(idx) => var _ := Assoc(mac, idx);
      case true => Leave(mac);
      case timer => TimerFires();
      case workQueued => Work(a, b, c);
      case true =>
        stray := StrayAuth(mac, a);
        RxAuth(mac, a, b);
      case true =>
        stray := StrayAssoc(mac, a);
        RxAssoc(mac, a);
      case true => RxDeauth(mac);
      case true => var _ := ChangeStation(mac, a);
      case idx < MAX_PEERS && !Ours(idx) && (slot.peer.Some? ==> slot.peer.value.iface != id) =>
        OtherInterface(idx, slot);
      }
    }

    /** Any run: whatever is requested, received, lost or refused, in any order, the
        bindings and the resends per request stay within bounds and waiting has a timer;
        and as long as no stray frame came in, a station with a state has its join. */
    method Run(steps: nat) returns (ghost strays: nat)
      requires Inv()
      modifies this
      ensures Base() && (strays == 0 ==> Inv())
    {
      var i := 0;
      strays := 0;
      while i < steps
        invariant Base() && (strays == 0 ==> Backed())
      {
        var mac: Mac, idx: nat, slot: Slot := *, *, *;
        var a: bool, b: bool, c: bool := *, *, *;
        ghost var stray := Any(mac, idx, slot, a, b, c);
        if stray {
          strays := strays + 1;
        }
        i := i + 1;
      }
    }

    /** One timer round without an answer. */
    method LateTurn()
      requires Inv() && timer && Resending(Acct())
      modifies this
      ensures Base() && Acct() == Step(old(Acct()), LATE)
      ensures state != NoState ==> Inv() && timer && bssid == old(bssid)
    {
      TimerFires();
      Work(false, true, true);
    }

    /** Both late turns that follow the request or a clearing frame. */
    method LateTurns(n: nat)
      requires Inv() && timer && Acct() == Late(n, 0)
      modifies this
      ensures Inv() && timer && Acct() == Spent(n)
    {
      LateSteps(n);
      LateTurn();
      LateTurn();
    }

    /** The run that meets the bound: n authentication frames, each after two late
        turns, let one request resend 2 * (1 + n) times without a stray frame. */
    method SlowAnswers(n: nat)
      requires Inv() && timer && Acct() == Fresh(Authing, false)
      modifies this
      ensures Inv() && Acct() == Spent(n)
    {
      LateTurns(0);
      var i := 0;
      while i < n
        invariant 0 <= i <= n && Inv() && timer && Acct() == Spent(i)
      {
        LateSteps(i);
        RxAuth(bssid, true, false);
        LateTurns(i + 1);
        i := i + 1;
      }
    }
  }

  // ----- requests for another BSS -----

  /** A station authenticated to one BSS is asked to authenticate or to associate to
      another: if the commands are accepted it waits for an answer of the other one,
      with the first still joined. */
  method OtherBssIsRequested(assoc: bool) returns (s: Station, accepted: bool)
    ensures s.Inv()
    ensures accepted ==> s.bssid == 0x0a && s.joined == Some(0x0a)
    ensures accepted ==> s.state == if assoc then Associng else Authing
  {
    s := new Station(0, seq(MAX_PEERS, _ => Slot(None, false)), {});
    var first := s.Auth(0x0a, true, 0, false, false);
    s.RxAuth(0x0a, true, false);
    accepted := first == 0;
    if !accepted {
      return;
    }
    var second;
    if assoc {
      second := s.Assoc(0x14, MAX_PEERS);
    } else {
      second := s.Auth(0x14, true, MAX_PEERS, false, false);
    }
    accepted := second == 0;
  }

  // ----- the stray frames -----

  /** An authentication frame without an address reaches a station that never joined. */
  method StrayAuthHappens() returns (s: Station)
    ensures s.Base() && !s.Inv() && s.state == Authed && s.joined == None
  {
    s := new Station(0, seq(MAX_PEERS, _ => Slot(None, false)), {});
    s.RxAuth(0, true, false);
  }

  /** An association response from interface 1's peer in context 0 reaches interface 0
      before its first join. */
  method StrayAssocHappens() returns (s: Station)
    ensures s.Base() && !s.Inv() && s.state == Assoced && s.joined == None
  {
    var theirs := Slot(Some(Peer(0x0a, 1, true)), true);
    s := new Station(0, seq(MAX_PEERS, i => if i == 0 then theirs else Slot(None, false)), {});
    s.RxAssoc(0x0a, true);
  }
}
