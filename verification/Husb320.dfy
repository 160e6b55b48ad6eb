/** The HUSB320 controller driver: every hardware step may fail, and at every
    release of the driver's lock the port is either consistent or shut down. */
module Husb320 {
  import opened Optional
  import opened TypecPort

  /** The hardware. A failing operation returns non-zero and changes nothing. */
  class Board {
    var hw: Hw
    var enables: nat
    var disables: nat

    constructor (h: Hw)
      ensures hw == h && enables == 0 && disables == 0
    {
      hw, enables, disables := h, 0, 0;
    }

    method RegulatorEnable() returns (ret: int)
      modifies this
      ensures hw == (if ret == 0 then old(hw).(vbusVotes := old(hw).vbusVotes + 1) else old(hw))
      ensures enables == old(enables) + (if ret == 0 then 1 else 0) && disables == old(disables)
    {
      ret := *;
      if ret == 0 {
        hw := hw.(vbusVotes := hw.vbusVotes + 1);
        enables := enables + 1;
      }
    }

    method RegulatorDisable() returns (ret: int)
      modifies this
      ensures hw == (if ret == 0 then old(hw).(vbusVotes := old(hw).vbusVotes - 1) else old(hw))
      ensures disables == old(disables) + (if ret == 0 then 1 else 0) && enables == old(enables)
    {
      ret := *;
      if ret == 0 {
        hw := hw.(vbusVotes := hw.vbusVotes - 1);
        disables := disables + 1;
      }
    }

    /** Any other write: the whole new content, or a failure. */
    method Write(content: Hw) returns (ret: int)
      modifies this`hw
      ensures hw == if ret == 0 then content else old(hw)
    {
      ret := *;
      if ret == 0 {
        hw := content;
      }
    }

    method Read() returns (ret: int, val: bv8)
    {
      ret, val := *, *;
    }
  }

  class Driver {
    const board: Board
    const capType: PortType
    const capData: DataPort
    const hasData: bool
    const sourceOpmode: OpMode
    const hasVbus: bool
    var portType: PortType
    var preferred: Option<PowerRole>
    var state: State
    var usbRole: UsbRole
    var connectorMode: Mode
    var partner: bool
    var modeValid: bool
    var shuttingDown: bool
    var stateValid: bool
    var vbusOn: bool
    /** How often VBUS was switched on although the driver was shutting down. */
    ghost var lateEnables: nat
    /** The driver has tried to switch the controller off. */
    ghost var offTried: bool

    /** husb320_parse_connector and the zeroed allocation before it. */
    constructor (b: Board, c: Config)
      requires b.hw.vbusVotes == 0 && b.enables == b.disables && b.hw.partner.None?
      requires b.hw.usbRole.None? && c.portType == c.capType
      ensures board == b && Cfg() == c && Coherent() && !stateValid && !shuttingDown
    {
      board, capType, capData, hasData, sourceOpmode, hasVbus :=
        b, c.capType, c.capData, c.hasData, c.sourceOpmode, c.hasVbus;
      portType, preferred := c.portType, c.preferred;
      state, usbRole, connectorMode := Unattached, NoRole, SafeMode;
      partner, modeValid, shuttingDown, stateValid, vbusOn := false, false, false, false, false;
      lateEnables, offTried := 0, false;
    }

    function Cfg(): Config
      reads this
    {
      Config(portType, preferred, capType, capData, hasData, sourceOpmode, hasVbus)
    }

    // ----- invariants -----

    /** Holds at every point of every operation. What is cached is what the
        hardware last accepted; the enables balance; VBUS is never switched on
        during a shutdown; a state that is not known to be valid is Unattached. */
    ghost predicate Coherent()
      reads this, board
    {
      && board.hw.vbusVotes == board.enables - board.disables == (if vbusOn then 1 else 0)
      && (vbusOn ==> hasVbus)
      && (board.hw.usbRole.Some? ==> board.hw.usbRole.value == usbRole)
      && (modeValid ==> board.hw.mode == Some(connectorMode))
      && (partner <==> board.hw.partner.Some?)
      && lateEnables == 0
      && (stateValid ==> board.hw.usbRole.Some? && modeValid)
      && (!stateValid ==> state.Unattached?)
    }

    /** What is believed valid is what the hardware holds. */
    ghost predicate Settled()
      reads this, board
    {
      Coherent() && (stateValid ==> Agrees(board.hw, Cfg(), state))
    }

    /** The controller's role register encodes the configuration. */
    ghost predicate Configured()
      reads this, board
    {
      board.hw.portRole & TRY_AND_MODE == PortRoleField(portType, preferred)
    }

    /** At every release of the lock after a successful probe. */
    ghost predicate Released()
      reads this, board
    {
      Settled() && (stateValid || shuttingDown) && (!shuttingDown ==> Configured())
    }

    ghost function WasState(): Option<State>
      reads this
    {
      if stateValid then Some(state) else None
    }

    // ----- steps -----

    /** husb320_set_vbus */
    method SetVbus(enable: bool) returns (ret: int)
      requires Coherent() && (enable ==> !shuttingDown)
      modifies this`vbusOn, this`lateEnables, board
      ensures Coherent() && (!enable ==> board.enables == old(board.enables))
      ensures board.hw == old(board.hw).(vbusVotes := board.hw.vbusVotes)
      ensures ret == 0 ==> vbusOn == (enable && hasVbus) && board.hw.vbusVotes == if vbusOn then 1 else 0
      ensures ret != 0 ==> vbusOn == old(vbusOn) && hasVbus
    {
      if !hasVbus || vbusOn == enable {
        return 0;
      }
      if enable {
        ret := board.RegulatorEnable();
        if ret == 0 && shuttingDown {
          lateEnables := lateEnables + 1;
        }
      } else {
        ret := board.RegulatorDisable();
      }
      if ret != 0 {
        return;
      }
      vbusOn := enable;
    }

    /** husb320_set_mode */
    method SetMode(mode: Mode) returns (ret: int)
      requires Coherent()
      modifies this`connectorMode, this`modeValid, board`hw
      ensures Coherent() && (old(modeValid) ==> modeValid)
      ensures ret == 0 ==> board.hw == old(board.hw).(mode := Some(mode)) && modeValid && connectorMode == mode
      ensures ret != 0 ==> board.hw == old(board.hw)
    {
      if modeValid && connectorMode == mode {
        return 0;
      }
      ret := board.Write(board.hw.(mode := Some(mode)));
      if ret != 0 {
        return;
      }
      connectorMode := mode;
      modeValid := true;
    }

    /** The role switch takes a role and the driver remembers it. */
    method SetUsbRole(role: UsbRole) returns (ret: int)
      requires Coherent()
      modifies this`usbRole, board`hw
      ensures Coherent()
      ensures ret == 0 ==> board.hw == old(board.hw).(usbRole := Some(role)) && usbRole == role
      ensures ret != 0 ==> board.hw == old(board.hw) && usbRole == old(usbRole)
    {
      ret := board.Write(board.hw.(usbRole := Some(role)));
      if ret == 0 {
        usbRole := role;
      }
    }

    method SetOrientation(o: Orientation) returns (ret: int)
      requires Coherent()
      modifies board`hw
      ensures Coherent()
      ensures board.hw == if ret == 0 then old(board.hw).(orientation := o) else old(board.hw)
    {
      if board.hw.orientation == o {
        return 0;
      }
      ret := board.Write(board.hw.(orientation := o));
    }

    /** husb320_unregister_partner */
    method UnregisterPartner()
      requires Coherent()
      modifies this`partner, board`hw
      ensures Coherent() && board.hw == old(board.hw).(partner := None)
    {
      if partner {
        board.hw := board.hw.(partner := None);
        partner := false;
      }
    }

    static function FirstError(err: int, ret: int): int {
      if err != 0 then err else ret
    }

    /** The three cached outputs of a disconnect. */
    method ReleaseOutputs() returns (err: int)
      requires Coherent()
      modifies this`vbusOn, this`lateEnables, this`usbRole, this`connectorMode, this`modeValid, board
      ensures Coherent() && (old(modeValid) ==> modeValid) && board.enables == old(board.enables)
      ensures board.hw.portRole == old(board.hw.portRole)
      ensures err == 0 ==> modeValid
      ensures err == 0 ==>
        board.hw == old(board.hw).(vbusVotes := 0, usbRole := Some(NoRole), mode := Some(SafeMode))
    {
      err := SetVbus(false);
      var ret := SetUsbRole(NoRole);
      err := FirstError(err, ret);
      ret := SetMode(SafeMode);
      err := FirstError(err, ret);
    }

    /** husb320_disconnect: every step is tried, the first error is kept. */
    method Disconnect() returns (err: int)
      requires Coherent()
      modifies this`vbusOn, this`lateEnables, this`usbRole, this`connectorMode, this`modeValid, this`partner,
               this`state, this`stateValid, board
      ensures Settled() && board.hw.portRole == old(board.hw.portRole) && board.enables == old(board.enables)
      ensures state.Unattached? && stateValid == (err == 0)
      ensures err == 0 ==> board.hw == Detached(old(board.hw), Cfg())
    {
      err := ReleaseOutputs();
      UnregisterPartner();
      var ret := SetOrientation(NoOrientation);
      err := FirstError(err, ret);
      board.hw := WithDefaultRoles(board.hw, Cfg());
      state := Unattached;
      stateValid := err == 0;
    }

    /** husb320_register_partner */
    method RegisterPartner(accessory: Accessory) returns (ret: int)
      requires Coherent()
      modifies this`partner, board`hw
      ensures Coherent()
      ensures old(partner) ==> ret == 0
      ensures board.hw == if ret == 0 && !old(partner) then old(board.hw).(partner := Some(accessory))
        else old(board.hw)
    {
      if partner {
        return 0;
      }
      ret := board.Write(board.hw.(partner := Some(accessory)));
      partner := ret == 0;
    }

    /** The role is only written when it differs from the remembered one. */
    method FollowRole(role: UsbRole) returns (ret: int)
      requires Coherent() && stateValid
      modifies this`usbRole, board`hw
      ensures Coherent()
      ensures board.hw == if ret == 0 then old(board.hw).(usbRole := Some(role)) else old(board.hw)
    {
      ret := 0;
      if role != usbRole {
        ret := SetUsbRole(role);
      }
    }

    /** The fallible outputs of an attached state, in the order of husb320_apply_state. */
    method DriveOutputs(s: State, o: Orientation) returns (ret: int)
      requires Coherent() && stateValid && !shuttingDown
      modifies this`vbusOn, this`lateEnables, this`usbRole, this`connectorMode, this`modeValid, board
      ensures Coherent() && board.hw.portRole == old(board.hw.portRole)
      ensures ret == 0 ==>
        board.hw == old(board.hw).(orientation := o, vbusVotes := Votes(Cfg(), s),
                                   usbRole := Some(StateUsbRole(Cfg(), s)), mode := Some(StateMode(s)))
    {
      ret := SetOrientation(o);
      if ret != 0 {
        return;
      }
      ret := SetVbus(s == Source);
      if ret != 0 {
        return;
      }
      ret := FollowRole(StateUsbRole(Cfg(), s));
      if ret != 0 {
        return;
      }
      ret := SetMode(StateMode(s));
    }

    method AnnounceRoles(s: State, status: bv8)
      requires Coherent()
      modifies board`hw
      ensures Coherent()
      ensures board.hw == old(board.hw).(dataRole := Attached(old(board.hw), Cfg(), s, NoOrientation, status).dataRole,
                                         powerRole := StatePowerRole(s), opmode := StateOpmode(Cfg(), s, status))
    {
      var role := StateUsbRole(Cfg(), s);
      if role == HostRole {
        board.hw := board.hw.(dataRole := DataHost);
      } else if role == DeviceRole {
        board.hw := board.hw.(dataRole := DataDevice);
      }
      board.hw := board.hw.(powerRole := StatePowerRole(s), opmode := StateOpmode(Cfg(), s, status));
    }

    /** The second half of husb320_apply_state. */
    method Attach(s: State, o: Orientation, status: bv8) returns (ret: int)
      requires Settled() && stateValid && !shuttingDown && !s.Unattached? && (state.Unattached? || state == s)
      modifies this`vbusOn, this`lateEnables, this`usbRole, this`connectorMode, this`modeValid, this`partner,
               this`state, this`stateValid, board
      ensures Coherent() && board.hw.portRole == old(board.hw.portRole)
      ensures ret == 0 ==> stateValid && state == s && board.hw == Attached(old(board.hw), Cfg(), s, o, status)
    {
      ret := DriveOutputs(s, o);
      if ret != 0 {
        return;
      }
      AnnounceRoles(s, status);
      ghost var announced := board.hw;
      assert announced == Attached(old(board.hw), Cfg(), s, o, status).(partner := announced.partner);
      ret := RegisterPartner(StateAccessory(s));
      if ret != 0 {
        stateValid := false;
        return;
      }
      state := s;
      stateValid := true;
    }

    /** The steps of husb320_apply_state. */
    method MoveTo(s: State, o: Orientation, status: bv8) returns (ret: int)
      requires Settled() && !shuttingDown
      modifies this`vbusOn, this`lateEnables, this`usbRole, this`connectorMode, this`modeValid, this`partner,
               this`state, this`stateValid, board
      ensures Coherent() && board.hw.portRole == old(board.hw.portRole)
      ensures ret == 0 ==> Settled() && stateValid && state == s
      ensures ret == 0 ==> board.hw == Uncached(old(board.hw), Cfg(), old(WasState()), s, o, status)
    {
      if s == Unattached && stateValid && state == Unattached && !partner && !vbusOn && usbRole == NoRole {
        return 0;
      }
      if s == Unattached {
        ret := Disconnect();
        return;
      }
      if s != state && (!stateValid || state != Unattached) {
        ret := Disconnect();
        if ret != 0 {
          return;
        }
      }
      ret := Attach(s, o, status);
    }

    /** husb320_apply_state: when it succeeds, the hardware holds what a driver
        without any cache would have written. */
    method ApplyState(s: State, o: Orientation, status: bv8) returns (ret: int)
      requires Settled() && !shuttingDown
      modifies this`vbusOn, this`lateEnables, this`usbRole, this`connectorMode, this`modeValid, this`partner,
               this`state, this`stateValid, board
      ensures Coherent() && board.hw.portRole == old(board.hw.portRole)
      ensures ret == 0 ==> Settled() && stateValid && state == s
      ensures ret == 0 ==> board.hw == Uncached(old(board.hw), Cfg(), old(WasState()), s, o, status)
      ensures ret == 0 && s.Unattached? ==> ShowsNothing(board.hw)
      ensures ret == 0 && !s.Unattached? ==> Shows(board.hw, Cfg(), s, status) && board.hw.orientation == o
    {
      UncachedShows(board.hw, Cfg(), WasState(), s, o, status);
      ret := MoveTo(s, o, status);
    }

    /** husb320_update_state; `seen` is what the controller reported. */
    method UpdateState() returns (ret: int, ghost seen: (bv8, bv8))
      requires Settled() && !shuttingDown
      modifies this`vbusOn, this`lateEnables, this`usbRole, this`connectorMode, this`modeValid, this`partner,
               this`state, this`stateValid, board
      ensures Coherent() && board.hw.portRole == old(board.hw.portRole)
      ensures ret == 0 ==> Settled() && stateValid && state == GetState(seen.0, seen.1)
      ensures ret == 0 ==>
        board.hw == Uncached(old(board.hw), Cfg(), old(WasState()), state, ReportedOrientation(seen.0, seen.1), seen.0)
      ensures ret == 0 && state.Unattached? ==> ShowsNothing(board.hw)
      ensures ret == 0 && !state.Unattached? ==>
        Shows(board.hw, Cfg(), state, seen.0) && board.hw.orientation == GetOrientation(seen.0)
    {
      var status: bv8, typ: bv8;
      seen := (0, 0);
      ret, status := board.Read();
      if ret != 0 {
        return;
      }
      ret, typ := board.Read();
      if ret != 0 {
        return;
      }
      seen := (status, typ);
      var s := GetState(status, typ);
      var o := if s == Unattached then NoOrientation else GetOrientation(status);
      ret := ApplyState(s, o, status);
    }

    /** regmap_update_bits on the three registers the port depends on. */
    method WriteControl(mask: bv8, val: bv8) returns (ret: int)
      modifies board`hw
      ensures board.hw == if ret == 0 then
        old(board.hw).(control := UpdateBits(old(board.hw).control, mask, val)) else old(board.hw)
    {
      ret := board.Write(board.hw.(control := UpdateBits(board.hw.control, mask, val)));
    }

    method WriteControl1(mask: bv8, val: bv8) returns (ret: int)
      modifies board`hw
      ensures board.hw == if ret == 0 then
        old(board.hw).(control1 := UpdateBits(old(board.hw).control1, mask, val)) else old(board.hw)
    {
      ret := board.Write(board.hw.(control1 := UpdateBits(board.hw.control1, mask, val)));
    }

    /** Mode and try fields together: afterwards the register encodes them. */
    method WritePortRole(t: PortType, role: Option<PowerRole>) returns (ret: int)
      modifies board`hw
      ensures board.hw == old(board.hw).(portRole := board.hw.portRole)
      ensures ret == 0 ==> board.hw.portRole & TRY_AND_MODE == PortRoleField(t, role)
      ensures ret != 0 ==> board.hw == old(board.hw)
    {
      ModeUpdate(board.hw.portRole, t, role);
      ret := board.Write(board.hw.(portRole := UpdateBits(board.hw.portRole, TRY_AND_MODE, RoleBits(t, role))));
    }

    /** The try field alone, on a port that is set to dual role. */
    method WriteTry(role: Option<PowerRole>) returns (ret: int)
      requires board.hw.portRole & TRY_AND_MODE == PortRoleField(DualRole, preferred)
      modifies board`hw
      ensures board.hw == old(board.hw).(portRole := board.hw.portRole)
      ensures ret == 0 ==> board.hw.portRole & TRY_AND_MODE == PortRoleField(DualRole, role)
      ensures ret != 0 ==> board.hw == old(board.hw)
    {
      TryUpdate(board.hw.portRole, preferred, role);
      ret := board.Write(board.hw.(portRole := UpdateBits(board.hw.portRole, TRY, TryBits(role))));
    }

    /** A register write the port does not depend on. */
    method WriteOther() returns (ret: int)
      modifies board`hw
      ensures board.hw == old(board.hw)
    {
      ret := board.Write(board.hw);
    }

    /** husb320_hw_disable: interrupts masked and the controller off. */
    method HwDisable() returns (err: int)
      modifies board`hw, this`offTried
      ensures offTried
      ensures board.hw == old(board.hw).(control := board.hw.control, control1 := board.hw.control1)
      ensures err == 0 ==> board.hw.control & 0x01 != 0 && board.hw.control1 & 0x08 == 0
    {
      err := WriteControl(0x01, 0x01);
      var ret := WriteControl1(0x08, 0);
      err := FirstError(err, ret);
      offTried := true;
    }

    /** The same where nothing depends on whether it worked. */
    method SwitchOff()
      requires Settled()
      modifies board`hw, this`offTried
      ensures Settled() && offTried
      ensures board.hw == old(board.hw).(control := board.hw.control, control1 := board.hw.control1)
    {
      var _ := HwDisable();
    }

    method FailOver()
      requires Settled()
      modifies this`shuttingDown, this`offTried, board`hw
      ensures Released() && shuttingDown && offTried
    {
      shuttingDown := true;
      SwitchOff();
    }

    /** husb320_error_recovery: whatever state the port is in, afterwards it is
        either cleanly detached or shut down. */
    method ErrorRecovery()
      requires Coherent() && (!shuttingDown ==> Configured())
      modifies this`vbusOn, this`lateEnables, this`usbRole, this`connectorMode, this`modeValid, this`partner,
               this`state, this`stateValid, this`shuttingDown, this`offTried, board
      ensures Released() && state.Unattached? && Cfg() == old(Cfg()) && (old(shuttingDown) ==> shuttingDown)
      ensures board.enables == old(board.enables)
      ensures shuttingDown ==> offTried || old(shuttingDown)
    {
      var cleanup := Disconnect();
      var recovery := WriteOther();
      if cleanup == 0 && recovery == 0 {
        return;
      }
      FailOver();
    }

    /** Reads and acknowledges both interrupt registers. */
    method FetchInterrupts() returns (ret: int, interrupt: bv8, interrupt1: bv8)
      modifies board`hw
      ensures board.hw == old(board.hw)
    {
      interrupt1 := 0;
      ret, interrupt := board.Read();
      if ret != 0 {
        return;
      }
      ret, interrupt1 := board.Read();
      if ret != 0 {
        return;
      }
      interrupt, interrupt1 := interrupt & 0x5f, interrupt1 & 0x06;
      if interrupt != 0 {
        ret := WriteOther();
      }
      if ret == 0 && interrupt1 != 0 {
        ret := WriteOther();
      }
    }

    /** A detach interrupt disconnects before the state is read again. */
    method DropIf(detach: bool)
      requires Settled() && stateValid
      modifies this`vbusOn, this`lateEnables, this`usbRole, this`connectorMode, this`modeValid, this`partner,
               this`state, this`stateValid, board
      ensures Settled() && board.hw.portRole == old(board.hw.portRole)
      ensures !detach ==> board.hw == old(board.hw) && WasState() == old(WasState())
      ensures detach && stateValid ==> board.hw == Detached(old(board.hw), Cfg()) && state.Unattached?
    {
      if detach {
        var _ := Disconnect();
      }
    }

    /** The part of the interrupt thread that moves the port. `before` and `was` are
        hardware and state once a detach has been handled; a successful update
        starts from there. */
    method ServicePort(detach: bool)
        returns (ghost seen: Option<(bv8, bv8)>, ghost before: Hw, ghost was: Option<State>)
      requires Released() && !shuttingDown
      modifies this, board
      ensures Released() && Cfg() == old(Cfg())
      ensures !detach ==> before == old(board.hw) && was == old(WasState())
      ensures detach && was.Some? ==> before == Detached(old(board.hw), Cfg()) && was == Some(Unattached)
      ensures seen.Some? ==> !shuttingDown && state == GetState(seen.value.0, seen.value.1)
      ensures seen.Some? ==>
        board.hw == Uncached(before, Cfg(), was, state, ReportedOrientation(seen.value.0, seen.value.1), seen.value.0)
      ensures seen.None? ==> state.Unattached?
      ensures shuttingDown ==> offTried
    {
      DropIf(detach);
      before, was := board.hw, WasState();
      ghost var reported: (bv8, bv8);
      var ret;
      ret, reported := UpdateState();
      if ret != 0 {
        ErrorRecovery();
        seen := None;
        return;
      }
      seen := Some(reported);
    }

    /** husb320_irq_thread. `seen` is the status and type a successful update acted on. */
    method IrqThread() returns (handled: bool, ghost seen: Option<(bv8, bv8)>)
      requires Released()
      modifies this, board
      ensures Released() && Cfg() == old(Cfg())
      ensures old(shuttingDown) ==> shuttingDown && board.hw == old(board.hw) && board.enables == old(board.enables)
      ensures seen.Some? ==> !shuttingDown && state == GetState(seen.value.0, seen.value.1)
      ensures handled && seen.None? && !shuttingDown ==> state.Unattached? && !vbusOn
      ensures shuttingDown ==> offTried || old(shuttingDown)
    {
      seen := None;
      if shuttingDown {
        return true, None;
      }
      var ret, interrupt, interrupt1 := FetchInterrupts();
      if ret != 0 {
        shuttingDown := true;
        ErrorRecovery();
        SwitchOff();
        return true, None;
      }
      if interrupt == 0 && interrupt1 == 0 {
        return false, None;
      }
      ghost var before, was;
      seen, before, was := ServicePort(interrupt & 0x02 != 0);
      handled := true;
    }

    // ----- the type-C class and the driver core -----

    /** The fallible half of a port-type change. */
    method MovePort(t: PortType) returns (ret: int)
      requires Settled() && Configured()
      modifies this`vbusOn, this`lateEnables, this`usbRole, this`connectorMode, this`modeValid, this`partner,
               this`state, this`stateValid, board
      ensures Settled() && state.Unattached? && board.enables == old(board.enables)
      ensures ret == 0 ==> stateValid && board.hw.portRole & TRY_AND_MODE == PortRoleField(t, preferred)
      ensures ret != 0 ==> Configured()
    {
      ret := Disconnect();
      if ret == 0 {
        ret := WritePortRole(t, preferred);
      }
    }

    /** The infallible half: the new type and the roles it idles in. */
    method AdoptPortType(t: PortType)
      requires Settled() && stateValid && state.Unattached?
      modifies this`portType, board`hw
      ensures Settled() && portType == t && board.hw.portRole == old(board.hw.portRole)
      ensures board.hw.powerRole == DefaultPowerRole(Cfg()) && Idle(board.hw, Cfg())
    {
      portType := t;
      DefaultRolesAreIdle(board.hw, Cfg());
      board.hw := WithDefaultRoles(board.hw, Cfg());
    }

    /** husb320_port_type_set */
    method PortTypeSet(t: PortType) returns (ret: int)
      requires Released()
      modifies this, board
      ensures Released() && preferred == old(preferred) && board.enables == old(board.enables)
      ensures old(shuttingDown) ==> ret != 0 && shuttingDown && board.hw == old(board.hw)
      ensures ret == 0 ==> !shuttingDown && state.Unattached? && portType == t
      ensures ret == 0 ==> board.hw.powerRole == DefaultPowerRole(Cfg()) && Idle(board.hw, Cfg())
      ensures ret != 0 ==> portType == old(portType)
      ensures shuttingDown ==> offTried || old(shuttingDown)
    {
      if shuttingDown {
        return -108;
      }
      ret := MovePort(t);
      if ret != 0 {
        ErrorRecovery();
        return;
      }
      AdoptPortType(t);
    }

    /** The register's part of a new preference. */
    method MoveTry(role: Option<PowerRole>) returns (ret: int)
      requires Settled() && Configured()
      modifies board`hw
      ensures Settled()
      ensures board.hw == old(board.hw).(portRole := board.hw.portRole)
      ensures ret == 0 ==> board.hw.portRole & TRY_AND_MODE == PortRoleField(portType, role)
      ensures ret != 0 ==> board.hw == old(board.hw)
    {
      ret := 0;
      if portType == DualRole {
        ret := WriteTry(role);
      }
    }

    /** The driver's part, once the register encodes it. */
    method Prefer(role: Option<PowerRole>)
      requires Settled() && stateValid
      requires board.hw.portRole & TRY_AND_MODE == PortRoleField(portType, role)
      modifies this`preferred
      ensures Released() && preferred == role
    {
      preferred := role;
    }

    /** The register follows the preference of a dual-role port only. */
    method SetPreference(role: Option<PowerRole>) returns (ret: int)
      requires Released()
      modifies this`preferred, board`hw
      ensures Released()
      ensures old(shuttingDown) ==> ret != 0
      ensures preferred == if ret == 0 then role else old(preferred)
      ensures board.hw == old(board.hw).(portRole := board.hw.portRole)
    {
      if shuttingDown {
        return -108;
      }
      ret := MoveTry(role);
      if ret == 0 {
        Prefer(role);
      }
    }

    /** husb320_try_role_set: the register follows the preference of a dual-role port
        only, and the roles an idle port shows follow neither: they are the default ones
        afterwards exactly when the default has not moved. */
    method TryRoleSet(role: Option<PowerRole>) returns (ret: int)
      requires Released()
      modifies this`preferred, board`hw
      ensures Released()
      ensures old(shuttingDown) ==> ret != 0
      ensures preferred == if ret == 0 then role else old(preferred)
      ensures ret == 0 && old(board.hw.powerRole == DefaultPowerRole(Cfg())) ==>
        (board.hw.powerRole == DefaultPowerRole(Cfg()) <==>
         portType != DualRole || (role == Some(GivesPower) <==> old(preferred) == Some(GivesPower)))
      ensures board.hw == old(board.hw).(portRole := board.hw.portRole)
    {
      PreferenceChangesDefault(Cfg(), role);
      ghost var wanted := Cfg().(preferred := role);
      ret := SetPreference(role);
      assert ret == 0 ==> Cfg() == wanted;
    }

    /** On an idle dual-role port without a preference, one for giving power is accepted
        while the port goes on showing that it takes power; a disconnect makes it follow. */
    method PreferenceWaits() returns (ret: int, err: int, ghost shown: PowerRole)
      requires Released() && !shuttingDown && portType == DualRole && preferred == None
      requires board.hw.powerRole == TakesPower
      modifies this, board
      ensures shown == TakesPower && (ret == 0 ==> DefaultPowerRole(Cfg()) == GivesPower)
      ensures ret == 0 && err == 0 ==> board.hw.powerRole == GivesPower
    {
      ret := TryRoleSet(Some(GivesPower));
      shown := board.hw.powerRole;
      err := Disconnect();
    }

    /** Reset, current advertisement and port role. */
    method InitRoles() returns (ret: int)
      modifies board`hw
      ensures board.hw == old(board.hw).(portRole := board.hw.portRole, control := board.hw.control)
      ensures ret == 0 ==> Configured() && Advertises(board.hw.control, sourceOpmode) && board.hw.control & 0x01 == 1
    {
      ret := WriteOther();
      if ret != 0 { return; }
      CurrentUpdate(board.hw.control, sourceOpmode);
      ret := WriteControl(0x07, HostCurrentField(sourceOpmode));
      if ret != 0 { return; }
      ret := WritePortRole(portType, preferred);
    }

    /** Interrupt masks, the enable bit and pending interrupts. */
    method InitInterrupts() returns (ret: int)
      modifies board`hw
      ensures board.hw == old(board.hw).(control1 := board.hw.control1)
      ensures ret == 0 ==> board.hw.control1 & 0x08 != 0
    {
      ret := WriteOther();
      if ret != 0 { return; }
      ret := WriteOther();
      if ret != 0 { return; }
      ret := WriteControl1(0x08, 0x08);
      if ret != 0 { return; }
      ret := WriteOther();
      if ret != 0 { return; }
      ret := WriteOther();
    }

    /** husb320_hw_init */
    method HwInit() returns (ret: int)
      modifies board`hw
      ensures board.hw == old(board.hw).(portRole := board.hw.portRole, control := board.hw.control,
                                             control1 := board.hw.control1)
      ensures ret == 0 ==> Configured() && board.hw.control1 & 0x08 != 0
      ensures ret == 0 ==> Advertises(board.hw.control, sourceOpmode) && board.hw.control & 0x01 == 1
    {
      ret := InitRoles();
      if ret == 0 {
        ret := InitInterrupts();
      }
    }

    /** husb320_probe from the interrupt request on. */
    method BringUp() returns (ret: int)
      requires Settled() && !shuttingDown && Configured()
      modifies this, board
      ensures (ret == 0 ==> Released() && !shuttingDown) && Cfg() == old(Cfg())
      ensures ret != 0 ==> Coherent()
    {
      ret := *;
      if ret != 0 {
        return;
      }
      ghost var seen: (bv8, bv8);
      ret, seen := UpdateState();
      if ret == 0 {
        ret := WriteControl(0x01, 0);
      }
    }

    /** husb320_probe from the controller's initialisation on. */
    method Start() returns (ret: int)
      requires Settled() && !stateValid && !shuttingDown
      modifies this, board
      ensures (ret == 0 ==> Released() && !shuttingDown) && Cfg() == old(Cfg())
      ensures Settled()
    {
      ret := HwInit();
      var registered := false;
      if ret == 0 {
        ret := *;
        registered := ret == 0;
      }
      if registered {
        ret := BringUp();
        if ret == 0 {
          return;
        }
        shuttingDown := true;
        var _ := Disconnect();
      }
      SwitchOff();
    }

    /** All interrupts masked, or not. */
    method MaskInterrupts()
      modifies board`hw
      ensures board.hw == old(board.hw).(control := board.hw.control)
    {
      var _ := WriteControl(0x01, 0x01);
    }

    /** The first half of husb320_remove and husb320_shutdown. */
    method BeginShutdown()
      requires Released()
      modifies this`shuttingDown, board`hw
      ensures Released() && shuttingDown
      ensures board.hw == old(board.hw).(control := board.hw.control)
    {
      shuttingDown := true;
      MaskInterrupts();
    }

    /** The second half of husb320_remove. */
    method Remove()
      requires Released() && shuttingDown
      modifies this, board
      ensures Released() && shuttingDown && state.Unattached? && board.enables == old(board.enables)
      ensures offTried
    {
      var _ := Disconnect();
      SwitchOff();
    }

    /** husb320_set_sink_mode */
    method SetSinkMode() returns (ret: int)
      modifies board`hw
      ensures board.hw == old(board.hw).(portRole := board.hw.portRole, control := board.hw.control,
                                             control1 := board.hw.control1)
      ensures ret == 0 ==> board.hw.portRole & TRY_AND_MODE == PortRoleField(SinkOnly, None)
      ensures ret == 0 ==> board.hw.control1 & 0x08 != 0
    {
      ret := WriteControl(0x01, 0x01);
      if ret != 0 { return; }
      ret := WritePortRole(SinkOnly, None);
      if ret != 0 { return; }
      ret := WriteControl1(0x08, 0x08);
    }

    /** Sink mode, unless the connector can only be a source. */
    method LeaveSinking() returns (sinking: bool)
      requires Settled()
      modifies board`hw
      ensures Settled()
      ensures sinking ==> !capType.SourceOnly? && board.hw.portRole & TRY_AND_MODE == PortRoleField(SinkOnly, None)
    {
      if capType == SourceOnly {
        return false;
      }
      var ret := SetSinkMode();
      sinking := ret == 0;
    }

    /** The second half of husb320_shutdown: a port that can sink is left sinking
        when it disconnected cleanly, every other one is switched off. */
    method Shutdown() returns (sinking: bool)
      requires Released() && shuttingDown
      modifies this, board
      ensures Released() && shuttingDown && state.Unattached? && board.enables == old(board.enables)
      ensures sinking || offTried
      ensures sinking ==> stateValid && !capType.SourceOnly?
      ensures sinking ==> board.hw.portRole & TRY_AND_MODE == PortRoleField(SinkOnly, None)
    {
      sinking := false;
      var ret := Disconnect();
      if ret == 0 {
        sinking := LeaveSinking();
      }
      if !sinking {
        SwitchOff();
      }
    }

    /** Any run after a successful probe: at each release the invariants hold, and
        from the moment the driver shuts down the regulator is never enabled again. */
    method Lifetime(steps: nat)
      requires Released()
      modifies this, board
      ensures Released() && shuttingDown && state.Unattached?
      ensures old(shuttingDown) ==> board.enables == old(board.enables)
    {
      var i := 0;
      ghost var was, enables := shuttingDown, board.enables;
      while i < steps
        invariant Released() && (was ==> shuttingDown)
        invariant was ==> board.enables == enables
      {
        ghost var shut, before := shuttingDown, board.enables;
        if {
        case true =>
          ghost var seen;
          var handled;
          handled, seen := IrqThread();
        case true =>
          var t: PortType := *;
          var _ := PortTypeSet(t);
        case true =>
          var role: Option<PowerRole> := *;
          var _ := TryRoleSet(role);
        case true =>
          BeginShutdown();
        }
        assert shut ==> shuttingDown && board.enables == before;
        i := i + 1;
      }
      BeginShutdown();
      if * {
        Remove();
      } else {
        var _ := Shutdown();
      }
    }
  }
}
