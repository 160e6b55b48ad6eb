/** The Type-C port as the HUSB320 driver sees it: what the board holds, and what
    a driver that remembers nothing would write for every port state. */
module TypecPort {
  import opened Optional

  datatype State = Unattached | Source | Sink | DebugSource | DebugSink | Audio
  datatype PortType = SourceOnly | SinkOnly | DualRole
  datatype DataPort = HostOnly | DeviceOnly | DualData
  datatype PowerRole = TakesPower | GivesPower
  datatype DataRole = DataHost | DataDevice
  datatype UsbRole = NoRole | HostRole | DeviceRole
  datatype Mode = SafeMode | UsbMode | AudioMode | DebugMode
  datatype Orientation = NoOrientation | Normal | Reverse
  datatype Accessory = NoAccessory | AudioAccessory | DebugAccessory
  datatype OpMode = DefaultCurrent | Current1A5 | Current3A

  /** What the firmware node and the type-C class configured. */
  datatype Config = Config(portType: PortType, preferred: Option<PowerRole>, capType: PortType, capData: DataPort,
                           hasData: bool, sourceOpmode: OpMode, hasVbus: bool)

  /** What regulator, role switch, mux, port and controller registers hold. A role
      or mode is None until the hardware first accepts one. */
  datatype Hw = Hw(vbusVotes: int, usbRole: Option<UsbRole>, mode: Option<Mode>, orientation: Orientation,
                   partner: Option<Accessory>, powerRole: PowerRole, dataRole: DataRole, opmode: OpMode,
                   portRole: bv8, control: bv8, control1: bv8)

  const ATTACHED: bv8 := 0x01
  const TYPE_DEBUG_SOURCE: bv8 := 0x40
  const TYPE_DEBUG_SINK: bv8 := 0x20
  const TYPE_SINK: bv8 := 0x10
  const TYPE_SOURCE: bv8 := 0x08
  const TYPE_AUDIO: bv8 := 0x03

  // ----- what each state asks for -----

  function DefaultPowerRole(c: Config): PowerRole {
    match c.portType
    case SourceOnly => GivesPower
    case SinkOnly => TakesPower
    case DualRole => if c.preferred == Some(GivesPower) then GivesPower else TakesPower
  }

  /** A new preference changes the role an idle port shows exactly on a dual-role port
      that starts or stops preferring to give power. */
  lemma PreferenceChangesDefault(c: Config, role: Option<PowerRole>)
    ensures DefaultPowerRole(c.(preferred := role)) == DefaultPowerRole(c) <==>
      c.portType != DualRole || (role == Some(GivesPower) <==> c.preferred == Some(GivesPower))
  {
  }

  function DefaultDataRole(c: Config): DataRole {
    match c.capData
    case HostOnly => DataHost
    case DeviceOnly => DataDevice
    case DualData => if DefaultPowerRole(c) == GivesPower then DataHost else DataDevice
  }

  function StatePowerRole(s: State): PowerRole {
    if s.Source? || s.DebugSource? || s.Audio? then GivesPower else TakesPower
  }

  function StateAccessory(s: State): Accessory {
    if s.DebugSource? || s.DebugSink? then DebugAccessory else if s.Audio? then AudioAccessory else NoAccessory
  }

  function StateUsbRole(c: Config, s: State): UsbRole {
    if !c.hasData then NoRole
    else if (s.Source? || s.DebugSource?) && !c.capData.DeviceOnly? then HostRole
    else if (s.Sink? || s.DebugSink?) && !c.capData.HostOnly? then DeviceRole
    else NoRole
  }

  function StateMode(s: State): Mode {
    match s
    case DebugSource => DebugMode
    case DebugSink => DebugMode
    case Audio => AudioMode
    case Source => UsbMode
    case Sink => UsbMode
    case Unattached => SafeMode
  }

  function SinkOpmode(status: bv8): (m: OpMode)
    ensures m == Current1A5 <==> status & 0x06 == 0x04
    ensures m == Current3A <==> status & 0x06 == 0x06
  {
    var current := (status >> 1) & 0x3;
    if current == 2 then Current1A5 else if current == 3 then Current3A else DefaultCurrent
  }

  function StateOpmode(c: Config, s: State, status: bv8): OpMode {
    if s.Sink? then SinkOpmode(status)
    else if StatePowerRole(s) == GivesPower then c.sourceOpmode
    else DefaultCurrent
  }

  function GetOrientation(status: bv8): (o: Orientation)
    ensures o == Normal <==> status & 0x30 == 0x10
    ensures o == Reverse <==> status & 0x30 == 0x20
  {
    var field := (status >> 4) & 0x3;
    if field == 1 then Normal else if field == 2 then Reverse else NoOrientation
  }

  /** Priority of the type bits; the port only counts as a source when the
      controller is attached and reports neither debug nor sink. */
  function GetState(status: bv8, typ: bv8): (s: State)
    ensures s.Unattached? <==> status & 0x01 == 0 || typ & 0x7b == 0
    ensures s.DebugSource? <==> status & 0x01 != 0 && typ & 0x40 != 0
    ensures s.DebugSink? <==> status & 0x01 != 0 && typ & 0x60 == 0x20
    ensures s.Sink? <==> status & 0x01 != 0 && typ & 0x70 == 0x10
    ensures s.Source? <==> status & 0x01 != 0 && typ & 0x78 == 0x08
    ensures s.Audio? <==> status & 0x01 != 0 && typ & 0x78 == 0 && typ & 0x03 != 0
  {
    if status & ATTACHED == 0 then Unattached
    else if typ & TYPE_DEBUG_SOURCE != 0 then DebugSource
    else if typ & TYPE_DEBUG_SINK != 0 then DebugSink
    else if typ & TYPE_SINK != 0 then Sink
    else if typ & TYPE_SOURCE != 0 then Source
    else if typ & TYPE_AUDIO != 0 then Audio
    else Unattached
  }

  /** The orientation an update applies with the state. */
  function ReportedOrientation(status: bv8, typ: bv8): Orientation {
    if GetState(status, typ).Unattached? then NoOrientation else GetOrientation(status)
  }

  // ----- the driver without caches -----

  function WithDefaultRoles(h: Hw, c: Config): Hw {
    h.(powerRole := DefaultPowerRole(c),
       dataRole := if c.hasData then DefaultDataRole(c) else h.dataRole,
       opmode := if DefaultPowerRole(c) == GivesPower then c.sourceOpmode else DefaultCurrent)
  }

  /** Everything off, whatever it was. */
  function Detached(h: Hw, c: Config): Hw {
    WithDefaultRoles(h.(vbusVotes := 0, usbRole := Some(NoRole), mode := Some(SafeMode), partner := None,
                        orientation := NoOrientation), c)
  }

  function Votes(c: Config, s: State): int {
    if s.Source? && c.hasVbus then 1 else 0
  }

  /** Everything written for an attached state, whatever it was. */
  function Attached(h: Hw, c: Config, s: State, o: Orientation, status: bv8): Hw {
    var role := StateUsbRole(c, s);
    h.(orientation := o, vbusVotes := Votes(c, s), usbRole := Some(role), mode := Some(StateMode(s)),
       dataRole := if role.HostRole? then DataHost else if role.DeviceRole? then DataDevice else h.dataRole,
       powerRole := StatePowerRole(s), opmode := StateOpmode(c, s, status), partner := Some(StateAccessory(s)))
  }

  /** A driver that knows only the last valid state and always writes everything:
      it disconnects first unless it starts from a clean port or stays put. */
  function Uncached(h: Hw, c: Config, was: Option<State>, s: State, o: Orientation, status: bv8): Hw {
    if s.Unattached? then
      if was == Some(Unattached) then h else Detached(h, c)
    else if was == Some(Unattached) || was == Some(s) then Attached(h, c, s, o, status)
    else Attached(Detached(h, c), c, s, o, status)
  }

  /** The hardware agrees with the state. */
  predicate Agrees(h: Hw, c: Config, s: State) {
    && h.vbusVotes == Votes(c, s)
    && h.usbRole == Some(StateUsbRole(c, s))
    && h.mode == Some(StateMode(s))
    && h.partner == (if s.Unattached? then None else Some(StateAccessory(s)))
    && (s.Unattached? ==> h.orientation == NoOrientation)
    && (!s.Unattached? ==> h.powerRole == StatePowerRole(s))
  }

  /** What everyone outside sees of a free port. */
  predicate ShowsNothing(h: Hw) {
    && h.vbusVotes == 0 && h.usbRole == Some(NoRole) && h.mode == Some(SafeMode)
    && h.partner == None && h.orientation == NoOrientation
  }

  /** And of an attached one, in terms of its state and the connector: who feeds VBUS,
      who is the USB host, what is plugged in and what current there is. */
  predicate Shows(h: Hw, c: Config, s: State, status: bv8) {
    && h.vbusVotes == (if s == Source && c.hasVbus then 1 else 0)
    && (h.usbRole == Some(HostRole) <==> c.hasData && s in {Source, DebugSource} && c.capData != DeviceOnly)
    && (h.usbRole == Some(DeviceRole) <==> c.hasData && s in {Sink, DebugSink} && c.capData != HostOnly)
    && h.usbRole in {Some(HostRole), Some(DeviceRole), Some(NoRole)}
    && (h.usbRole == Some(HostRole) ==> h.dataRole == DataHost)
    && (h.usbRole == Some(DeviceRole) ==> h.dataRole == DataDevice)
    && (h.mode == Some(UsbMode) <==> s in {Source, Sink})
    && (h.mode == Some(DebugMode) <==> s in {DebugSource, DebugSink})
    && (h.mode == Some(AudioMode) <==> s == Audio)
    && (h.partner == Some(NoAccessory) <==> s in {Source, Sink})
    && (h.partner == Some(DebugAccessory) <==> s in {DebugSource, DebugSink})
    && (h.partner == Some(AudioAccessory) <==> s == Audio)
    && (h.powerRole == GivesPower <==> s in {Source, DebugSource, Audio})
    && (s in {Source, DebugSource, Audio} ==> h.opmode == c.sourceOpmode)
    && (s == Sink ==> (h.opmode == Current1A5 <==> status & 0x06 == 0x04))
    && (s == Sink ==> (h.opmode == Current3A <==> status & 0x06 == 0x06))
    && (s == DebugSink ==> h.opmode == DefaultCurrent)
  }

  /** The roles of a port nothing is attached to. */
  predicate Idle(h: Hw, c: Config) {
    && (h.powerRole == GivesPower <==>
          c.portType == SourceOnly || (c.portType == DualRole && c.preferred == Some(GivesPower)))
    && (c.hasData ==> (h.dataRole == DataHost <==>
          c.capData == HostOnly || (c.capData == DualData && h.powerRole == GivesPower)))
    && h.opmode == (if h.powerRole == GivesPower then c.sourceOpmode else DefaultCurrent)
  }

  lemma DetachedShows(h: Hw, c: Config)
    ensures ShowsNothing(Detached(h, c)) && Idle(Detached(h, c), c)
  {
  }

  lemma DefaultRolesAreIdle(h: Hw, c: Config)
    ensures Idle(WithDefaultRoles(h, c), c)
  {
  }

  lemma AttachedShows(h: Hw, c: Config, s: State, o: Orientation, status: bv8)
    requires !s.Unattached?
    ensures Shows(Attached(h, c, s, o, status), c, s, status) && Attached(h, c, s, o, status).orientation == o
  {
  }

  /** One successful update: the state read, its orientation and the status byte. */
  datatype Update = Update(state: State, orientation: Orientation, status: bv8)

  /** Updates without any cache, one after the other. */
  function UncachedRun(h: Hw, c: Config, was: Option<State>, updates: seq<Update>): Hw
    decreases |updates|
  {
    if updates == [] then h
    else
      var n := |updates| - 1;
      var before := if n == 0 then was else Some(updates[n - 1].state);
      Uncached(UncachedRun(h, c, was, updates[..n]), c, before, updates[n].state, updates[n].orientation,
        updates[n].status)
  }

  lemma UncachedAgrees(h: Hw, c: Config, was: Option<State>, s: State, o: Orientation, status: bv8)
    requires was.Some? ==> Agrees(h, c, was.value)
    ensures Agrees(Uncached(h, c, was, s, o, status), c, s)
    ensures Uncached(h, c, was, s, o, status).portRole == h.portRole
  {
    DetachedAgrees(h, c);
    if !s.Unattached? {
      AttachedAgrees(h, c, s, o, status);
      AttachedAgrees(Detached(h, c), c, s, o, status);
    }
  }

  lemma DetachedAgrees(h: Hw, c: Config)
    ensures Agrees(Detached(h, c), c, Unattached)
  {
  }

  lemma AttachedAgrees(h: Hw, c: Config, s: State, o: Orientation, status: bv8)
    requires !s.Unattached?
    ensures Agrees(Attached(h, c, s, o, status), c, s)
  {
  }

  /** And shows it, with the orientation it was given. */
  lemma UncachedShows(h: Hw, c: Config, was: Option<State>, s: State, o: Orientation, status: bv8)
    requires was.Some? ==> Agrees(h, c, was.value)
    ensures var h' := Uncached(h, c, was, s, o, status);
            if s.Unattached? then ShowsNothing(h') else Shows(h', c, s, status) && h'.orientation == o
  {
    DetachedShows(h, c);
    if !s.Unattached? {
      AttachedShows(h, c, s, o, status);
      AttachedShows(Detached(h, c), c, s, o, status);
    }
  }

  /** However the port got there, the outputs are those of the last update alone. */
  lemma {:induction false} OutputsFollowLastUpdate(h: Hw, c: Config, was: Option<State>, updates: seq<Update>)
    requires was.Some? ==> Agrees(h, c, was.value)
    ensures updates != [] ==> Agrees(UncachedRun(h, c, was, updates), c, updates[|updates| - 1].state)
    ensures UncachedRun(h, c, was, updates).portRole == h.portRole
    decreases |updates|
  {
    if updates != [] {
      var n := |updates| - 1;
      OutputsFollowLastUpdate(h, c, was, updates[..n]);
      var before := if n == 0 then was else Some(updates[n - 1].state);
      var reached := UncachedRun(h, c, was, updates[..n]);
      assert n > 0 ==> updates[..n][n - 1] == updates[n - 1];
      UncachedAgrees(reached, c, before, updates[n].state, updates[n].orientation, updates[n].status);
    }
  }

  lemma RunStep(h: Hw, c: Config, was: Option<State>, updates: seq<Update>, last: Update)
      returns (h0: Hw, before: Option<State>)
    requires was.Some? ==> Agrees(h, c, was.value)
    ensures before.Some? ==> Agrees(h0, c, before.value)
    ensures UncachedRun(h, c, was, updates + [last])
         == Uncached(h0, c, before, last.state, last.orientation, last.status)
  {
    var n := |updates|;
    OutputsFollowLastUpdate(h, c, was, updates);
    assert (updates + [last])[..n] == updates;
    h0, before := UncachedRun(h, c, was, updates), if n == 0 then was else Some(updates[n - 1].state);
  }

  /** They are what the last state read shows, whatever went before. */
  lemma RunShowsLast(h: Hw, c: Config, was: Option<State>, updates: seq<Update>, last: Update)
    requires was.Some? ==> Agrees(h, c, was.value)
    ensures var h' := UncachedRun(h, c, was, updates + [last]);
            if last.state.Unattached? then ShowsNothing(h')
            else Shows(h', c, last.state, last.status) && h'.orientation == last.orientation
  {
    var h0, before := RunStep(h, c, was, updates, last);
    UncachedShows(h0, c, before, last.state, last.orientation, last.status);
  }

  // ----- the port-role register -----

  const TRY_AND_MODE: bv8 := 0x37
  const TRY: bv8 := 0x30

  function PortRoleBits(t: PortType): bv8 {
    match t
    case SourceOnly => 0x01
    case SinkOnly => 0x02
    case DualRole => 0x04
  }

  function TryBits(preferred: Option<PowerRole>): bv8 {
    match preferred
    case Some(TakesPower) => 0x10
    case Some(GivesPower) => 0x20
    case None => 0x00
  }

  /** The value the driver puts together. */
  function RoleBits(t: PortType, preferred: Option<PowerRole>): bv8 {
    PortRoleBits(t) | if t.DualRole? then TryBits(preferred) else 0
  }

  /** The register field the configuration calls for. */
  function PortRoleField(t: PortType, preferred: Option<PowerRole>): bv8 {
    match t
    case SourceOnly => 0x01
    case SinkOnly => 0x02
    case DualRole => if preferred.None? then 0x04 else if preferred.value.TakesPower? then 0x14 else 0x24
  }

  /** Interrupts masked, and the current the port advertises. */
  function HostCurrentField(opmode: OpMode): bv8 {
    match opmode
    case DefaultCurrent => 0x03
    case Current1A5 => 0x05
    case Current3A => 0x07
  }

  /** regmap_update_bits */
  function UpdateBits(reg: bv8, mask: bv8, val: bv8): bv8 {
    (reg & !mask) | (val & mask)
  }

  /** The port type is one of the low three bits; a preference of a dual-role port is
      one of two others. */
  lemma PortRoleBitsMean(reg: bv8, t: PortType, preferred: Option<PowerRole>)
    requires reg & TRY_AND_MODE == PortRoleField(t, preferred)
    ensures reg & 0x07 == 0x01 <==> t == SourceOnly
    ensures reg & 0x07 == 0x02 <==> t == SinkOnly
    ensures reg & 0x07 == 0x04 <==> t == DualRole
    ensures reg & 0x30 == 0x10 <==> t == DualRole && preferred == Some(TakesPower)
    ensures reg & 0x30 == 0x20 <==> t == DualRole && preferred == Some(GivesPower)
    ensures reg & 0x30 != 0x30
  {
  }

  /** The current field of the control register. */
  predicate Advertises(control: bv8, opmode: OpMode) {
    control & 0x06 == match opmode case DefaultCurrent => 0x02 case Current1A5 => 0x04 case Current3A => 0x06
  }

  lemma CurrentUpdate(reg: bv8, opmode: OpMode)
    ensures var reg' := UpdateBits(reg, 0x07, HostCurrentField(opmode));
            Advertises(reg', opmode) && reg' & 0x01 == 1
  {
  }

  /** Rewriting the try field leaves the mode field alone. */
  lemma TryUpdate(reg: bv8, preferred: Option<PowerRole>, role: Option<PowerRole>)
    requires reg & TRY_AND_MODE == PortRoleField(DualRole, preferred)
    ensures UpdateBits(reg, TRY, TryBits(role)) & TRY_AND_MODE == PortRoleField(DualRole, role)
  {
  }

  /** Writing the mode bits, with the try bits of a dual-role port, makes the
      register encode the configuration whatever it held. */
  lemma ModeUpdate(reg: bv8, t: PortType, preferred: Option<PowerRole>)
    ensures UpdateBits(reg, TRY_AND_MODE, RoleBits(t, preferred)) & TRY_AND_MODE == PortRoleField(t, preferred)
  {
  }
}
