/** husb320_probe before the controller is initialised: what is identified and
    parsed there fixes the configuration every later step relies on. */
module HusbProbe {
  import opened Husb320
  import opened Optional
  import opened TypecPort

  datatype NamedOpMode = UsbCurrent(mode: OpMode) | PowerDelivery

  /** The connector node as the type-C core reads it; a mode is None when the
      property is missing or has no known name. */
  datatype Connector = Connector(power: PortType, data: Option<DataPort>, preferred: Option<PowerRole>,
                                 opmode: Option<NamedOpMode>)

  /** A supply or switch that is looked up: there, not described, or failing. */
  datatype Lookup = Found | Absent | Failing

  /** husb320_parse_connector. Without a data role the zeroed capability, which
      means host, is only replaced for ports that can sink. */
  function ParseConnector(node: Connector, hasVbus: bool): Option<Config> {
    if node.opmode.None? || node.opmode.value.PowerDelivery? then None
    else
      var hasData := node.data.Some?;
      var data := if hasData then node.data.value else HostOnly;
      if hasData && ((node.power.SourceOnly? && data != HostOnly)
                     || (node.power.SinkOnly? && data != DeviceOnly)
                     || (node.power.DualRole? && data != DualData)) then None
      else
        var data' := if hasData || node.power.SourceOnly? then data
                     else if node.power.SinkOnly? then DeviceOnly else DualData;
        Some(Config(node.power, node.preferred, node.power, data', hasData, node.opmode.value.mode, hasVbus))
  }

  /** The data role that goes with a power role. */
  function Matching(t: PortType): DataPort {
    match t
    case SourceOnly => HostOnly
    case SinkOnly => DeviceOnly
    case DualRole => DualData
  }

  /** A node is refused exactly when it names no usable current or a data role that
      does not match; an accepted port has a matching data role whether it named one
      or not, so an idle port is a host exactly when it gives power. */
  lemma ConnectorAccepted(node: Connector, hasVbus: bool)
    ensures ParseConnector(node, hasVbus).Some? <==>
      && node.opmode.Some? && node.opmode.value.UsbCurrent?
      && (node.data.Some? ==> node.data.value == Matching(node.power))
    ensures match ParseConnector(node, hasVbus)
            case None => true
            case Some(c) =>
              && c.portType == c.capType == node.power && c.capData == Matching(c.capType)
              && (DefaultDataRole(c).DataHost? <==> DefaultPowerRole(c).GivesPower?)
  {
  }

  /** husb320_get_role_switch and husb320_get_vbus. */
  predicate Supplied(c: Config, roleSwitch: Lookup, vbus: Lookup) {
    && (c.hasData ==> roleSwitch.Found? || (roleSwitch.Absent? && c.capData != DualData))
    && !vbus.Failing? && (c.capType == SinkOnly || vbus.Found?)
  }

  /** husb320_check_device */
  method CheckDevice(board: Board) returns (ret: int, ghost id: bv8, ghost kind: bv8)
    ensures ret == 0 ==> id >> 4 == 1 && kind == 0x03
  {
    var deviceId, deviceType;
    id, kind := 0, 0;
    ret, deviceId := board.Read();
    if ret != 0 {
      return;
    }
    ret, deviceType := board.Read();
    if ret != 0 {
      return;
    }
    id, kind := deviceId, deviceType;
    if (deviceId >> 4) & 0xf != 1 || deviceType != 0x03 {
      ret := -19;
    }
  }

  /** husb320_probe. Success leaves a driver at the release invariant with the parsed
      configuration, and a port that can source has a supply to switch; a device, a
      node or a supply that is refused leaves the board untouched. */
  method Probe(board: Board, interrupt: bool, node: Option<Connector>, roleSwitch: Lookup, vbus: Lookup)
      returns (ret: int, driver: Driver?)
    requires board.hw.vbusVotes == 0 && board.enables == board.disables
    requires board.hw.partner.None? && board.hw.usbRole.None?
    modifies board
    ensures ret == 0 ==> driver != null && driver.board == board && driver.Released() && !driver.shuttingDown
    ensures driver != null ==>
      && fresh(driver) && interrupt && node.Some? && ParseConnector(node.value, vbus.Found?) == Some(driver.Cfg())
      && Supplied(driver.Cfg(), roleSwitch, vbus) && driver.Settled() && (driver.capType != SinkOnly ==> driver.hasVbus)
    ensures driver == null ==> ret != 0 && board.hw == old(board.hw) && board.enables == old(board.enables)
  {
    driver := null;
    ret := *;
    if ret != 0 {
      return;
    }
    ghost var id, kind;
    ret, id, kind := CheckDevice(board);
    if ret != 0 {
      return;
    }
    if !interrupt {
      return -22, null;
    }
    if node.None? {
      return -19, null;
    }
    var config := ParseConnector(node.value, vbus.Found?);
    if config.None? || !Supplied(config.value, roleSwitch, vbus) {
      return -22, null;
    }
    ConnectorAccepted(node.value, vbus.Found?);
    driver := new Driver(board, config.value);
    ret := driver.Start();
  }
}
