/**
 * The device collector: one synchronous pass that empties its gauges and
 * fills them again from the snapshots. What is written is described as a
 * sequence of writes; each Rendered function extends such a sequence in the
 * order of the code. The unknown-enum counter is not modelled.
 */
module Collector {
  import opened Prelude
  import opened SeriesKeys
  import opened GaugeStore

  datatype Gauge =
    | CpuUsageRatio | MemoryUsageRatio | DiskUsageRatio
    | InterfaceInputBytesAvg | InterfaceOutputBytesAvg
    | InterfaceInputPacketSizeAvgBytes | InterfaceOutputPacketSizeAvgBytes
    | InterfaceInputErrorsAvg | InterfaceOutputErrorsAvg | InterfaceDropPacketsAvg
    | InterfaceBufferOverrunsAvg | InterfaceBufferUnderrunsAvg | InterfaceL2DecodeDropsAvg
    | InterfaceLinkUp | InterfaceOperationalUp | InterfaceDuplexInfo
    | ChassisFanRpm | ChassisPsuFanUp | ChassisPsuInputUp | ChassisPsuOutputUp
    | HaNodeStatus | HaNodeInfo
    | RavpnSessionsActiveAvg | RavpnSessionsInactiveAvg | RavpnSessionsPeakConcurrent
    | S2sTunnelState
    | HealthWindowStartTimestampSeconds | HealthWindowEndTimestampSeconds

  // -------------------------------------------------------------- snapshots

  datatype Usage = Usage(lina: Option<real>, snort: Option<real>, system: Option<real>)

  datatype Interface = Interface(
    id: string, name: Option<string>, kind: Option<string>,
    inputBytesAvg: Option<real>, outputBytesAvg: Option<real>,
    inputPacketSizeAvg: Option<real>, outputPacketSizeAvg: Option<real>,
    inputErrorsAvg: Option<real>, outputErrorsAvg: Option<real>, dropPacketsAvg: Option<real>,
    bufferOverrunsAvg: Option<real>, bufferUnderrunsAvg: Option<real>, l2DecodeDropsAvg: Option<real>,
    linkStatus: Option<string>, operationalStatus: Option<string>, duplexMode: Option<string>)

  datatype Fan = Fan(fan: string, rpmAvg: real)

  datatype Psu = Psu(psu: string, fanStatus: Option<string>, inputStatus: Option<string>, outputStatus: Option<string>)

  datatype Chassis = Chassis(fans: seq<Fan>, psus: seq<Psu>)

  datatype Ha = Ha(nodeStatus: string, nodeType: string)

  datatype RaVpn = RaVpn(activeSessionsAvg: Option<real>, inactiveSessionsAvg: Option<real>, peakConcurrent: Option<real>)

  datatype Tunnel = Tunnel(id: string, name: string, state: string)

  /** Lists that a snapshot lacks are empty; instants are in milliseconds. */
  datatype Snapshot = Snapshot(
    device: Device, cpu: Option<Usage>, memory: Option<Usage>, diskPercent: Option<real>,
    interfaces: seq<Interface>, chassis: Option<Chassis>, ha: Option<Ha>, raVpn: Option<RaVpn>,
    tunnels: seq<Tunnel>, windowStart: Option<real>, windowEnd: Option<real>)

  datatype Device = Device(uid: string, name: string)

  // ----------------------------------------------------------------- labels

  const COMPONENT: LabelName := "component"
  const DEVICE_NAME: LabelName := "device_name"
  const DEVICE_UID: LabelName := "device_uid"
  const DUPLEX_MODE: LabelName := "duplex_mode"
  const FAN: LabelName := "fan"
  const INTERFACE: LabelName := "interface"
  const INTERFACE_NAME: LabelName := "interface_name"
  const INTERFACE_TYPE: LabelName := "interface_type"
  const NODE_TYPE: LabelName := "node_type"
  const PSU: LabelName := "psu"
  const STATE: LabelName := "state"
  const STATUS: LabelName := "status"
  const TUNNEL_ID: LabelName := "tunnel_id"
  const TUNNEL_NAME: LabelName := "tunnel_name"

  function DeviceLabels(d: Device): Labels { [Label(DEVICE_NAME, d.name), Label(DEVICE_UID, d.uid)] }

  function ComponentLabels(component: string, d: Device): Labels { [Label(COMPONENT, component)] + DeviceLabels(d) }

  function NonEmpty(s: Option<string>): Option<string> { if s == Some("") then None else s }

  /** interface_name falls back to the hardware id; an empty type is left out. */
  function InterfaceLabels(i: Interface): Labels
  {
    [Label(INTERFACE, i.id), Label(INTERFACE_NAME, if NonEmpty(i.name).Some? then NonEmpty(i.name).value else i.id)]
    + if NonEmpty(i.kind).Some? then [Label(INTERFACE_TYPE, NonEmpty(i.kind).value)] else []
  }

  // --------------------------------------------------------------- readings

  function Ratio(percent: Option<real>): Option<real> { if percent.Some? then Some(percent.value / 100.0) else None }

  function Seconds(ms: Option<real>): Option<real> { if ms.Some? then Some(ms.value / 1000.0) else None }

  /** UP is 1 and DOWN is 0; anything else writes nothing. */
  function BinaryEnum(raw: Option<string>): Option<real>
  {
    if raw == Some("UP") then Some(1.0) else if raw == Some("DOWN") then Some(0.0) else None
  }

  function UsageReadings(gauge: Gauge, d: Device, usage: Option<Usage>): seq<Reading<Gauge>>
  {
    if usage.None? then []
    else [Reading(gauge, ComponentLabels("lina", d), Ratio(usage.value.lina)),
          Reading(gauge, ComponentLabels("snort", d), Ratio(usage.value.snort)),
          Reading(gauge, ComponentLabels("system", d), Ratio(usage.value.system))]
  }

  function InterfaceReadings(d: Device, i: Interface): seq<Reading<Gauge>>
  {
    var base, duplex := DeviceLabels(d) + InterfaceLabels(i), NonEmpty(i.duplexMode);
    [Reading(InterfaceInputBytesAvg, base, i.inputBytesAvg),
     Reading(InterfaceOutputBytesAvg, base, i.outputBytesAvg),
     Reading(InterfaceInputPacketSizeAvgBytes, base, i.inputPacketSizeAvg),
     Reading(InterfaceOutputPacketSizeAvgBytes, base, i.outputPacketSizeAvg),
     Reading(InterfaceInputErrorsAvg, base, i.inputErrorsAvg),
     Reading(InterfaceOutputErrorsAvg, base, i.outputErrorsAvg),
     Reading(InterfaceDropPacketsAvg, base, i.dropPacketsAvg),
     Reading(InterfaceBufferOverrunsAvg, base, i.bufferOverrunsAvg),
     Reading(InterfaceBufferUnderrunsAvg, base, i.bufferUnderrunsAvg),
     Reading(InterfaceL2DecodeDropsAvg, base, i.l2DecodeDropsAvg),
     Reading(InterfaceLinkUp, base, BinaryEnum(i.linkStatus)),
     Reading(InterfaceOperationalUp, base, BinaryEnum(i.operationalStatus)),
     Reading(InterfaceDuplexInfo,
             DeviceLabels(d) + [Label(DUPLEX_MODE, if duplex.Some? then duplex.value else "")] + InterfaceLabels(i),
             if duplex.Some? then Some(1.0) else None)]
  }

  function FanReadings(d: Device, f: Fan): seq<Reading<Gauge>>
  {
    [Reading(ChassisFanRpm, DeviceLabels(d) + [Label(FAN, f.fan)], Some(f.rpmAvg))]
  }

  function PsuReadings(d: Device, p: Psu): seq<Reading<Gauge>>
  {
    var labels := DeviceLabels(d) + [Label(PSU, p.psu)];
    [Reading(ChassisPsuFanUp, labels, BinaryEnum(p.fanStatus)),
     Reading(ChassisPsuInputUp, labels, BinaryEnum(p.inputStatus)),
     Reading(ChassisPsuOutputUp, labels, BinaryEnum(p.outputStatus))]
  }

  function NodeTypeLabel(raw: string): string
  {
    if raw == "PRIMARY" then "primary" else if raw == "SECONDARY" then "secondary" else "unknown"
  }

  function HaInfoReadings(d: Device, ha: Ha): seq<Reading<Gauge>>
  {
    [Reading(HaNodeInfo, DeviceLabels(d) + [Label(NODE_TYPE, NodeTypeLabel(ha.nodeType))], Some(1.0))]
  }

  function RaVpnReadings(d: Device, r: Option<RaVpn>): seq<Reading<Gauge>>
  {
    if r.None? then []
    else [Reading(RavpnSessionsActiveAvg, DeviceLabels(d), r.value.activeSessionsAvg),
          Reading(RavpnSessionsInactiveAvg, DeviceLabels(d), r.value.inactiveSessionsAvg),
          Reading(RavpnSessionsPeakConcurrent, DeviceLabels(d), r.value.peakConcurrent)]
  }

  function DiskReadings(x: Snapshot): seq<Reading<Gauge>>
  {
    [Reading(DiskUsageRatio, DeviceLabels(x.device), Ratio(x.diskPercent))]
  }

  function WindowReadings(x: Snapshot): seq<Reading<Gauge>>
  {
    [Reading(HealthWindowStartTimestampSeconds, DeviceLabels(x.device), Seconds(x.windowStart)),
     Reading(HealthWindowEndTimestampSeconds, DeviceLabels(x.device), Seconds(x.windowEnd))]
  }

  // ------------------------------------------------------------- state sets

  /** What a state set is about: a device's HA node or one of its tunnels. */
  datatype Subject = HaOf(device: Device) | TunnelOf(device: Device, id: string, name: string)

  datatype State = Normal | Error | Warning | Disabled | Unknown | Up | Down

  function StatesOf(t: Subject): seq<State>
  {
    if t.HaOf? then [Normal, Error, Warning, Disabled, Unknown] else [Up, Down, Unknown]
  }

  function StateLabel(s: State): string
  {
    match s
    case Normal => "normal"
    case Error => "error"
    case Warning => "warning"
    case Disabled => "disabled"
    case Unknown => "unknown"
    case Up => "up"
    case Down => "down"
  }

  /** Values outside the vocabulary count as unknown. */
  function ClassifyHaNodeStatus(raw: string): (s: State)
    ensures s in StatesOf(HaOf(Device("", "")))
  {
    if raw == "NORMAL" then Normal else if raw == "ERROR" then Error else if raw == "WARNING" then Warning
    else if raw == "DISABLED" then Disabled else Unknown
  }

  function ClassifyTunnelState(raw: string): (s: State)
    ensures s in StatesOf(TunnelOf(Device("", ""), "", ""))
  {
    if raw == "TUNNEL_UP" then Up else if raw == "TUNNEL_DOWN" then Down else Unknown
  }

  function StateSeries(t: Subject, s: State): Series<Gauge>
  {
    match t
    case HaOf(d) => Series(HaNodeStatus, [Label(DEVICE_NAME, d.name), Label(DEVICE_UID, d.uid), Label(STATUS, StateLabel(s))])
    case TunnelOf(d, id, name) =>
      Series(S2sTunnelState, [Label(DEVICE_NAME, d.name), Label(DEVICE_UID, d.uid), Label(STATE, StateLabel(s)),
                              Label(TUNNEL_ID, id), Label(TUNNEL_NAME, name)])
  }

  function Bit(b: bool): real { if b then 1.0 else 0.0 }

  // --------------------------------------------------------------- rendering

  type Writes = seq<Write<Gauge>>

  function RenderedStates(before: Writes, t: Subject, active: State, states: seq<State>): Writes
  {
    if states == [] then before
    else
      var last := states[|states| - 1];
      RenderedStates(before, t, active, states[..|states| - 1]) + [Write(StateSeries(t, last), Bit(last == active))]
  }

  function RenderedStateSet(before: Writes, t: Subject, active: State): Writes { RenderedStates(before, t, active, StatesOf(t)) }

  function RenderedInterfaces(before: Writes, d: Device, interfaces: seq<Interface>): Writes
  {
    if interfaces == [] then before
    else Rendered(RenderedInterfaces(before, d, interfaces[..|interfaces| - 1]), InterfaceReadings(d, interfaces[|interfaces| - 1]))
  }

  function RenderedFans(before: Writes, d: Device, fans: seq<Fan>): Writes
  {
    if fans == [] then before
    else Rendered(RenderedFans(before, d, fans[..|fans| - 1]), FanReadings(d, fans[|fans| - 1]))
  }

  function RenderedPsus(before: Writes, d: Device, psus: seq<Psu>): Writes
  {
    if psus == [] then before
    else Rendered(RenderedPsus(before, d, psus[..|psus| - 1]), PsuReadings(d, psus[|psus| - 1]))
  }

  function RenderedChassis(before: Writes, d: Device, chassis: Option<Chassis>): Writes
  {
    if chassis.None? then before else RenderedPsus(RenderedFans(before, d, chassis.value.fans), d, chassis.value.psus)
  }

  function RenderedHa(before: Writes, d: Device, ha: Option<Ha>): Writes
  {
    if ha.None? then before
    else Rendered(RenderedStateSet(before, HaOf(d), ClassifyHaNodeStatus(ha.value.nodeStatus)), HaInfoReadings(d, ha.value))
  }

  function RenderedTunnel(before: Writes, d: Device, tunnel: Tunnel): Writes
  {
    RenderedStateSet(before, TunnelOf(d, tunnel.id, tunnel.name), ClassifyTunnelState(tunnel.state))
  }

  function RenderedTunnels(before: Writes, d: Device, tunnels: seq<Tunnel>): Writes
  {
    if tunnels == [] then before
    else RenderedTunnel(RenderedTunnels(before, d, tunnels[..|tunnels| - 1]), d, tunnels[|tunnels| - 1])
  }

  /** Everything before the HA part of a snapshot. */
  function RenderedHead(before: Writes, x: Snapshot): Writes
  {
    var usage := Rendered(Rendered(before, UsageReadings(CpuUsageRatio, x.device, x.cpu)),
                          UsageReadings(MemoryUsageRatio, x.device, x.memory));
    RenderedChassis(RenderedInterfaces(Rendered(usage, DiskReadings(x)), x.device, x.interfaces), x.device, x.chassis)
  }

  function RenderedSnapshot(before: Writes, x: Snapshot): Writes
  {
    var ha := RenderedHa(RenderedHead(before, x), x.device, x.ha);
    Rendered(RenderedTunnels(Rendered(ha, RaVpnReadings(x.device, x.raVpn)), x.device, x.tunnels), WindowReadings(x))
  }

  /** All writes of one render, a function of the snapshots alone. */
  function RenderedAll(snapshots: seq<Snapshot>): Writes
  {
    if snapshots == [] then []
    else RenderedSnapshot(RenderedAll(snapshots[..|snapshots| - 1]), snapshots[|snapshots| - 1])
  }

  // -------------------------------------------------------------- operations

  method SetStates(r: Renderer<Gauge>, t: Subject, active: State, states: seq<State>)
    requires r.Valid()
    modifies r
    ensures r.Valid() && r.writes == RenderedStates(old(r.writes), t, active, states)
  {
    for k := 0 to |states|
      invariant r.Valid() && r.writes == RenderedStates(old(r.writes), t, active, states[..k])
    {
      OneMoreState(old(r.writes), t, active, states, k);
      var series := StateSeries(t, states[k]);
      r.Set(series.gauge, series.labels, Bit(StateLabel(states[k]) == StateLabel(active)));
      LabelsTellStatesApart(states[k], active);
    }
    assert states[..|states|] == states;
  }

  lemma OneMoreState(before: Writes, t: Subject, active: State, states: seq<State>, k: nat)
    requires k < |states|
    ensures RenderedStates(before, t, active, states[..k + 1])
            == RenderedStates(before, t, active, states[..k]) + [Write(StateSeries(t, states[k]), Bit(states[k] == active))]
  {
    assert states[..k + 1][..k] == states[..k];
  }

  lemma LabelsTellStatesApart(a: State, b: State)
    ensures StateLabel(a) == StateLabel(b) <==> a == b
  {
  }

  method RenderInterfaces(r: Renderer<Gauge>, d: Device, interfaces: seq<Interface>)
    requires r.Valid()
    modifies r
    ensures r.Valid() && r.writes == RenderedInterfaces(old(r.writes), d, interfaces)
  {
    for k := 0 to |interfaces|
      invariant r.Valid() && r.writes == RenderedInterfaces(old(r.writes), d, interfaces[..k])
    {
      r.SetPresent(InterfaceReadings(d, interfaces[k]));
      assert interfaces[..k + 1][..k] == interfaces[..k];
    }
    assert interfaces[..|interfaces|] == interfaces;
  }

  method RenderFans(r: Renderer<Gauge>, d: Device, fans: seq<Fan>)
    requires r.Valid()
    modifies r
    ensures r.Valid() && r.writes == RenderedFans(old(r.writes), d, fans)
  {
    for k := 0 to |fans|
      invariant r.Valid() && r.writes == RenderedFans(old(r.writes), d, fans[..k])
    {
      r.SetPresent(FanReadings(d, fans[k]));
      assert fans[..k + 1][..k] == fans[..k];
    }
    assert fans[..|fans|] == fans;
  }

  method RenderPsus(r: Renderer<Gauge>, d: Device, psus: seq<Psu>)
    requires r.Valid()
    modifies r
    ensures r.Valid() && r.writes == RenderedPsus(old(r.writes), d, psus)
  {
    for k := 0 to |psus|
      invariant r.Valid() && r.writes == RenderedPsus(old(r.writes), d, psus[..k])
    {
      r.SetPresent(PsuReadings(d, psus[k]));
      assert psus[..k + 1][..k] == psus[..k];
    }
    assert psus[..|psus|] == psus;
  }

  lemma OneMoreTunnel(before: Writes, d: Device, tunnels: seq<Tunnel>, k: nat)
    requires k < |tunnels|
    ensures RenderedTunnels(before, d, tunnels[..k + 1]) == RenderedTunnel(RenderedTunnels(before, d, tunnels[..k]), d, tunnels[k])
  {
    assert tunnels[..k + 1][..k] == tunnels[..k];
  }

  method RenderTunnels(r: Renderer<Gauge>, d: Device, tunnels: seq<Tunnel>)
    requires r.Valid()
    modifies r
    ensures r.Valid() && r.writes == RenderedTunnels(old(r.writes), d, tunnels)
  {
    for k := 0 to |tunnels|
      invariant r.Valid() && r.writes == RenderedTunnels(old(r.writes), d, tunnels[..k])
    {
      OneMoreTunnel(old(r.writes), d, tunnels, k);
      var subject := TunnelOf(d, tunnels[k].id, tunnels[k].name);
      SetStates(r, subject, ClassifyTunnelState(tunnels[k].state), StatesOf(subject));
    }
    assert tunnels[..|tunnels|] == tunnels;
  }

  method RenderHead(r: Renderer<Gauge>, x: Snapshot)
    requires r.Valid()
    modifies r
    ensures r.Valid() && r.writes == RenderedHead(old(r.writes), x)
  {
    r.SetPresent(UsageReadings(CpuUsageRatio, x.device, x.cpu));
    r.SetPresent(UsageReadings(MemoryUsageRatio, x.device, x.memory));
    r.SetPresent(DiskReadings(x));
    RenderInterfaces(r, x.device, x.interfaces);
    if x.chassis.Some? {
      RenderFans(r, x.device, x.chassis.value.fans);
      RenderPsus(r, x.device, x.chassis.value.psus);
    }
  }

  method RenderHa(r: Renderer<Gauge>, d: Device, ha: Option<Ha>)
    requires r.Valid()
    modifies r
    ensures r.Valid() && r.writes == RenderedHa(old(r.writes), d, ha)
  {
    if ha.Some? {
      var subject := HaOf(d);
      SetStates(r, subject, ClassifyHaNodeStatus(ha.value.nodeStatus), StatesOf(subject));
      r.SetPresent(HaInfoReadings(d, ha.value));
    }
  }

  method RenderSnapshot(r: Renderer<Gauge>, x: Snapshot)
    requires r.Valid()
    modifies r
    ensures r.Valid() && r.writes == RenderedSnapshot(old(r.writes), x)
  {
    RenderHead(r, x);
    RenderHa(r, x.device, x.ha);
    r.SetPresent(RaVpnReadings(x.device, x.raVpn));
    RenderTunnels(r, x.device, x.tunnels);
    r.SetPresent(WindowReadings(x));
  }

  /** Whatever was rendered before, the gauges end as the snapshots' own, and the count is that of their keys. */
  method RenderDeviceMetrics(r: Renderer<Gauge>, snapshots: seq<Snapshot>) returns (seriesCount: nat)
    requires r.style.Comma?
    modifies r
    ensures r.Valid() && r.store == Stored(RenderedAll(snapshots))
    ensures seriesCount == |Keys(Comma, RenderedAll(snapshots))|
  {
    r.Reset();
    for k := 0 to |snapshots|
      invariant r.Valid() && r.writes == RenderedAll(snapshots[..k])
    {
      RenderSnapshot(r, snapshots[k]);
      assert snapshots[..k + 1][..k] == snapshots[..k];
    }
    assert snapshots[..|snapshots|] == snapshots;
    seriesCount := |r.seenSeries|;
  }
}
