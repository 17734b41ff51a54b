/**
 * The device collector's writes as one list of readings: what each part of a
 * snapshot says, in the order of the code. Every stored value is traced back
 * to the last reading of its series.
 */
module CollectorReadings {
  import opened Prelude
  import opened SeriesKeys
  import opened GaugeStore
  import opened Collector

  type Readings = seq<Reading<Gauge>>

  function StateReadings(t: Subject, active: State, states: seq<State>): Readings
  {
    if states == [] then []
    else
      var last := states[|states| - 1];
      StateReadings(t, active, states[..|states| - 1])
      + [Reading(StateSeries(t, last).gauge, StateSeries(t, last).labels, Some(Bit(last == active)))]
  }

  function InterfacesReadings(d: Device, interfaces: seq<Interface>): Readings
  {
    if interfaces == [] then []
    else InterfacesReadings(d, interfaces[..|interfaces| - 1]) + InterfaceReadings(d, interfaces[|interfaces| - 1])
  }

  function FansReadings(d: Device, fans: seq<Fan>): Readings
  {
    if fans == [] then [] else FansReadings(d, fans[..|fans| - 1]) + FanReadings(d, fans[|fans| - 1])
  }

  function PsusReadings(d: Device, psus: seq<Psu>): Readings
  {
    if psus == [] then [] else PsusReadings(d, psus[..|psus| - 1]) + PsuReadings(d, psus[|psus| - 1])
  }

  function TunnelReadings(d: Device, tunnel: Tunnel): Readings
  {
    var t := TunnelOf(d, tunnel.id, tunnel.name);
    StateReadings(t, ClassifyTunnelState(tunnel.state), StatesOf(t))
  }

  function TunnelsReadings(d: Device, tunnels: seq<Tunnel>): Readings
  {
    if tunnels == [] then []
    else TunnelsReadings(d, tunnels[..|tunnels| - 1]) + TunnelReadings(d, tunnels[|tunnels| - 1])
  }

  /** The parts of a snapshot, each with gauges of its own. */
  datatype Part = CpuPart | MemoryPart | DiskPart | InterfacePart | ChassisPart | HaPart | VpnPart | TunnelPart | WindowPart

  const PARTS: seq<Part> :=
    [CpuPart, MemoryPart, DiskPart, InterfacePart, ChassisPart, HaPart, VpnPart, TunnelPart, WindowPart]

  function PartOf(g: Gauge): Part
  {
    match g
    case CpuUsageRatio => CpuPart
    case MemoryUsageRatio => MemoryPart
    case DiskUsageRatio => DiskPart
    case ChassisFanRpm => ChassisPart
    case ChassisPsuFanUp => ChassisPart
    case ChassisPsuInputUp => ChassisPart
    case ChassisPsuOutputUp => ChassisPart
    case HaNodeStatus => HaPart
    case HaNodeInfo => HaPart
    case RavpnSessionsActiveAvg => VpnPart
    case RavpnSessionsInactiveAvg => VpnPart
    case RavpnSessionsPeakConcurrent => VpnPart
    case S2sTunnelState => TunnelPart
    case HealthWindowStartTimestampSeconds => WindowPart
    case HealthWindowEndTimestampSeconds => WindowPart
    case _ => InterfacePart
  }

  function PartReadings(x: Snapshot, p: Part): Readings
  {
    var d := x.device;
    match p
    case CpuPart => UsageReadings(CpuUsageRatio, d, x.cpu)
    case MemoryPart => UsageReadings(MemoryUsageRatio, d, x.memory)
    case DiskPart => DiskReadings(x)
    case InterfacePart => InterfacesReadings(d, x.interfaces)
    case ChassisPart => if x.chassis.None? then [] else FansReadings(d, x.chassis.value.fans) + PsusReadings(d, x.chassis.value.psus)
    case HaPart =>
      if x.ha.None? then []
      else StateReadings(HaOf(d), ClassifyHaNodeStatus(x.ha.value.nodeStatus), StatesOf(HaOf(d))) + HaInfoReadings(d, x.ha.value)
    case VpnPart => RaVpnReadings(d, x.raVpn)
    case TunnelPart => TunnelsReadings(d, x.tunnels)
    case WindowPart => WindowReadings(x)
  }

  function PartsReadings(x: Snapshot, parts: seq<Part>): Readings
  {
    if parts == [] then [] else PartsReadings(x, parts[..|parts| - 1]) + PartReadings(x, parts[|parts| - 1])
  }

  function SnapshotReadings(x: Snapshot): Readings { PartsReadings(x, PARTS) }

  function AllReadings(snapshots: seq<Snapshot>): Readings
  {
    if snapshots == [] then [] else AllReadings(snapshots[..|snapshots| - 1]) + SnapshotReadings(snapshots[|snapshots| - 1])
  }

  // ---------------------------------------------- the render writes these readings

  lemma {:induction false} RenderedConcat(before: Writes, a: Readings, b: Readings)
    ensures Rendered(before, a + b) == Rendered(Rendered(before, a), b)
  {
    if b == [] {
      assert a + b == a;
    } else {
      assert (a + b)[..|a + b| - 1] == a + b[..|b| - 1];
      RenderedConcat(before, a, b[..|b| - 1]);
    }
  }

  lemma {:induction false} StatesAreReadings(before: Writes, t: Subject, active: State, states: seq<State>)
    ensures RenderedStates(before, t, active, states) == Rendered(before, StateReadings(t, active, states))
  {
    if states != [] {
      var init, last := states[..|states| - 1], states[|states| - 1];
      StatesAreReadings(before, t, active, init);
      var series := StateSeries(t, last);
      OneMoreReading(before, StateReadings(t, active, init), Reading(series.gauge, series.labels, Some(Bit(last == active))));
    }
  }

  lemma OneMoreReading(before: Writes, readings: Readings, last: Reading<Gauge>)
    requires last.value.Some?
    ensures Rendered(before, readings + [last])
            == Rendered(before, readings) + [Write(Series(last.gauge, last.labels), last.value.value)]
  {
    assert (readings + [last])[..|readings|] == readings;
  }

  lemma {:induction false} InterfacesAreReadings(before: Writes, d: Device, interfaces: seq<Interface>)
    ensures RenderedInterfaces(before, d, interfaces) == Rendered(before, InterfacesReadings(d, interfaces))
  {
    if interfaces != [] {
      var init, last := interfaces[..|interfaces| - 1], interfaces[|interfaces| - 1];
      InterfacesAreReadings(before, d, init);
      RenderedConcat(before, InterfacesReadings(d, init), InterfaceReadings(d, last));
    }
  }

  lemma {:induction false} FansAreReadings(before: Writes, d: Device, fans: seq<Fan>)
    ensures RenderedFans(before, d, fans) == Rendered(before, FansReadings(d, fans))
  {
    if fans != [] {
      FansAreReadings(before, d, fans[..|fans| - 1]);
      RenderedConcat(before, FansReadings(d, fans[..|fans| - 1]), FanReadings(d, fans[|fans| - 1]));
    }
  }

  lemma {:induction false} PsusAreReadings(before: Writes, d: Device, psus: seq<Psu>)
    ensures RenderedPsus(before, d, psus) == Rendered(before, PsusReadings(d, psus))
  {
    if psus != [] {
      PsusAreReadings(before, d, psus[..|psus| - 1]);
      RenderedConcat(before, PsusReadings(d, psus[..|psus| - 1]), PsuReadings(d, psus[|psus| - 1]));
    }
  }

  lemma {:induction false} TunnelsAreReadings(before: Writes, d: Device, tunnels: seq<Tunnel>)
    ensures RenderedTunnels(before, d, tunnels) == Rendered(before, TunnelsReadings(d, tunnels))
  {
    if tunnels != [] {
      var init, last := tunnels[..|tunnels| - 1], tunnels[|tunnels| - 1];
      TunnelsAreReadings(before, d, init);
      var t := TunnelOf(d, last.id, last.name);
      StatesAreReadings(RenderedTunnels(before, d, init), t, ClassifyTunnelState(last.state), StatesOf(t));
      RenderedConcat(before, TunnelsReadings(d, init), TunnelReadings(d, last));
    }
  }

  lemma OneMorePart(before: Writes, x: Snapshot, parts: seq<Part>, p: Part)
    ensures Rendered(before, PartsReadings(x, parts + [p])) == Rendered(Rendered(before, PartsReadings(x, parts)), PartReadings(x, p))
  {
    assert (parts + [p])[..|parts|] == parts;
    RenderedConcat(before, PartsReadings(x, parts), PartReadings(x, p));
  }

  lemma ChassisIsReadings(before: Writes, x: Snapshot)
    ensures RenderedChassis(before, x.device, x.chassis) == Rendered(before, PartReadings(x, ChassisPart))
  {
    if x.chassis.Some? {
      var fans, psus := x.chassis.value.fans, x.chassis.value.psus;
      FansAreReadings(before, x.device, fans);
      PsusAreReadings(RenderedFans(before, x.device, fans), x.device, psus);
      RenderedConcat(before, FansReadings(x.device, fans), PsusReadings(x.device, psus));
    }
  }

  lemma HaIsReadings(before: Writes, x: Snapshot)
    ensures RenderedHa(before, x.device, x.ha) == Rendered(before, PartReadings(x, HaPart))
  {
    if x.ha.Some? {
      var t, active := HaOf(x.device), ClassifyHaNodeStatus(x.ha.value.nodeStatus);
      StatesAreReadings(before, t, active, StatesOf(t));
      RenderedConcat(before, StateReadings(t, active, StatesOf(t)), HaInfoReadings(x.device, x.ha.value));
    }
  }

  lemma FourMoreParts(before: Writes, x: Snapshot, parts: seq<Part>, p: Part, q: Part, r: Part, s: Part)
    ensures Rendered(before, PartsReadings(x, parts + [p] + [q] + [r] + [s]))
            == Rendered(Rendered(Rendered(Rendered(Rendered(before, PartsReadings(x, parts)),
                 PartReadings(x, p)), PartReadings(x, q)), PartReadings(x, r)), PartReadings(x, s))
  {
    OneMorePart(before, x, parts, p);
    OneMorePart(before, x, parts + [p], q);
    OneMorePart(before, x, parts + [p] + [q], r);
    OneMorePart(before, x, parts + [p] + [q] + [r], s);
  }

  lemma HeadIsReadings(before: Writes, x: Snapshot)
    ensures RenderedHead(before, x) == Rendered(before, PartsReadings(x, PARTS[..5]))
  {
    var four := [] + [CpuPart] + [MemoryPart] + [DiskPart] + [InterfacePart];
    assert PARTS[..5] == four + [ChassisPart];
    FourMoreParts(before, x, [], CpuPart, MemoryPart, DiskPart, InterfacePart);
    OneMorePart(before, x, four, ChassisPart);
    var disk := Rendered(Rendered(Rendered(before, PartReadings(x, CpuPart)), PartReadings(x, MemoryPart)), PartReadings(x, DiskPart));
    InterfacesAreReadings(disk, x.device, x.interfaces);
    ChassisIsReadings(RenderedInterfaces(disk, x.device, x.interfaces), x);
  }

  lemma TunnelsTail(before: Writes, x: Snapshot)
    ensures Rendered(RenderedTunnels(before, x.device, x.tunnels), WindowReadings(x))
            == Rendered(Rendered(before, PartReadings(x, TunnelPart)), PartReadings(x, WindowPart))
  {
    TunnelsAreReadings(before, x.device, x.tunnels);
  }

  lemma TailIsReadings(before: Writes, x: Snapshot)
    ensures Rendered(RenderedTunnels(Rendered(RenderedHa(before, x.device, x.ha), RaVpnReadings(x.device, x.raVpn)),
                                     x.device, x.tunnels), WindowReadings(x))
            == Rendered(Rendered(Rendered(Rendered(before, PartReadings(x, HaPart)), PartReadings(x, VpnPart)),
                                 PartReadings(x, TunnelPart)), PartReadings(x, WindowPart))
  {
    HaIsReadings(before, x);
    var vpn := PartReadings(x, VpnPart);
    assert vpn == RaVpnReadings(x.device, x.raVpn);
    TunnelsTail(Rendered(Rendered(before, PartReadings(x, HaPart)), vpn), x);
  }

  lemma PartsAreHeadAndTail(head: seq<Part>)
    requires head == PARTS[..5]
    ensures PARTS == head + [HaPart] + [VpnPart] + [TunnelPart] + [WindowPart]
  {
  }

  lemma SnapshotIsReadings(before: Writes, x: Snapshot)
    ensures RenderedSnapshot(before, x) == Rendered(before, SnapshotReadings(x))
  {
    HeadIsReadings(before, x);
    TailIsReadings(RenderedHead(before, x), x);
    var head := PARTS[..5];
    FourMoreParts(before, x, head, HaPart, VpnPart, TunnelPart, WindowPart);
    PartsAreHeadAndTail(head);
  }

  lemma {:induction false} AllAreReadings(snapshots: seq<Snapshot>)
    ensures RenderedAll(snapshots) == Rendered([], AllReadings(snapshots))
  {
    if snapshots != [] {
      var init, last := snapshots[..|snapshots| - 1], snapshots[|snapshots| - 1];
      AllAreReadings(init);
      SnapshotIsReadings(RenderedAll(init), last);
      RenderedConcat([], AllReadings(init), SnapshotReadings(last));
    }
  }

  // -------------------------------------------------------------- last reading

  /** The last reading of a series that has a value. */
  function LastPresent(readings: Readings, s: Series<Gauge>): Option<real>
  {
    if readings == [] then None
    else
      var last := readings[|readings| - 1];
      if last.value.Some? && Series(last.gauge, last.labels) == s then last.value
      else LastPresent(readings[..|readings| - 1], s)
  }

  lemma {:induction false} LastPresentIsWritten(readings: Readings, s: Series<Gauge>)
    ensures LastWrite(Rendered([], readings), s) == LastPresent(readings, s)
  {
    if readings != [] {
      var init, last := readings[..|readings| - 1], readings[|readings| - 1];
      LastPresentIsWritten(init, s);
      LastOfReadings([], init, last, s);
      assert readings == init + [last];
    }
  }

  lemma {:induction false} LastPresentOfConcat(a: Readings, b: Readings, s: Series<Gauge>)
    ensures LastPresent(a + b, s) == if LastPresent(b, s).Some? then LastPresent(b, s) else LastPresent(a, s)
  {
    if b == [] {
      assert a + b == a;
    } else {
      assert (a + b)[..|a + b| - 1] == a + b[..|b| - 1];
      LastPresentOfConcat(a, b[..|b| - 1], s);
    }
  }

  // ------------------------------------------------------------- parts and gauges

  ghost predicate OnlyPart(readings: Readings, p: Part) { forall r :: r in readings ==> PartOf(r.gauge) == p }

  lemma {:induction false} StatesOfOnePart(t: Subject, active: State, states: seq<State>)
    ensures OnlyPart(StateReadings(t, active, states), if t.HaOf? then HaPart else TunnelPart)
  {
    if states != [] {
      StatesOfOnePart(t, active, states[..|states| - 1]);
    }
  }

  lemma OnePartConcat(a: Readings, b: Readings, p: Part)
    requires OnlyPart(a, p) && OnlyPart(b, p)
    ensures OnlyPart(a + b, p)
  {
  }

  lemma InterfaceOfOnePart(d: Device, i: Interface)
    ensures OnlyPart(InterfaceReadings(d, i), InterfacePart)
  {
    var readings := InterfaceReadings(d, i);
    assert forall k :: 0 <= k < |readings| ==> PartOf(readings[k].gauge) == InterfacePart;
  }

  lemma {:induction false} InterfacesOfOnePart(d: Device, interfaces: seq<Interface>)
    ensures OnlyPart(InterfacesReadings(d, interfaces), InterfacePart)
  {
    if interfaces != [] {
      var init, last := interfaces[..|interfaces| - 1], interfaces[|interfaces| - 1];
      InterfacesOfOnePart(d, init);
      InterfaceOfOnePart(d, last);
      OnePartConcat(InterfacesReadings(d, init), InterfaceReadings(d, last), InterfacePart);
    }
  }

  lemma {:induction false} FansOfOnePart(d: Device, fans: seq<Fan>)
    ensures OnlyPart(FansReadings(d, fans), ChassisPart)
  {
    if fans != [] {
      FansOfOnePart(d, fans[..|fans| - 1]);
      OnePartConcat(FansReadings(d, fans[..|fans| - 1]), FanReadings(d, fans[|fans| - 1]), ChassisPart);
    }
  }

  lemma {:induction false} PsusOfOnePart(d: Device, psus: seq<Psu>)
    ensures OnlyPart(PsusReadings(d, psus), ChassisPart)
  {
    if psus != [] {
      PsusOfOnePart(d, psus[..|psus| - 1]);
      OnePartConcat(PsusReadings(d, psus[..|psus| - 1]), PsuReadings(d, psus[|psus| - 1]), ChassisPart);
    }
  }

  lemma {:induction false} TunnelsOfOnePart(d: Device, tunnels: seq<Tunnel>)
    ensures OnlyPart(TunnelsReadings(d, tunnels), TunnelPart)
  {
    if tunnels != [] {
      var last := tunnels[|tunnels| - 1];
      TunnelsOfOnePart(d, tunnels[..|tunnels| - 1]);
      var t := TunnelOf(d, last.id, last.name);
      StatesOfOnePart(t, ClassifyTunnelState(last.state), StatesOf(t));
    }
  }

  lemma ChassisOfOnePart(x: Snapshot)
    ensures OnlyPart(PartReadings(x, ChassisPart), ChassisPart)
  {
    if x.chassis.Some? {
      var fans, psus := x.chassis.value.fans, x.chassis.value.psus;
      FansOfOnePart(x.device, fans);
      PsusOfOnePart(x.device, psus);
      OnePartConcat(FansReadings(x.device, fans), PsusReadings(x.device, psus), ChassisPart);
    }
  }

  lemma HaOfOnePart(x: Snapshot)
    ensures OnlyPart(PartReadings(x, HaPart), HaPart)
  {
    if x.ha.Some? {
      var t, active := HaOf(x.device), ClassifyHaNodeStatus(x.ha.value.nodeStatus);
      StatesOfOnePart(t, active, StatesOf(t));
      OnePartConcat(StateReadings(t, active, StatesOf(t)), HaInfoReadings(x.device, x.ha.value), HaPart);
    }
  }

  lemma UsageOfOnePart(gauge: Gauge, d: Device, usage: Option<Usage>)
    ensures OnlyPart(UsageReadings(gauge, d, usage), PartOf(gauge))
  {
    var readings := UsageReadings(gauge, d, usage);
    assert forall k :: 0 <= k < |readings| ==> readings[k].gauge == gauge;
  }

  lemma VpnOfOnePart(d: Device, vpn: Option<RaVpn>)
    ensures OnlyPart(RaVpnReadings(d, vpn), VpnPart)
  {
    var readings := RaVpnReadings(d, vpn);
    assert forall k :: 0 <= k < |readings| ==> PartOf(readings[k].gauge) == VpnPart;
  }

  lemma PartsKeepToTheirGauges(x: Snapshot, p: Part)
    ensures OnlyPart(PartReadings(x, p), p)
  {
    match p {
      case CpuPart => UsageOfOnePart(CpuUsageRatio, x.device, x.cpu);
      case MemoryPart => UsageOfOnePart(MemoryUsageRatio, x.device, x.memory);
      case InterfacePart => InterfacesOfOnePart(x.device, x.interfaces);
      case ChassisPart => ChassisOfOnePart(x);
      case HaPart => HaOfOnePart(x);
      case VpnPart => VpnOfOnePart(x.device, x.raVpn);
      case TunnelPart => TunnelsOfOnePart(x.device, x.tunnels);
      case DiskPart => assert OnlyPart(DiskReadings(x), DiskPart);
      case WindowPart => assert OnlyPart(WindowReadings(x), WindowPart);
    }
  }

  lemma {:induction false} NothingElsewhere(readings: Readings, p: Part, s: Series<Gauge>)
    requires OnlyPart(readings, p) && PartOf(s.gauge) != p
    ensures LastPresent(readings, s) == None
  {
    if readings != [] {
      assert readings[|readings| - 1] in readings;
      NothingElsewhere(readings[..|readings| - 1], p, s);
    }
  }

  /** Of a snapshot's parts only the gauge's own matters. */
  lemma {:induction false} OnlyItsPartMatters(x: Snapshot, parts: seq<Part>, s: Series<Gauge>)
    requires forall i, j :: 0 <= i < j < |parts| ==> parts[i] != parts[j]
    ensures LastPresent(PartsReadings(x, parts), s)
            == if PartOf(s.gauge) in parts then LastPresent(PartReadings(x, PartOf(s.gauge)), s) else None
  {
    if parts != [] {
      var init, last := parts[..|parts| - 1], parts[|parts| - 1];
      OnlyItsPartMatters(x, init, s);
      LastPresentOfConcat(PartsReadings(x, init), PartReadings(x, last), s);
      PartsKeepToTheirGauges(x, last);
      if PartOf(s.gauge) != last {
        NothingElsewhere(PartReadings(x, last), last, s);
      }
      assert PartOf(s.gauge) in parts <==> PartOf(s.gauge) in init || PartOf(s.gauge) == last;
    }
  }

  lemma PartsAreDistinct(p: Part)
    ensures p in PARTS && forall i, j :: 0 <= i < j < |PARTS| ==> PARTS[i] != PARTS[j]
  {
    assert PARTS[0] == CpuPart && PARTS[1] == MemoryPart && PARTS[2] == DiskPart && PARTS[3] == InterfacePart;
    assert PARTS[4] == ChassisPart && PARTS[5] == HaPart && PARTS[6] == VpnPart && PARTS[7] == TunnelPart && PARTS[8] == WindowPart;
  }

  // ----------------------------------------------------------------- theorems

  /** What one snapshot says of a series: the last present reading in the part its gauge belongs to. */
  function SaidOf(x: Snapshot, s: Series<Gauge>): Option<real> { LastPresent(PartReadings(x, PartOf(s.gauge)), s) }

  /** The last thing the snapshots say of it. */
  function LastSaid(snapshots: seq<Snapshot>, s: Series<Gauge>): Option<real>
  {
    if snapshots == [] then None
    else
      var said := SaidOf(snapshots[|snapshots| - 1], s);
      if said.Some? then said else LastSaid(snapshots[..|snapshots| - 1], s)
  }

  lemma {:induction false} LastSaidIsPresent(snapshots: seq<Snapshot>, s: Series<Gauge>)
    ensures LastPresent(AllReadings(snapshots), s) == LastSaid(snapshots, s)
  {
    if snapshots != [] {
      var init, last := snapshots[..|snapshots| - 1], snapshots[|snapshots| - 1];
      LastSaidIsPresent(init, s);
      LastPresentOfConcat(AllReadings(init), SnapshotReadings(last), s);
      PartsAreDistinct(PartOf(s.gauge));
      OnlyItsPartMatters(last, PARTS, s);
    }
  }

  /** Every gauge shows exactly the series the snapshots have a value for, each with the last such value. */
  lemma EveryValueIsTheLastSaid(snapshots: seq<Snapshot>, s: Series<Gauge>)
    ensures var store := Stored(RenderedAll(snapshots));
            && (s in store <==> LastSaid(snapshots, s).Some?)
            && (s in store ==> store[s] == LastSaid(snapshots, s).value)
  {
    StoredIsLastWrite(RenderedAll(snapshots), s);
    AllAreReadings(snapshots);
    LastPresentIsWritten(AllReadings(snapshots), s);
    LastSaidIsPresent(snapshots, s);
  }

  lemma {:induction false} PresentIsAReading(readings: Readings, s: Series<Gauge>) returns (r: Reading<Gauge>)
    requires LastPresent(readings, s).Some?
    ensures r in readings && Series(r.gauge, r.labels) == s && r.value.Some?
  {
    r := readings[|readings| - 1];
    if Series(r.gauge, r.labels) != s || r.value.None? {
      r := PresentIsAReading(readings[..|readings| - 1], s);
    }
  }

  lemma {:induction false} SaidBySome(snapshots: seq<Snapshot>, s: Series<Gauge>) returns (x: Snapshot)
    requires LastSaid(snapshots, s).Some?
    ensures x in snapshots && SaidOf(x, s).Some?
  {
    x := snapshots[|snapshots| - 1];
    if SaidOf(x, s).None? {
      x := SaidBySome(snapshots[..|snapshots| - 1], s);
    }
  }

  /** Every series is a reading of some snapshot's own part. */
  lemma EverySeriesIsSaid(snapshots: seq<Snapshot>, s: Series<Gauge>) returns (x: Snapshot, r: Reading<Gauge>)
    requires s in Stored(RenderedAll(snapshots))
    ensures x in snapshots && r in PartReadings(x, PartOf(s.gauge)) && Series(r.gauge, r.labels) == s
  {
    EveryValueIsTheLastSaid(snapshots, s);
    x := SaidBySome(snapshots, s);
    r := PresentIsAReading(PartReadings(x, PartOf(s.gauge)), s);
  }
}
