/**
 * Which topics a snapshot has series about, and, for every topic a gauge can
 * have, a snapshot that has a series about it.
 */
module SnapshotTopics {
  import opened Prelude
  import opened SeriesKeys
  import opened GaugeStore
  import opened Collector
  import opened CollectorReadings
  import opened Topics

  function InterfaceTopicOf(d: Device, i: Interface): Topic
  {
    InterfaceTopic(d, i.id, if NonEmpty(i.name).Some? then NonEmpty(i.name).value else i.id, NonEmpty(i.kind))
  }

  function DuplexTopicOf(d: Device, i: Interface): Topic
    requires NonEmpty(i.duplexMode).Some?
  {
    var t := InterfaceTopicOf(d, i);
    DuplexTopic(d, NonEmpty(i.duplexMode).value, t.id, t.name, t.kind)
  }

  ghost predicate TellsTag(x: Snapshot, g: Gauge, tag: string)
  {
    if g.HaNodeStatus? || g.HaNodeInfo? then tag in Tags(g)
    else x.chassis.Some? && if g.ChassisFanRpm? then exists f :: f in x.chassis.value.fans && f.fan == tag
                            else exists p :: p in x.chassis.value.psus && p.psu == tag
  }

  /** The topic is one that this gauge can have of something in the snapshot. */
  ghost predicate Tells(x: Snapshot, g: Gauge, t: Topic)
  {
    && HasForm(g, t) && t.device == x.device
    && match t
       case DeviceTopic(_) => true
       case ComponentTopic(_, component) => component in COMPONENTS
       case TagTopic(_, tag) => TellsTag(x, g, tag)
       case InterfaceTopic(_, _, _, _) => exists i :: i in x.interfaces && t == InterfaceTopicOf(x.device, i)
       case DuplexTopic(_, _, _, _, _) =>
         exists i :: i in x.interfaces && NonEmpty(i.duplexMode).Some? && t == DuplexTopicOf(x.device, i)
       case TunnelTopic(_, state, id, name) =>
         state in TUNNEL_STATES && exists u :: u in x.tunnels && u.id == id && u.name == name
  }

  ghost predicate Told(x: Snapshot, r: Reading<Gauge>)
  {
    r.value.Some? ==> exists t :: Tells(x, r.gauge, t) && r.labels == LabelsFor(r.gauge, t)
  }

  ghost predicate AllTold(x: Snapshot, readings: Readings) { forall r :: r in readings ==> Told(x, r) }

  // ------------------------------------------------- every reading has a topic

  lemma ReadingIsTold(x: Snapshot, r: Reading<Gauge>, t: Topic)
    requires Tells(x, r.gauge, t) && r.labels == LabelsFor(r.gauge, t)
    ensures Told(x, r)
  {
  }

  lemma DeviceIsTold(x: Snapshot)
    ensures AllTold(x, DiskReadings(x)) && AllTold(x, WindowReadings(x)) && AllTold(x, RaVpnReadings(x.device, x.raVpn))
  {
    forall r | r in DiskReadings(x) || r in WindowReadings(x) || r in RaVpnReadings(x.device, x.raVpn) ensures Told(x, r) {
      ReadingIsTold(x, r, DeviceTopic(x.device));
    }
  }

  lemma UsageIsTold(x: Snapshot, gauge: Gauge, usage: Option<Usage>)
    requires gauge.CpuUsageRatio? || gauge.MemoryUsageRatio?
    ensures AllTold(x, UsageReadings(gauge, x.device, usage))
  {
    forall r | r in UsageReadings(gauge, x.device, usage) ensures Told(x, r) {
      var component :| component in COMPONENTS && r.labels == ComponentLabels(component, x.device);
      ReadingIsTold(x, r, ComponentTopic(x.device, component));
    }
  }

  lemma InterfaceLabelsAreNamed(d: Device, i: Interface)
    ensures var t := InterfaceTopicOf(d, i); InterfaceLabels(i) == NamedInterface(t.id, t.name, t.kind)
  {
  }

  lemma BaseReading(d: Device, i: Interface, k: nat)
    requires k < 12
    ensures var r := InterfaceReadings(d, i)[k];
            r.labels == DeviceLabels(d) + InterfaceLabels(i) && HasForm(r.gauge, InterfaceTopicOf(d, i))
  {
  }

  lemma BaseReadingIsTold(x: Snapshot, i: Interface, k: nat)
    requires i in x.interfaces && k < 12
    ensures Told(x, InterfaceReadings(x.device, i)[k])
  {
    BaseReading(x.device, i, k);
    InterfaceLabelsAreNamed(x.device, i);
    var t := InterfaceTopicOf(x.device, i);
    assert Tells(x, InterfaceReadings(x.device, i)[k].gauge, t);
  }

  lemma DuplexReadingIsTold(x: Snapshot, i: Interface)
    requires i in x.interfaces
    ensures Told(x, InterfaceReadings(x.device, i)[12])
  {
    if NonEmpty(i.duplexMode).Some? {
      InterfaceLabelsAreNamed(x.device, i);
      assert Tells(x, InterfaceDuplexInfo, DuplexTopicOf(x.device, i));
    }
  }

  lemma InterfaceIsTold(x: Snapshot, i: Interface)
    requires i in x.interfaces
    ensures AllTold(x, InterfaceReadings(x.device, i))
  {
    var readings := InterfaceReadings(x.device, i);
    forall k | 0 <= k < |readings| ensures Told(x, readings[k]) {
      if k < 12 {
        BaseReadingIsTold(x, i, k);
      } else {
        DuplexReadingIsTold(x, i);
      }
    }
  }

  lemma {:induction false} InterfacesAreTold(x: Snapshot, n: nat)
    requires n <= |x.interfaces|
    ensures AllTold(x, InterfacesReadings(x.device, x.interfaces[..n]))
  {
    if n > 0 {
      InterfacesAreTold(x, n - 1);
      InterfaceIsTold(x, x.interfaces[n - 1]);
      assert x.interfaces[..n][..n - 1] == x.interfaces[..n - 1];
    }
  }

  lemma {:induction false} FansAreTold(x: Snapshot, n: nat)
    requires x.chassis.Some? && n <= |x.chassis.value.fans|
    ensures AllTold(x, FansReadings(x.device, x.chassis.value.fans[..n]))
  {
    if n > 0 {
      var fans := x.chassis.value.fans;
      FansAreTold(x, n - 1);
      assert fans[n - 1] in fans && fans[..n][..n - 1] == fans[..n - 1];
      ReadingIsTold(x, FanReadings(x.device, fans[n - 1])[0], TagTopic(x.device, fans[n - 1].fan));
    }
  }

  lemma {:induction false} PsusAreTold(x: Snapshot, n: nat)
    requires x.chassis.Some? && n <= |x.chassis.value.psus|
    ensures AllTold(x, PsusReadings(x.device, x.chassis.value.psus[..n]))
  {
    if n > 0 {
      var psus := x.chassis.value.psus;
      PsusAreTold(x, n - 1);
      assert psus[n - 1] in psus && psus[..n][..n - 1] == psus[..n - 1];
      forall r | r in PsuReadings(x.device, psus[n - 1]) ensures Told(x, r) {
        ReadingIsTold(x, r, TagTopic(x.device, psus[n - 1].psu));
      }
    }
  }

  /** A state set of the HA node or of one of the tunnels. */
  function StateTopic(t: Subject, s: State): Topic
  {
    match t
    case HaOf(d) => TagTopic(d, StateLabel(s))
    case TunnelOf(d, id, name) => TunnelTopic(d, StateLabel(s), id, name)
  }

  lemma StateSeriesHasItsTopic(t: Subject, s: State)
    requires s in StatesOf(t)
    ensures StateSeries(t, s).labels == LabelsFor(StateSeries(t, s).gauge, StateTopic(t, s))
    ensures t.HaOf? ==> StateLabel(s) in Tags(HaNodeStatus)
    ensures t.TunnelOf? ==> StateLabel(s) in TUNNEL_STATES
  {
  }

  ghost predicate Within(x: Snapshot, t: Subject)
  {
    && t.device == x.device
    && (t.TunnelOf? ==> exists u :: u in x.tunnels && u.id == t.id && u.name == t.name)
  }

  lemma {:induction false} StatesAreTold(x: Snapshot, t: Subject, active: State, states: seq<State>)
    requires Within(x, t) && forall s :: s in states ==> s in StatesOf(t)
    ensures AllTold(x, StateReadings(t, active, states))
  {
    if states != [] {
      var last := states[|states| - 1];
      StatesAreTold(x, t, active, states[..|states| - 1]);
      StateSeriesHasItsTopic(t, last);
      var series := StateSeries(t, last);
      ReadingIsTold(x, Reading(series.gauge, series.labels, Some(Bit(last == active))), StateTopic(t, last));
    }
  }

  lemma HaIsTold(x: Snapshot)
    ensures AllTold(x, PartReadings(x, HaPart))
  {
    if x.ha.Some? {
      var t := HaOf(x.device);
      StatesAreTold(x, t, ClassifyHaNodeStatus(x.ha.value.nodeStatus), StatesOf(t));
      forall r | r in HaInfoReadings(x.device, x.ha.value) ensures Told(x, r) {
        ReadingIsTold(x, r, TagTopic(x.device, NodeTypeLabel(x.ha.value.nodeType)));
      }
    }
  }

  lemma {:induction false} TunnelsAreTold(x: Snapshot, n: nat)
    requires n <= |x.tunnels|
    ensures AllTold(x, TunnelsReadings(x.device, x.tunnels[..n]))
  {
    if n > 0 {
      var tunnel := x.tunnels[n - 1];
      var t := TunnelOf(x.device, tunnel.id, tunnel.name);
      TunnelsAreTold(x, n - 1);
      StatesAreTold(x, t, ClassifyTunnelState(tunnel.state), StatesOf(t));
      assert x.tunnels[..n][..n - 1] == x.tunnels[..n - 1];
    }
  }

  lemma EveryPartIsTold(x: Snapshot, p: Part)
    ensures AllTold(x, PartReadings(x, p))
  {
    match p {
      case CpuPart => UsageIsTold(x, CpuUsageRatio, x.cpu);
      case MemoryPart => UsageIsTold(x, MemoryUsageRatio, x.memory);
      case InterfacePart =>
        InterfacesAreTold(x, |x.interfaces|);
        assert x.interfaces[..|x.interfaces|] == x.interfaces;
      case ChassisPart =>
        if x.chassis.Some? {
          var fans, psus := x.chassis.value.fans, x.chassis.value.psus;
          FansAreTold(x, |fans|);
          PsusAreTold(x, |psus|);
          assert fans[..|fans|] == fans && psus[..|psus|] == psus;
        }
      case HaPart => HaIsTold(x);
      case TunnelPart =>
        TunnelsAreTold(x, |x.tunnels|);
        assert x.tunnels[..|x.tunnels|] == x.tunnels;
      case _ => DeviceIsTold(x);
    }
  }

  ghost predicate Says(x: Snapshot, s: Series<Gauge>) { SaidOf(x, s).Some? }

  /** Every series of a snapshot is about one of its topics. */
  lemma SeriesHasATopic(x: Snapshot, s: Series<Gauge>) returns (t: Topic)
    requires Says(x, s)
    ensures Tells(x, s.gauge, t) && s.labels == LabelsFor(s.gauge, t)
  {
    var r := PresentIsAReading(PartReadings(x, PartOf(s.gauge)), s);
    EveryPartIsTold(x, PartOf(s.gauge));
    assert Told(x, r);
    t :| Tells(x, s.gauge, t) && s.labels == LabelsFor(s.gauge, t);
  }

  // ------------------------------------------------------- what the mappers make

  /** Ids and names are there, and fans and power supplies are numbered, in every snapshot the mappers make. */
  ghost predicate Mapped(x: Snapshot)
  {
    && x.device.uid != "" && x.device.name != ""
    && (forall i :: i in x.interfaces ==> i.id != "")
    && (x.chassis.Some? ==>
          && (forall f :: f in x.chassis.value.fans ==> f.fan in Tags(ChassisFanRpm))
          && (forall p :: p in x.chassis.value.psus ==> p.psu in Tags(ChassisPsuFanUp)))
    && (forall t :: t in x.tunnels ==> t.id != "" && t.name != "")
  }

  lemma ToldTopicsFit(x: Snapshot, g: Gauge, t: Topic)
    requires Mapped(x) && Tells(x, g, t)
    ensures Fits(g, t)
  {
  }

  // --------------------------------------------------------- a snapshot for a topic

  const NUMBERED_FANS: seq<Fan> := [Fan("1", 0.0), Fan("2", 0.0), Fan("3", 0.0), Fan("4", 0.0)]
  const NUMBERED_PSUS: seq<Psu> := [Psu("1", Some("UP"), Some("UP"), Some("UP")), Psu("2", Some("UP"), Some("UP"), Some("UP"))]

  function BusyInterface(id: string, name: string, kind: Option<string>, duplex: string): Interface
  {
    Interface(id, Some(name), kind, Some(0.0), Some(0.0), Some(0.0), Some(0.0), Some(0.0), Some(0.0), Some(0.0),
              Some(0.0), Some(0.0), Some(0.0), Some("UP"), Some("UP"), Some(duplex))
  }

  /** Everything about a device, and the interfaces and tunnels given. */
  function Full(d: Device, nodeType: string, interfaces: seq<Interface>, tunnels: seq<Tunnel>): Snapshot
  {
    var usage := Some(Usage(Some(0.0), Some(0.0), Some(0.0)));
    Snapshot(d, usage, usage, Some(0.0), interfaces, Some(Chassis(NUMBERED_FANS, NUMBERED_PSUS)), Some(Ha("NORMAL", nodeType)),
             Some(RaVpn(Some(0.0), Some(0.0), Some(0.0))), tunnels, Some(0.0), Some(0.0))
  }

  function NodeTypeFor(tag: string): string
  {
    if tag == "primary" then "PRIMARY" else if tag == "secondary" then "SECONDARY" else ""
  }

  function SnapshotFor(t: Topic): Snapshot
  {
    match t
    case TagTopic(d, tag) => Full(d, NodeTypeFor(tag), [], [])
    case InterfaceTopic(d, id, name, kind) => Full(d, "", [BusyInterface(id, name, kind, "FULL")], [])
    case DuplexTopic(d, duplex, id, name, kind) => Full(d, "", [BusyInterface(id, name, kind, duplex)], [])
    case TunnelTopic(d, _, id, name) => Full(d, "", [], [Tunnel(id, name, "")])
    case _ => Full(t.device, "", [], [])
  }

  lemma {:induction false} PresentReadingIsLast(readings: Readings, r: Reading<Gauge>)
    requires r in readings && r.value.Some?
    ensures LastPresent(readings, Series(r.gauge, r.labels)).Some?
  {
    if r != readings[|readings| - 1] {
      assert r in readings[..|readings| - 1];
      PresentReadingIsLast(readings[..|readings| - 1], r);
    }
  }

  lemma PresentReadingIsSaid(x: Snapshot, r: Reading<Gauge>)
    requires r in PartReadings(x, PartOf(r.gauge)) && r.value.Some?
    ensures Says(x, Series(r.gauge, r.labels))
  {
    PresentReadingIsLast(PartReadings(x, PartOf(r.gauge)), r);
  }

  lemma {:induction false} StateIsRead(t: Subject, active: State, states: seq<State>, s: State) returns (r: Reading<Gauge>)
    requires s in states
    ensures r in StateReadings(t, active, states) && r.value.Some? && Series(r.gauge, r.labels) == StateSeries(t, s)
  {
    var last := states[|states| - 1];
    if s == last {
      r := Reading(StateSeries(t, last).gauge, StateSeries(t, last).labels, Some(Bit(last == active)));
    } else {
      r := StateIsRead(t, active, states[..|states| - 1], s);
    }
  }

  lemma {:induction false} FanIsRead(d: Device, fans: seq<Fan>, f: Fan)
    requires f in fans
    ensures FanReadings(d, f)[0] in FansReadings(d, fans)
  {
    if f != fans[|fans| - 1] {
      FanIsRead(d, fans[..|fans| - 1], f);
    }
  }

  lemma {:induction false} PsuIsRead(d: Device, psus: seq<Psu>, p: Psu, k: nat)
    requires p in psus && k < 3
    ensures PsuReadings(d, p)[k] in PsusReadings(d, psus)
  {
    if p != psus[|psus| - 1] {
      PsuIsRead(d, psus[..|psus| - 1], p, k);
    }
  }

  lemma DeviceIsSaid(g: Gauge, t: Topic, nodeType: string)
    requires HasForm(g, t) && t.DeviceTopic?
    ensures Says(Full(t.device, nodeType, [], []), Series(g, LabelsFor(g, t)))
  {
    var x, r := Full(t.device, nodeType, [], []), Reading(g, DeviceLabels(t.device), Some(0.0));
    assert 0.0 / 100.0 == 0.0 && 0.0 / 1000.0 == 0.0;
    assert r in PartReadings(x, PartOf(g));
    PresentReadingIsSaid(x, r);
  }

  lemma ComponentIsSaid(g: Gauge, t: Topic, nodeType: string)
    requires Fits(g, t) && t.ComponentTopic?
    ensures Says(Full(t.device, nodeType, [], []), Series(g, LabelsFor(g, t)))
  {
    var x, r := Full(t.device, nodeType, [], []), Reading(g, ComponentLabels(t.component, t.device), Some(0.0 / 100.0));
    assert r in PartReadings(x, PartOf(g));
    PresentReadingIsSaid(x, r);
  }

  function StateNamed(word: string): State
  {
    if word == "normal" then Normal else if word == "error" then Error else if word == "warning" then Warning
    else if word == "disabled" then Disabled else if word == "up" then Up else if word == "down" then Down else Unknown
  }

  lemma StateNamedIsAState(t: Subject, word: string)
    requires word in if t.HaOf? then Tags(HaNodeStatus) else TUNNEL_STATES
    ensures StateNamed(word) in StatesOf(t) && StateLabel(StateNamed(word)) == word
  {
  }

  lemma StatusIsSaid(x: Snapshot, tag: string)
    requires tag in Tags(HaNodeStatus) && x.ha.Some?
    ensures Says(x, Series(HaNodeStatus, LabelsFor(HaNodeStatus, TagTopic(x.device, tag))))
  {
    var t, s, active := HaOf(x.device), StateNamed(tag), ClassifyHaNodeStatus(x.ha.value.nodeStatus);
    StateNamedIsAState(t, tag);
    var states := StatesOf(t);
    var r := StateIsRead(t, active, states, s);
    StateSeriesHasItsTopic(t, s);
    assert r in PartReadings(x, HaPart);
    PresentReadingIsSaid(x, r);
  }

  lemma NodeTypeIsSaid(d: Device, tag: string)
    requires tag in Tags(HaNodeInfo)
    ensures Says(Full(d, NodeTypeFor(tag), [], []), Series(HaNodeInfo, LabelsFor(HaNodeInfo, TagTopic(d, tag))))
  {
    var x := Full(d, NodeTypeFor(tag), [], []);
    assert NodeTypeLabel(NodeTypeFor(tag)) == tag;
    PresentReadingIsSaid(x, HaInfoReadings(d, x.ha.value)[0]);
  }

  lemma FanIsSaid(x: Snapshot, f: Fan)
    requires x.chassis.Some? && f in x.chassis.value.fans
    ensures Says(x, Series(ChassisFanRpm, LabelsFor(ChassisFanRpm, TagTopic(x.device, f.fan))))
  {
    FanIsRead(x.device, x.chassis.value.fans, f);
    PresentReadingIsSaid(x, FanReadings(x.device, f)[0]);
  }

  lemma PsuIsSaid(x: Snapshot, p: Psu, k: nat)
    requires x.chassis.Some? && p in x.chassis.value.psus && k < 3 && PsuReadings(x.device, p)[k].value.Some?
    ensures Says(x, Series(PsuReadings(x.device, p)[k].gauge, DeviceLabels(x.device) + [Label(PSU, p.psu)]))
  {
    PsuIsRead(x.device, x.chassis.value.psus, p, k);
    PresentReadingIsSaid(x, PsuReadings(x.device, p)[k]);
  }

  lemma TagIsSaid(g: Gauge, d: Device, tag: string)
    requires Fits(g, TagTopic(d, tag))
    ensures Says(Full(d, NodeTypeFor(tag), [], []), Series(g, LabelsFor(g, TagTopic(d, tag))))
  {
    var x := Full(d, NodeTypeFor(tag), [], []);
    if g.HaNodeStatus? {
      StatusIsSaid(x, tag);
    } else if g.HaNodeInfo? {
      NodeTypeIsSaid(d, tag);
    } else if g.ChassisFanRpm? {
      NumberedFan(tag);
      FanIsSaid(x, Fan(tag, 0.0));
    } else {
      NumberedPsu(tag);
      var k := if g.ChassisPsuFanUp? then 0 else if g.ChassisPsuInputUp? then 1 else 2;
      PsuIsSaid(x, Psu(tag, Some("UP"), Some("UP"), Some("UP")), k);
    }
  }

  lemma NumberedFan(tag: string)
    requires tag in Tags(ChassisFanRpm)
    ensures Fan(tag, 0.0) in NUMBERED_FANS
  {
  }

  lemma NumberedPsu(tag: string)
    requires tag in Tags(ChassisPsuFanUp)
    ensures Psu(tag, Some("UP"), Some("UP"), Some("UP")) in NUMBERED_PSUS
  {
  }

  lemma {:induction false} InterfaceIsRead(d: Device, interfaces: seq<Interface>, i: Interface, k: nat)
    requires i in interfaces && k < 13
    ensures InterfaceReadings(d, i)[k] in InterfacesReadings(d, interfaces)
  {
    if i != interfaces[|interfaces| - 1] {
      InterfaceIsRead(d, interfaces[..|interfaces| - 1], i, k);
    }
  }

  lemma InterfaceIsSaid(x: Snapshot, i: Interface, k: nat)
    requires i in x.interfaces && k < 13 && InterfaceReadings(x.device, i)[k].value.Some?
    ensures var r := InterfaceReadings(x.device, i)[k]; Says(x, Series(r.gauge, r.labels))
  {
    InterfaceIsRead(x.device, x.interfaces, i, k);
    InterfaceOfOnePart(x.device, i);
    PresentReadingIsSaid(x, InterfaceReadings(x.device, i)[k]);
  }

  function IndexOfInterfaceGauge(g: Gauge): nat
  {
    match g
    case InterfaceInputBytesAvg => 0
    case InterfaceOutputBytesAvg => 1
    case InterfaceInputPacketSizeAvgBytes => 2
    case InterfaceOutputPacketSizeAvgBytes => 3
    case InterfaceInputErrorsAvg => 4
    case InterfaceOutputErrorsAvg => 5
    case InterfaceDropPacketsAvg => 6
    case InterfaceBufferOverrunsAvg => 7
    case InterfaceBufferUnderrunsAvg => 8
    case InterfaceL2DecodeDropsAvg => 9
    case InterfaceLinkUp => 10
    case InterfaceOperationalUp => 11
    case _ => 12
  }

  lemma {:induction false} TunnelIsRead(d: Device, tunnels: seq<Tunnel>, tunnel: Tunnel, r: Reading<Gauge>)
    requires tunnel in tunnels && r in TunnelReadings(d, tunnel)
    ensures r in TunnelsReadings(d, tunnels)
  {
    if tunnel != tunnels[|tunnels| - 1] {
      TunnelIsRead(d, tunnels[..|tunnels| - 1], tunnel, r);
    }
  }

  lemma TunnelStateIsRead(d: Device, tunnel: Tunnel, s: State, states: seq<State>) returns (r: Reading<Gauge>)
    requires states == StatesOf(TunnelOf(d, tunnel.id, tunnel.name)) && s in states
    ensures r in TunnelReadings(d, tunnel) && r.value.Some?
    ensures Series(r.gauge, r.labels) == StateSeries(TunnelOf(d, tunnel.id, tunnel.name), s)
  {
    r := StateIsRead(TunnelOf(d, tunnel.id, tunnel.name), ClassifyTunnelState(tunnel.state), states, s);
  }

  lemma TunnelStateIsSaid(x: Snapshot, tunnel: Tunnel, s: State)
    requires tunnel in x.tunnels && s in StatesOf(TunnelOf(x.device, tunnel.id, tunnel.name))
    ensures Says(x, StateSeries(TunnelOf(x.device, tunnel.id, tunnel.name), s))
  {
    var states := StatesOf(TunnelOf(x.device, tunnel.id, tunnel.name));
    var r := TunnelStateIsRead(x.device, tunnel, s, states);
    TunnelIsRead(x.device, x.tunnels, tunnel, r);
    TunnelReadingIsSaid(x, r);
  }

  lemma TunnelReadingIsSaid(x: Snapshot, r: Reading<Gauge>)
    requires r in TunnelsReadings(x.device, x.tunnels) && r.gauge == S2sTunnelState && r.value.Some?
    ensures Says(x, Series(r.gauge, r.labels))
  {
    PresentReadingIsSaid(x, r);
  }

  lemma TunnelIsSaid(d: Device, state: string, id: string, name: string)
    requires state in TUNNEL_STATES
    ensures var g := S2sTunnelState;
            Says(Full(d, "", [], [Tunnel(id, name, "")]), Series(g, LabelsFor(g, TunnelTopic(d, state, id, name))))
  {
    var t, s := TunnelOf(d, id, name), StateNamed(state);
    StateNamedIsAState(t, state);
    StateSeriesHasItsTopic(t, s);
    TunnelStateIsSaid(Full(d, "", [], [Tunnel(id, name, "")]), Tunnel(id, name, ""), s);
  }

  lemma InterfaceGaugesAreRead(g: Gauge, d: Device, i: Interface)
    requires PartOf(g) == InterfacePart
    ensures InterfaceReadings(d, i)[IndexOfInterfaceGauge(g)].gauge == g
  {
  }

  lemma BusyInterfaceIsRead(d: Device, id: string, name: string, kind: Option<string>, duplex: string, k: nat)
    requires k < 13 && duplex != ""
    ensures InterfaceReadings(d, BusyInterface(id, name, kind, duplex))[k].value.Some?
  {
  }

  lemma BusyInterfaceIsSaid(g: Gauge, d: Device, id: string, name: string, kind: Option<string>, duplex: string)
    requires PartOf(g) == InterfacePart && name != "" && kind != Some("") && duplex != ""
    ensures var t := if g.InterfaceDuplexInfo? then DuplexTopic(d, duplex, id, name, kind)
                     else InterfaceTopic(d, id, name, kind);
            Says(Full(d, "", [BusyInterface(id, name, kind, duplex)], []), Series(g, LabelsFor(g, t)))
  {
    var i, k := BusyInterface(id, name, kind, duplex), IndexOfInterfaceGauge(g);
    InterfaceGaugesAreRead(g, d, i);
    BusyInterfaceIsRead(d, id, name, kind, duplex, k);
    assert InterfaceLabels(i) == NamedInterface(id, name, kind);
    if k < 12 {
      BaseReading(d, i, k);
    }
    InterfaceIsSaid(Full(d, "", [i], []), i, k);
  }

  lemma TopicsOfThePart(g: Gauge, t: Topic)
    requires HasForm(g, t)
    ensures PartOf(g) == InterfacePart <==> t.InterfaceTopic? || t.DuplexTopic?
    ensures t.DuplexTopic? <==> g.InterfaceDuplexInfo?
    ensures t.TunnelTopic? <==> g.S2sTunnelState?
  {
  }

  lemma FullIsMapped(d: Device, nodeType: string, interfaces: seq<Interface>, tunnels: seq<Tunnel>)
    requires d.uid != "" && d.name != "" && forall i :: i in interfaces ==> i.id != ""
    requires forall t :: t in tunnels ==> t.id != "" && t.name != ""
    ensures Mapped(Full(d, nodeType, interfaces, tunnels))
  {
    assert forall k :: 0 <= k < 4 ==> NUMBERED_FANS[k].fan in Tags(ChassisFanRpm);
    assert forall k :: 0 <= k < 2 ==> NUMBERED_PSUS[k].psu in Tags(ChassisPsuFanUp);
  }

  lemma SnapshotsForTopicsAreMapped(g: Gauge, t: Topic)
    requires Fits(g, t)
    ensures Mapped(SnapshotFor(t))
  {
    var x := SnapshotFor(t);
    FullIsMapped(t.device, x.ha.value.nodeType, x.interfaces, x.tunnels);
  }

  /** Every topic a gauge can have is that of a series of some snapshot the mappers make. */
  lemma EveryTopicIsSaid(g: Gauge, t: Topic)
    requires Fits(g, t)
    ensures Mapped(SnapshotFor(t)) && Says(SnapshotFor(t), Series(g, LabelsFor(g, t)))
  {
    SnapshotsForTopicsAreMapped(g, t);
    TopicsOfThePart(g, t);
    match t {
      case DeviceTopic(_) => DeviceIsSaid(g, t, "");
      case ComponentTopic(_, _) => ComponentIsSaid(g, t, "");
      case TagTopic(d, tag) => TagIsSaid(g, d, tag);
      case InterfaceTopic(d, id, name, kind) => BusyInterfaceIsSaid(g, d, id, name, kind, "FULL");
      case DuplexTopic(d, duplex, id, name, kind) => BusyInterfaceIsSaid(g, d, id, name, kind, duplex);
      case TunnelTopic(d, state, id, name) => TunnelIsSaid(d, state, id, name);
    }
  }
}
