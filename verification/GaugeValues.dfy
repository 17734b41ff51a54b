/**
 * The value of every series of the device collector, read off the fields of
 * the snapshots: percentages as ratios, milliseconds as seconds, UP and DOWN
 * as 1 and 0, and one word of each state set at 1.
 */
module GaugeValues {
  import opened Prelude
  import opened SeriesKeys
  import opened GaugeStore
  import opened Collector
  import opened CollectorReadings
  import opened Topics
  import opened SnapshotTopics
  import opened StateSets

  // ----------------------------------------------------- what a snapshot states

  function Scaled(v: Option<real>, unit: real): Option<real>
    requires unit != 0.0
  {
    if v.Some? then Some(v.value / unit) else None
  }

  function Flag(word: Option<string>, one: string, zero: string): Option<real>
  {
    if word == Some(one) then Some(1.0) else if word == Some(zero) then Some(0.0) else None
  }

  function UsageOf(u: Usage, component: string): Option<real>
  {
    if component == "lina" then Scaled(u.lina, 100.0)
    else if component == "snort" then Scaled(u.snort, 100.0)
    else if component == "system" then Scaled(u.system, 100.0)
    else None
  }

  function SessionsOf(v: RaVpn, g: Gauge): Option<real>
  {
    if g.RavpnSessionsActiveAvg? then v.activeSessionsAvg
    else if g.RavpnSessionsInactiveAvg? then v.inactiveSessionsAvg
    else v.peakConcurrent
  }

  function DeviceField(x: Snapshot, g: Gauge): Option<real>
  {
    if g.DiskUsageRatio? then Scaled(x.diskPercent, 100.0)
    else if g.HealthWindowStartTimestampSeconds? then Scaled(x.windowStart, 1000.0)
    else if g.HealthWindowEndTimestampSeconds? then Scaled(x.windowEnd, 1000.0)
    else if x.raVpn.Some? then SessionsOf(x.raVpn.value, g)
    else None
  }

  function InterfaceField(i: Interface, g: Gauge): Option<real>
  {
    if g.InterfaceInputBytesAvg? then i.inputBytesAvg
    else if g.InterfaceOutputBytesAvg? then i.outputBytesAvg
    else if g.InterfaceInputPacketSizeAvgBytes? then i.inputPacketSizeAvg
    else if g.InterfaceOutputPacketSizeAvgBytes? then i.outputPacketSizeAvg
    else if g.InterfaceInputErrorsAvg? then i.inputErrorsAvg
    else if g.InterfaceOutputErrorsAvg? then i.outputErrorsAvg
    else if g.InterfaceDropPacketsAvg? then i.dropPacketsAvg
    else if g.InterfaceBufferOverrunsAvg? then i.bufferOverrunsAvg
    else if g.InterfaceBufferUnderrunsAvg? then i.bufferUnderrunsAvg
    else if g.InterfaceL2DecodeDropsAvg? then i.l2DecodeDropsAvg
    else if g.InterfaceLinkUp? then Flag(i.linkStatus, "UP", "DOWN")
    else if g.InterfaceOperationalUp? then Flag(i.operationalStatus, "UP", "DOWN")
    else None
  }

  function PsuField(p: Psu, g: Gauge): Option<real>
  {
    if g.ChassisPsuFanUp? then Flag(p.fanStatus, "UP", "DOWN")
    else if g.ChassisPsuInputUp? then Flag(p.inputStatus, "UP", "DOWN")
    else Flag(p.outputStatus, "UP", "DOWN")
  }

  predicate Given(s: Option<string>) { s.Some? && s.value != "" }

  /** The interface appears under this id, name and type: unnamed ones under their id, untyped ones without a type. */
  predicate AppearsAs(i: Interface, id: string, name: string, kind: Option<string>)
  {
    i.id == id && name == (if Given(i.name) then i.name.value else i.id) && kind == (if Given(i.kind) then i.kind else None)
  }

  function LastOfInterfaces(interfaces: seq<Interface>, g: Gauge, id: string, name: string, kind: Option<string>): Option<real>
  {
    if interfaces == [] then None
    else
      var last := interfaces[|interfaces| - 1];
      if AppearsAs(last, id, name, kind) && InterfaceField(last, g).Some? then InterfaceField(last, g)
      else LastOfInterfaces(interfaces[..|interfaces| - 1], g, id, name, kind)
  }

  ghost predicate HasDuplex(interfaces: seq<Interface>, mode: string, id: string, name: string, kind: Option<string>)
  {
    mode != "" && exists k :: 0 <= k < |interfaces| && AppearsAs(interfaces[k], id, name, kind) && interfaces[k].duplexMode == Some(mode)
  }

  function LastOfFans(fans: seq<Fan>, fan: string): Option<real>
  {
    if fans == [] then None
    else
      var last := fans[|fans| - 1];
      if last.fan == fan then Some(last.rpmAvg) else LastOfFans(fans[..|fans| - 1], fan)
  }

  function LastOfPsus(psus: seq<Psu>, g: Gauge, psu: string): Option<real>
  {
    if psus == [] then None
    else
      var last := psus[|psus| - 1];
      if last.psu == psu && PsuField(last, g).Some? then PsuField(last, g) else LastOfPsus(psus[..|psus| - 1], g, psu)
  }

  const STATUS_WORDS: map<string, string> :=
    map["NORMAL" := "normal", "ERROR" := "error", "WARNING" := "warning", "DISABLED" := "disabled"]
  const HA_STATES: set<string> := {"normal", "error", "warning", "disabled", "unknown"}
  const NODE_TYPE_WORDS: map<string, string> := map["PRIMARY" := "primary", "SECONDARY" := "secondary"]
  const TUNNEL_WORDS: map<string, string> := map["TUNNEL_UP" := "up", "TUNNEL_DOWN" := "down"]

  function WordFor(raw: string, words: map<string, string>): string { if raw in words then words[raw] else "unknown" }

  /** A state set is written as a whole: 1 for the word that holds, 0 for its others. */
  function StateBit(word: string, holds: string, all: set<string>): Option<real>
  {
    if word == holds then Some(1.0) else if word in all then Some(0.0) else None
  }

  function HaField(ha: Ha, g: Gauge, tag: string): Option<real>
  {
    if g.HaNodeStatus? then StateBit(tag, WordFor(ha.nodeStatus, STATUS_WORDS), HA_STATES)
    else if tag == WordFor(ha.nodeType, NODE_TYPE_WORDS) then Some(1.0)
    else None
  }

  function LastOfTunnels(tunnels: seq<Tunnel>, state: string, id: string, name: string): Option<real>
  {
    if tunnels == [] then None
    else
      var last := tunnels[|tunnels| - 1];
      var bit := StateBit(state, WordFor(last.state, TUNNEL_WORDS), TUNNEL_STATES);
      if last.id == id && last.name == name && bit.Some? then bit else LastOfTunnels(tunnels[..|tunnels| - 1], state, id, name)
  }

  function TagField(x: Snapshot, g: Gauge, tag: string): Option<real>
  {
    if g.HaNodeStatus? || g.HaNodeInfo? then (if x.ha.Some? then HaField(x.ha.value, g, tag) else None)
    else if x.chassis.None? then None
    else if g.ChassisFanRpm? then LastOfFans(x.chassis.value.fans, tag)
    else LastOfPsus(x.chassis.value.psus, g, tag)
  }

  /** What a snapshot states about a topic, in the gauge's unit. */
  ghost function Stated(x: Snapshot, g: Gauge, t: Topic): Option<real>
  {
    if x.device != t.device then None
    else match t
      case DeviceTopic(_) => DeviceField(x, g)
      case ComponentTopic(_, component) =>
        var usage := if g.CpuUsageRatio? then x.cpu else x.memory;
        if usage.Some? then UsageOf(usage.value, component) else None
      case TagTopic(_, tag) => TagField(x, g, tag)
      case InterfaceTopic(_, id, name, kind) => LastOfInterfaces(x.interfaces, g, id, name, kind)
      case DuplexTopic(_, mode, id, name, kind) => if HasDuplex(x.interfaces, mode, id, name, kind) then Some(1.0) else None
      case TunnelTopic(_, state, id, name) => LastOfTunnels(x.tunnels, state, id, name)
  }

  /** What the last snapshot that states anything about it states. */
  ghost function LastStated(snapshots: seq<Snapshot>, g: Gauge, t: Topic): Option<real>
  {
    if snapshots == [] then None
    else
      var stated := Stated(snapshots[|snapshots| - 1], g, t);
      if stated.Some? then stated else LastStated(snapshots[..|snapshots| - 1], g, t)
  }

  // ------------------------------------------------------- labels tell topics apart

  lemma DevicesApart(a: Device, b: Device, more: Labels, more': Labels)
    ensures DeviceLabels(a) + more == DeviceLabels(b) + more' <==> a == b && more == more'
  {
    var x, y := DeviceLabels(a) + more, DeviceLabels(b) + more';
    if x == y {
      assert x[0] == y[0] && x[1] == y[1] && x[2..] == more && y[2..] == more';
    }
  }

  lemma DevicesAloneApart(a: Device, b: Device)
    ensures DeviceLabels(a) == DeviceLabels(b) <==> a == b
  {
    DevicesApart(a, b, [], []);
    assert DeviceLabels(a) + [] == DeviceLabels(a) && DeviceLabels(b) + [] == DeviceLabels(b);
  }

  lemma ComponentsApart(c: string, a: Device, c': string, b: Device)
    ensures ComponentLabels(c, a) == ComponentLabels(c', b) <==> c == c' && a == b
  {
    var x, y := ComponentLabels(c, a), ComponentLabels(c', b);
    if x == y {
      assert x[0] == y[0] && x[1..] == DeviceLabels(a) && y[1..] == DeviceLabels(b);
      DevicesAloneApart(a, b);
    }
  }

  lemma NamedApart(id: string, name: string, kind: Option<string>, id': string, name': string, kind': Option<string>)
    ensures NamedInterface(id, name, kind) == NamedInterface(id', name', kind') <==> id == id' && name == name' && kind == kind'
  {
    var x, y := NamedInterface(id, name, kind), NamedInterface(id', name', kind');
    if x == y {
      assert x[0] == y[0] && x[1] == y[1];
      if kind.Some? {
        assert x[2] == y[2];
      }
    }
  }

  lemma InterfaceAppears(i: Interface, id: string, name: string, kind: Option<string>)
    ensures InterfaceLabels(i) == NamedInterface(id, name, kind) <==> AppearsAs(i, id, name, kind)
  {
    var named, typed := if Given(i.name) then i.name.value else i.id, if Given(i.kind) then i.kind else None;
    assert InterfaceLabels(i) == NamedInterface(i.id, named, typed);
    NamedApart(i.id, named, typed, id, name, kind);
  }

  // --------------------------------------------------------- single readings

  /** If only the k-th reading can be of the series, that one decides. */
  lemma {:induction false} OnlyOneDecides(readings: Readings, k: nat, s: Series<Gauge>)
    requires k < |readings|
    requires forall j :: 0 <= j < |readings| && j != k ==> Series(readings[j].gauge, readings[j].labels) != s
    ensures LastPresent(readings, s) == if Series(readings[k].gauge, readings[k].labels) == s then readings[k].value else None
  {
    var init := readings[..|readings| - 1];
    if k < |init| {
      OnlyOneDecides(init, k, s);
    } else {
      NoneDecides(init, s);
    }
  }

  lemma {:induction false} NoneDecides(readings: Readings, s: Series<Gauge>)
    requires forall j :: 0 <= j < |readings| ==> Series(readings[j].gauge, readings[j].labels) != s
    ensures LastPresent(readings, s) == None
  {
    if readings != [] {
      NoneDecides(readings[..|readings| - 1], s);
    }
  }

  function SeriesOf(g: Gauge, t: Topic): Series<Gauge> { Series(g, LabelsFor(g, t)) }

  lemma OneOfThreeDecides(a: Reading<Gauge>, b: Reading<Gauge>, c: Reading<Gauge>, s: Series<Gauge>)
    requires a.gauge == b.gauge == c.gauge == s.gauge && a.labels != b.labels && a.labels != c.labels && b.labels != c.labels
    ensures LastPresent([a, b, c], s)
            == if a.labels == s.labels then a.value else if b.labels == s.labels then b.value
               else if c.labels == s.labels then c.value else None
  {
    OnlyOneDecides([a, b, c], if a.labels == s.labels then 0 else if b.labels == s.labels then 1 else 2, s);
  }

  lemma UsageSays(g: Gauge, d: Device, usage: Option<Usage>, t: Topic)
    requires t.ComponentTopic?
    ensures LastPresent(UsageReadings(g, d, usage), SeriesOf(g, t))
            == if d == t.device && usage.Some? then UsageOf(usage.value, t.component) else None
  {
    if usage.Some? {
      ComponentsApart("lina", d, "snort", d);
      ComponentsApart("lina", d, "system", d);
      ComponentsApart("snort", d, "system", d);
      ComponentsApart("lina", d, t.component, t.device);
      ComponentsApart("snort", d, t.component, t.device);
      ComponentsApart("system", d, t.component, t.device);
      var u := usage.value;
      OneOfThreeDecides(Reading(g, ComponentLabels("lina", d), Scaled(u.lina, 100.0)),
                        Reading(g, ComponentLabels("snort", d), Scaled(u.snort, 100.0)),
                        Reading(g, ComponentLabels("system", d), Scaled(u.system, 100.0)), SeriesOf(g, t));
    }
  }

  lemma DeviceFieldSays(x: Snapshot, g: Gauge, t: Topic)
    requires t.DeviceTopic? && HasForm(g, t)
    ensures SaidOf(x, SeriesOf(g, t)) == Stated(x, g, t)
  {
    DevicesAloneApart(x.device, t.device);
    var s := SeriesOf(g, t);
    if g.DiskUsageRatio? {
      OnlyOneDecides(DiskReadings(x), 0, s);
    } else if g.HealthWindowStartTimestampSeconds? || g.HealthWindowEndTimestampSeconds? {
      OnlyOneDecides(WindowReadings(x), if g.HealthWindowStartTimestampSeconds? then 0 else 1, s);
    } else if x.raVpn.Some? {
      OnlyOneDecides(RaVpnReadings(x.device, x.raVpn),
                     if g.RavpnSessionsActiveAvg? then 0 else if g.RavpnSessionsInactiveAvg? then 1 else 2, s);
    }
  }

  // -------------------------------------------------------------- interfaces

  lemma InterfaceGauge(d: Device, i: Interface, k: nat)
    requires k < 13
    ensures IndexOfInterfaceGauge(InterfaceReadings(d, i)[k].gauge) == k
    ensures k < 12 ==>
              && InterfaceReadings(d, i)[k].labels == DeviceLabels(d) + InterfaceLabels(i)
              && InterfaceReadings(d, i)[k].value == InterfaceField(i, InterfaceReadings(d, i)[k].gauge)
  {
  }

  lemma InterfaceGaugeIndex(g: Gauge, t: Topic)
    requires HasForm(g, t) && (t.InterfaceTopic? || t.DuplexTopic?)
    ensures if t.DuplexTopic? then IndexOfInterfaceGauge(g) == 12 else IndexOfInterfaceGauge(g) < 12
    ensures t.DuplexTopic? ==> g == InterfaceDuplexInfo
    ensures PartOf(g) == InterfacePart
  {
  }

  lemma SameInterfaceGauge(g: Gauge, h: Gauge)
    requires IndexOfInterfaceGauge(g) == IndexOfInterfaceGauge(h) < 12
    ensures g == h
  {
  }

  lemma InterfaceSays(d: Device, i: Interface, g: Gauge, t: Topic)
    requires t.InterfaceTopic? && HasForm(g, t)
    ensures LastPresent(InterfaceReadings(d, i), SeriesOf(g, t))
            == if d == t.device && AppearsAs(i, t.id, t.name, t.kind) then InterfaceField(i, g) else None
  {
    var readings, s, k := InterfaceReadings(d, i), SeriesOf(g, t), IndexOfInterfaceGauge(g);
    InterfaceGaugeIndex(g, t);
    forall j | 0 <= j < 13 ensures IndexOfInterfaceGauge(readings[j].gauge) == j {
      InterfaceGauge(d, i, j);
    }
    OnlyOneDecides(readings, k, s);
    InterfaceGauge(d, i, k);
    SameInterfaceGauge(readings[k].gauge, g);
    DevicesApart(d, t.device, InterfaceLabels(i), NamedInterface(t.id, t.name, t.kind));
    InterfaceAppears(i, t.id, t.name, t.kind);
  }

  lemma {:induction false} InterfacesSay(d: Device, interfaces: seq<Interface>, g: Gauge, t: Topic)
    requires t.InterfaceTopic? && HasForm(g, t)
    ensures LastPresent(InterfacesReadings(d, interfaces), SeriesOf(g, t))
            == if d == t.device then LastOfInterfaces(interfaces, g, t.id, t.name, t.kind) else None
  {
    if interfaces != [] {
      var init, last := interfaces[..|interfaces| - 1], interfaces[|interfaces| - 1];
      InterfacesSay(d, init, g, t);
      InterfaceSays(d, last, g, t);
      LastPresentOfConcat(InterfacesReadings(d, init), InterfaceReadings(d, last), SeriesOf(g, t));
    }
  }

  function ModeOf(i: Interface): string { if Given(i.duplexMode) then i.duplexMode.value else "" }

  lemma DuplexReading(d: Device, i: Interface)
    ensures InterfaceReadings(d, i)[12]
            == Reading(InterfaceDuplexInfo, DeviceLabels(d) + ([Label(DUPLEX_MODE, ModeOf(i))] + InterfaceLabels(i)),
                       if Given(i.duplexMode) then Some(1.0) else None)
  {
  }

  lemma DuplexLabelsApart(d: Device, mode: string, rest: Labels, d': Device, mode': string, rest': Labels)
    ensures DeviceLabels(d) + ([Label(DUPLEX_MODE, mode)] + rest) == DeviceLabels(d') + ([Label(DUPLEX_MODE, mode')] + rest')
            <==> d == d' && mode == mode' && rest == rest'
  {
    var x, y := [Label(DUPLEX_MODE, mode)] + rest, [Label(DUPLEX_MODE, mode')] + rest';
    DevicesApart(d, d', x, y);
    if x == y {
      assert x[0] == y[0] && x[1..] == rest && y[1..] == rest';
    }
  }

  lemma DuplexSays(d: Device, i: Interface, t: Topic)
    requires t.DuplexTopic?
    ensures LastPresent(InterfaceReadings(d, i), SeriesOf(InterfaceDuplexInfo, t))
            == if d == t.device && t.duplex != "" && AppearsAs(i, t.id, t.name, t.kind) && i.duplexMode == Some(t.duplex)
               then Some(1.0) else None
  {
    var readings, named := InterfaceReadings(d, i), NamedInterface(t.id, t.name, t.kind);
    forall j | 0 <= j < 13 ensures IndexOfInterfaceGauge(readings[j].gauge) == j {
      InterfaceGauge(d, i, j);
    }
    OnlyOneDecides(readings, 12, SeriesOf(InterfaceDuplexInfo, t));
    DuplexReading(d, i);
    assert LabelsFor(InterfaceDuplexInfo, t) == DeviceLabels(t.device) + ([Label(DUPLEX_MODE, t.duplex)] + named);
    DuplexLabelsApart(d, ModeOf(i), InterfaceLabels(i), t.device, t.duplex, named);
    InterfaceAppears(i, t.id, t.name, t.kind);
  }

  lemma {:induction false} DuplexesSay(d: Device, interfaces: seq<Interface>, t: Topic)
    requires t.DuplexTopic?
    ensures LastPresent(InterfacesReadings(d, interfaces), SeriesOf(InterfaceDuplexInfo, t))
            == if d == t.device && HasDuplex(interfaces, t.duplex, t.id, t.name, t.kind) then Some(1.0) else None
  {
    if interfaces != [] {
      var init, last := interfaces[..|interfaces| - 1], interfaces[|interfaces| - 1];
      DuplexesSay(d, init, t);
      DuplexSays(d, last, t);
      LastPresentOfConcat(InterfacesReadings(d, init), InterfaceReadings(d, last), SeriesOf(InterfaceDuplexInfo, t));
      assert forall k :: 0 <= k < |init| ==> init[k] == interfaces[k];
    }
  }

  // ------------------------------------------------------------------ by tag

  lemma TagsApart(d: Device, name: LabelName, tag: string, d': Device, name': LabelName, tag': string)
    ensures DeviceLabels(d) + [Label(name, tag)] == DeviceLabels(d') + [Label(name', tag')] <==> d == d' && name == name' && tag == tag'
  {
    DevicesApart(d, d', [Label(name, tag)], [Label(name', tag')]);
    assert [Label(name, tag)][0] == Label(name, tag) && [Label(name', tag')][0] == Label(name', tag');
  }

  lemma {:induction false} FansSay(d: Device, fans: seq<Fan>, t: Topic)
    requires t.TagTopic?
    ensures LastPresent(FansReadings(d, fans), SeriesOf(ChassisFanRpm, t)) == if d == t.device then LastOfFans(fans, t.tag) else None
  {
    if fans != [] {
      var init, last := fans[..|fans| - 1], fans[|fans| - 1];
      FansSay(d, init, t);
      TagsApart(d, FAN, last.fan, t.device, FAN, t.tag);
      OnlyOneDecides(FanReadings(d, last), 0, SeriesOf(ChassisFanRpm, t));
      LastPresentOfConcat(FansReadings(d, init), FanReadings(d, last), SeriesOf(ChassisFanRpm, t));
    }
  }

  predicate PsuGauge(g: Gauge) { g.ChassisPsuFanUp? || g.ChassisPsuInputUp? || g.ChassisPsuOutputUp? }

  lemma PsuSays(d: Device, p: Psu, g: Gauge, t: Topic)
    requires t.TagTopic? && PsuGauge(g)
    ensures LastPresent(PsuReadings(d, p), SeriesOf(g, t)) == if d == t.device && p.psu == t.tag then PsuField(p, g) else None
  {
    TagsApart(d, PSU, p.psu, t.device, PSU, t.tag);
    OnlyOneDecides(PsuReadings(d, p), if g.ChassisPsuFanUp? then 0 else if g.ChassisPsuInputUp? then 1 else 2, SeriesOf(g, t));
  }

  lemma {:induction false} PsusSay(d: Device, psus: seq<Psu>, g: Gauge, t: Topic)
    requires t.TagTopic? && PsuGauge(g)
    ensures LastPresent(PsusReadings(d, psus), SeriesOf(g, t)) == if d == t.device then LastOfPsus(psus, g, t.tag) else None
  {
    if psus != [] {
      var init, last := psus[..|psus| - 1], psus[|psus| - 1];
      PsusSay(d, init, g, t);
      PsuSays(d, last, g, t);
      LastPresentOfConcat(PsusReadings(d, init), PsuReadings(d, last), SeriesOf(g, t));
    }
  }

  lemma {:induction false} FansAreNotPsus(d: Device, fans: seq<Fan>, s: Series<Gauge>)
    requires !s.gauge.ChassisFanRpm?
    ensures LastPresent(FansReadings(d, fans), s) == None
  {
    if fans != [] {
      FansAreNotPsus(d, fans[..|fans| - 1], s);
      LastPresentOfConcat(FansReadings(d, fans[..|fans| - 1]), FanReadings(d, fans[|fans| - 1]), s);
      OnlyOneDecides(FanReadings(d, fans[|fans| - 1]), 0, s);
    }
  }

  lemma {:induction false} PsusAreNotFans(d: Device, psus: seq<Psu>, s: Series<Gauge>)
    requires s.gauge.ChassisFanRpm?
    ensures LastPresent(PsusReadings(d, psus), s) == None
  {
    if psus != [] {
      PsusAreNotFans(d, psus[..|psus| - 1], s);
      LastPresentOfConcat(PsusReadings(d, psus[..|psus| - 1]), PsuReadings(d, psus[|psus| - 1]), s);
      NoneDecides(PsuReadings(d, psus[|psus| - 1]), s);
    }
  }

  lemma ChassisPartSays(x: Snapshot, g: Gauge, t: Topic)
    requires t.TagTopic? && (g.ChassisFanRpm? || PsuGauge(g)) && x.chassis.Some?
    ensures var s := SeriesOf(g, t);
            LastPresent(PartReadings(x, ChassisPart), s)
            == if g.ChassisFanRpm? then LastPresent(FansReadings(x.device, x.chassis.value.fans), s)
               else LastPresent(PsusReadings(x.device, x.chassis.value.psus), s)
  {
    var fans, psus, s := x.chassis.value.fans, x.chassis.value.psus, SeriesOf(g, t);
    LastPresentOfConcat(FansReadings(x.device, fans), PsusReadings(x.device, psus), s);
    if g.ChassisFanRpm? {
      PsusAreNotFans(x.device, psus, s);
    } else {
      FansAreNotPsus(x.device, fans, s);
    }
  }

  lemma ChassisSays(x: Snapshot, g: Gauge, t: Topic)
    requires t.TagTopic? && (g.ChassisFanRpm? || PsuGauge(g))
    ensures SaidOf(x, SeriesOf(g, t)) == Stated(x, g, t)
  {
    if x.chassis.Some? {
      ChassisPartSays(x, g, t);
      if g.ChassisFanRpm? {
        FansSay(x.device, x.chassis.value.fans, t);
      } else {
        PsusSay(x.device, x.chassis.value.psus, g, t);
      }
    }
  }

  // -------------------------------------------------------------- state sets

  lemma OneMoreStateReading(t: Subject, active: State, init: seq<State>, last: State, s: Series<Gauge>)
    ensures LastPresent(StateReadings(t, active, init + [last]), s)
            == if s == StateSeries(t, last) then Some(Bit(last == active)) else LastPresent(StateReadings(t, active, init), s)
  {
    assert (init + [last])[..|init|] == init;
    var earlier, series := StateReadings(t, active, init), StateSeries(t, last);
    var r := Reading(series.gauge, series.labels, Some(Bit(last == active)));
    assert (earlier + [r])[..|earlier|] == earlier;
  }

  lemma {:induction false} OtherStatesSayNothing(t: Subject, active: State, states: seq<State>, s: Series<Gauge>)
    requires forall state :: state in states ==> s != StateSeries(t, state)
    ensures LastPresent(StateReadings(t, active, states), s) == None
  {
    if states != [] {
      var init, last := states[..|states| - 1], states[|states| - 1];
      OtherStatesSayNothing(t, active, init, s);
      assert states == init + [last];
      OneMoreStateReading(t, active, init, last, s);
    }
  }

  lemma StateSays(t: Subject, active: State, states: seq<State>, s: Series<Gauge>)
    ensures var said := LastPresent(StateReadings(t, active, states), s);
            && (said.Some? ==> exists state :: state in states && s == StateSeries(t, state))
            && (forall state :: state in states && s == StateSeries(t, state) ==> said == Some(Bit(state == active)))
  {
    if state :| state in states && s == StateSeries(t, state) {
      LastOfStates(t, active, states, t, state);
      forall other | other in states && s == StateSeries(t, other) ensures other == state {
        SeriesTellApart(t, state, t, other);
      }
    } else {
      OtherStatesSayNothing(t, active, states, s);
    }
  }

  /** The state that a word names. */
  function StateFor(word: string): State
  {
    if word == "normal" then Normal else if word == "error" then Error else if word == "warning" then Warning
    else if word == "disabled" then Disabled else if word == "up" then Up else if word == "down" then Down else Unknown
  }

  lemma HaWords(word: string, raw: string)
    ensures word in HA_STATES <==> StateFor(word) in StatesOf(HaOf(Device("", ""))) && StateLabel(StateFor(word)) == word
    ensures StateLabel(ClassifyHaNodeStatus(raw)) == WordFor(raw, STATUS_WORDS)
  {
  }

  lemma TunnelWords(word: string, raw: string)
    ensures word in TUNNEL_STATES <==> StateFor(word) in StatesOf(TunnelOf(Device("", ""), "", "")) && StateLabel(StateFor(word)) == word
    ensures StateLabel(ClassifyTunnelState(raw)) == WordFor(raw, TUNNEL_WORDS)
  {
  }

  lemma LabelNamesState(s: State)
    ensures StateFor(StateLabel(s)) == s
  {
  }

  lemma HaSeriesApart(d: Device, state: State, t: Topic)
    requires t.TagTopic?
    ensures StateSeries(HaOf(d), state) == SeriesOf(HaNodeStatus, t) <==> d == t.device && StateLabel(state) == t.tag
  {
    var labels := [Label(DEVICE_NAME, d.name), Label(DEVICE_UID, d.uid), Label(STATUS, StateLabel(state))];
    assert labels == DeviceLabels(d) + [Label(STATUS, StateLabel(state))];
    TagsApart(d, STATUS, StateLabel(state), t.device, STATUS, t.tag);
  }

  lemma StatusSays(d: Device, raw: string, t: Topic)
    requires t.TagTopic?
    ensures LastPresent(StateReadings(HaOf(d), ClassifyHaNodeStatus(raw), StatesOf(HaOf(d))), SeriesOf(HaNodeStatus, t))
            == if d == t.device then StateBit(t.tag, WordFor(raw, STATUS_WORDS), HA_STATES) else None
  {
    var states, active, s := StatesOf(HaOf(d)), ClassifyHaNodeStatus(raw), SeriesOf(HaNodeStatus, t);
    StateSays(HaOf(d), active, states, s);
    HaWords(t.tag, raw);
    HaWords(WordFor(raw, STATUS_WORDS), raw);
    forall state | state in states ensures s == StateSeries(HaOf(d), state) <==> d == t.device && state == StateFor(t.tag) && t.tag in HA_STATES {
      HaSeriesApart(d, state, t);
      LabelNamesState(state);
    }
    LabelNamesState(active);
  }

  lemma NodeTypeSays(d: Device, ha: Ha, t: Topic)
    requires t.TagTopic?
    ensures LastPresent(HaInfoReadings(d, ha), SeriesOf(HaNodeInfo, t))
            == if d == t.device && t.tag == WordFor(ha.nodeType, NODE_TYPE_WORDS) then Some(1.0) else None
  {
    OnlyOneDecides(HaInfoReadings(d, ha), 0, SeriesOf(HaNodeInfo, t));
    TagsApart(d, NODE_TYPE, NodeTypeLabel(ha.nodeType), t.device, NODE_TYPE, t.tag);
  }

  /** The two gauges of the HA part do not meet. */
  lemma HaPartSays(x: Snapshot, g: Gauge, t: Topic)
    requires t.TagTopic? && (g.HaNodeStatus? || g.HaNodeInfo?) && x.ha.Some?
    ensures var subject, active := HaOf(x.device), ClassifyHaNodeStatus(x.ha.value.nodeStatus);
            LastPresent(PartReadings(x, HaPart), SeriesOf(g, t))
            == if g.HaNodeStatus? then LastPresent(StateReadings(subject, active, StatesOf(subject)), SeriesOf(g, t))
               else LastPresent(HaInfoReadings(x.device, x.ha.value), SeriesOf(g, t))
  {
    var subject, active := HaOf(x.device), ClassifyHaNodeStatus(x.ha.value.nodeStatus);
    var states, info, s := StateReadings(subject, active, StatesOf(subject)), HaInfoReadings(x.device, x.ha.value), SeriesOf(g, t);
    LastPresentOfConcat(states, info, s);
    if g.HaNodeStatus? {
      NoneDecides(info, s);
    } else {
      OtherStatesSayNothing(subject, active, StatesOf(subject), s);
    }
  }

  lemma HaSays(x: Snapshot, g: Gauge, t: Topic)
    requires t.TagTopic? && (g.HaNodeStatus? || g.HaNodeInfo?)
    ensures SaidOf(x, SeriesOf(g, t)) == Stated(x, g, t)
  {
    if x.ha.Some? {
      HaPartSays(x, g, t);
      if g.HaNodeStatus? {
        StatusSays(x.device, x.ha.value.nodeStatus, t);
      } else {
        NodeTypeSays(x.device, x.ha.value, t);
      }
    }
  }

  lemma TunnelSeriesApart(d: Device, tunnel: Tunnel, state: State, t: Topic)
    requires t.TunnelTopic?
    ensures StateSeries(TunnelOf(d, tunnel.id, tunnel.name), state) == SeriesOf(S2sTunnelState, t)
            <==> d == t.device && tunnel.id == t.id && tunnel.name == t.name && StateLabel(state) == t.state
  {
    var a := [Label(STATE, StateLabel(state)), Label(TUNNEL_ID, tunnel.id), Label(TUNNEL_NAME, tunnel.name)];
    var b := [Label(STATE, t.state), Label(TUNNEL_ID, t.id), Label(TUNNEL_NAME, t.name)];
    assert StateSeries(TunnelOf(d, tunnel.id, tunnel.name), state).labels == DeviceLabels(d) + a;
    DevicesApart(d, t.device, a, b);
    if a == b {
      assert a[0] == b[0] && a[1] == b[1] && a[2] == b[2];
    }
  }

  lemma TunnelSays(d: Device, tunnel: Tunnel, t: Topic)
    requires t.TunnelTopic?
    ensures LastPresent(TunnelReadings(d, tunnel), SeriesOf(S2sTunnelState, t))
            == if d == t.device && tunnel.id == t.id && tunnel.name == t.name
               then StateBit(t.state, WordFor(tunnel.state, TUNNEL_WORDS), TUNNEL_STATES) else None
  {
    var subject, active, s := TunnelOf(d, tunnel.id, tunnel.name), ClassifyTunnelState(tunnel.state), SeriesOf(S2sTunnelState, t);
    var same := d == t.device && tunnel.id == t.id && tunnel.name == t.name;
    StateSays(subject, active, StatesOf(subject), s);
    TunnelWords(t.state, tunnel.state);
    TunnelWords(WordFor(tunnel.state, TUNNEL_WORDS), tunnel.state);
    forall state | state in StatesOf(subject)
      ensures s == StateSeries(subject, state) <==> same && state == StateFor(t.state) && t.state in TUNNEL_STATES
    {
      TunnelSeriesApart(d, tunnel, state, t);
      LabelNamesState(state);
    }
    LabelNamesState(active);
  }

  lemma {:induction false} TunnelsSay(d: Device, tunnels: seq<Tunnel>, t: Topic)
    requires t.TunnelTopic?
    ensures LastPresent(TunnelsReadings(d, tunnels), SeriesOf(S2sTunnelState, t))
            == if d == t.device then LastOfTunnels(tunnels, t.state, t.id, t.name) else None
  {
    if tunnels != [] {
      var init, last := tunnels[..|tunnels| - 1], tunnels[|tunnels| - 1];
      TunnelsSay(d, init, t);
      TunnelSays(d, last, t);
      LastPresentOfConcat(TunnelsReadings(d, init), TunnelReadings(d, last), SeriesOf(S2sTunnelState, t));
    }
  }

  // ----------------------------------------------------------------- theorems

  lemma TagSays(x: Snapshot, g: Gauge, t: Topic)
    requires t.TagTopic? && HasForm(g, t)
    ensures SaidOf(x, SeriesOf(g, t)) == Stated(x, g, t)
  {
    if g.HaNodeStatus? || g.HaNodeInfo? {
      HaSays(x, g, t);
    } else {
      ChassisSays(x, g, t);
    }
  }

  /** What a snapshot's readings say of a series is what its fields state. */
  lemma SaidIsStated(x: Snapshot, g: Gauge, t: Topic)
    requires HasForm(g, t)
    ensures SaidOf(x, SeriesOf(g, t)) == Stated(x, g, t)
  {
    match t {
      case DeviceTopic(_) => DeviceFieldSays(x, g, t);
      case ComponentTopic(_, _) => UsageSays(g, x.device, if g.CpuUsageRatio? then x.cpu else x.memory, t);
      case TagTopic(_, _) => TagSays(x, g, t);
      case InterfaceTopic(_, _, _, _) =>
        InterfaceGaugeIndex(g, t);
        InterfacesSay(x.device, x.interfaces, g, t);
      case DuplexTopic(_, _, _, _, _) =>
        InterfaceGaugeIndex(g, t);
        DuplexesSay(x.device, x.interfaces, t);
      case TunnelTopic(_, _, _, _) => TunnelsSay(x.device, x.tunnels, t);
    }
  }

  lemma {:induction false} LastSaidIsStated(snapshots: seq<Snapshot>, g: Gauge, t: Topic)
    requires HasForm(g, t)
    ensures LastSaid(snapshots, SeriesOf(g, t)) == LastStated(snapshots, g, t)
  {
    if snapshots != [] {
      LastSaidIsStated(snapshots[..|snapshots| - 1], g, t);
      SaidIsStated(snapshots[|snapshots| - 1], g, t);
    }
  }

  /** Every gauge shows of every topic the last field any snapshot states about it, and nothing if none does. */
  lemma GaugesShowTheLastField(snapshots: seq<Snapshot>, g: Gauge, t: Topic)
    requires HasForm(g, t)
    ensures var store, s := Stored(RenderedAll(snapshots)), Series(g, LabelsFor(g, t));
            && (s in store <==> LastStated(snapshots, g, t).Some?)
            && (s in store ==> store[s] == LastStated(snapshots, g, t).value)
  {
    EveryValueIsTheLastSaid(snapshots, SeriesOf(g, t));
    LastSaidIsStated(snapshots, g, t);
  }

  /** And there is nothing else: every series is one a gauge has of some topic. */
  lemma EverySeriesShowsAField(snapshots: seq<Snapshot>, s: Series<Gauge>) returns (t: Topic)
    requires s in Stored(RenderedAll(snapshots))
    ensures HasForm(s.gauge, t) && s.labels == LabelsFor(s.gauge, t)
    ensures LastStated(snapshots, s.gauge, t) == Some(Stored(RenderedAll(snapshots))[s])
  {
    EveryValueIsTheLastSaid(snapshots, s);
    var x := SaidBySome(snapshots, s);
    t := SeriesHasATopic(x, s);
    LastSaidIsStated(snapshots, s.gauge, t);
  }
}
