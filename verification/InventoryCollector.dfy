/** The inventory collector, which keys its series count by JSON. The unknown-enum counter is not modelled. */
module InventoryCollector {
  import opened Prelude
  import opened SeriesKeys
  import opened GaugeStore
  import Collector

  datatype InventoryGauge = DeviceInfo | DeviceConnectivityUp | DeviceStatusInfo | DeviceHaRoleInfo

  datatype HaNode = HaNode(name: string, role: Option<string>, nodeType: string)

  datatype Entry = Entry(
    device: Collector.Device, uidOnFmc: Option<string>, connectivityState: Option<string>, redundancyMode: Option<string>,
    softwareVersion: Option<string>, serial: Option<string>, performanceTier: Option<string>,
    configState: Option<string>, conflictDetectionState: Option<string>,
    licenseStatus: Option<string>, complianceStatus: Option<string>, haNodes: seq<HaNode>)

  const COMPLIANCE_STATUS: LabelName := "compliance_status"
  const CONFIG_STATE: LabelName := "config_state"
  const CONFLICT_DETECTION_STATE: LabelName := "conflict_detection_state"
  const LICENSE_STATUS: LabelName := "license_status"
  const NODE_NAME: LabelName := "node_name"
  const PERFORMANCE_TIER: LabelName := "performance_tier"
  const REDUNDANCY_MODE: LabelName := "redundancy_mode"
  const ROLE: LabelName := "role"
  const SERIAL: LabelName := "serial"
  const SOFTWARE_VERSION: LabelName := "software_version"

  /** An absent or unrecognized value is shown as unknown, a recognized one in lower case. */
  function Classified(raw: Option<string>, vocabulary: map<string, string>): string
  {
    if raw.Some? && raw.value in vocabulary then vocabulary[raw.value] else "unknown"
  }

  function OrEmpty(s: Option<string>): string { if s.Some? then s.value else "" }

  function Connectivity(raw: Option<string>): Option<real>
  {
    if raw == Some("ONLINE") then Some(1.0) else if raw == Some("UNREACHABLE") then Some(0.0) else None
  }

  function InfoLabels(e: Entry): Labels
  {
    Collector.DeviceLabels(e.device)
    + [Label(PERFORMANCE_TIER, OrEmpty(e.performanceTier)),
       Label(REDUNDANCY_MODE, Classified(e.redundancyMode, map["STANDALONE" := "standalone", "HA" := "ha"])),
       Label(SERIAL, OrEmpty(e.serial)),
       Label(SOFTWARE_VERSION, OrEmpty(e.softwareVersion))]
  }

  function StatusLabels(e: Entry): Labels
  {
    [Label(COMPLIANCE_STATUS, Classified(e.complianceStatus, map["IN_COMPLIANCE" := "in_compliance"])),
     Label(CONFIG_STATE, Classified(e.configState, map["SYNCED" := "synced", "NOT_SYNCED" := "not_synced"])),
     Label(CONFLICT_DETECTION_STATE, Classified(e.conflictDetectionState, map["NO_CONFLICTS" := "no_conflicts"]))]
    + Collector.DeviceLabels(e.device)
    + [Label(LICENSE_STATUS, Classified(e.licenseStatus, map["LICENSED" := "licensed"]))]
  }

  function RoleLabels(d: Collector.Device, n: HaNode): Labels
  {
    Collector.DeviceLabels(d)
    + [Label(NODE_NAME, n.name),
       Label(Collector.NODE_TYPE, Collector.NodeTypeLabel(n.nodeType)),
       Label(ROLE, Classified(n.role, map["ACTIVE" := "active", "STANDBY" := "standby"]))]
  }

  function EntryReadings(e: Entry): seq<Reading<InventoryGauge>>
  {
    [Reading(DeviceInfo, InfoLabels(e), Some(1.0)),
     Reading(DeviceConnectivityUp, Collector.DeviceLabels(e.device), Connectivity(e.connectivityState)),
     Reading(DeviceStatusInfo, StatusLabels(e), Some(1.0))]
  }

  function NodeReadings(d: Collector.Device, nodes: seq<HaNode>): (r: seq<Reading<InventoryGauge>>)
    ensures |r| == |nodes|
  {
    if nodes == [] then []
    else
      var last := nodes[|nodes| - 1];
      NodeReadings(d, nodes[..|nodes| - 1]) + [Reading(DeviceHaRoleInfo, RoleLabels(d, last), Some(1.0))]
  }

  type Writes = seq<Write<InventoryGauge>>

  function RenderedEntries(entries: seq<Entry>): Writes
  {
    if entries == [] then []
    else
      var last := entries[|entries| - 1];
      Rendered(Rendered(RenderedEntries(entries[..|entries| - 1]), EntryReadings(last)), NodeReadings(last.device, last.haNodes))
  }

  // ------------------------------------------------------------ connectivity

  /** Whether the last entry of a device that says either way says it is reachable. */
  function LastConnectivity(entries: seq<Entry>, d: Collector.Device): Option<real>
  {
    if entries == [] then None
    else
      var last := entries[|entries| - 1];
      if last.device == d && last.connectivityState == Some("ONLINE") then Some(1.0)
      else if last.device == d && last.connectivityState == Some("UNREACHABLE") then Some(0.0)
      else LastConnectivity(entries[..|entries| - 1], d)
  }

  function ConnectivitySeries(d: Collector.Device): Series<InventoryGauge> { Series(DeviceConnectivityUp, Collector.DeviceLabels(d)) }

  lemma {:induction false} NodesAreElsewhere(before: Writes, d: Collector.Device, nodes: seq<HaNode>, s: Series<InventoryGauge>)
    requires !s.gauge.DeviceHaRoleInfo?
    ensures LastWrite(Rendered(before, NodeReadings(d, nodes)), s) == LastWrite(before, s)
  {
    if nodes != [] {
      var init, last := nodes[..|nodes| - 1], nodes[|nodes| - 1];
      NodesAreElsewhere(before, d, init, s);
      LastOfReadings(before, NodeReadings(d, init), Reading(DeviceHaRoleInfo, RoleLabels(d, last), Some(1.0)), s);
    }
  }

  lemma EntryConnectivity(before: Writes, e: Entry, d: Collector.Device)
    ensures LastWrite(Rendered(before, EntryReadings(e)), ConnectivitySeries(d))
            == if e.device == d && Connectivity(e.connectivityState).Some? then Connectivity(e.connectivityState)
               else LastWrite(before, ConnectivitySeries(d))
  {
    var all, s := EntryReadings(e), ConnectivitySeries(d);
    LastOfReadings(before, [], all[0], s);
    LastOfReadings(before, [all[0]], all[1], s);
    LastOfReadings(before, [all[0], all[1]], all[2], s);
    assert [] + [all[0]] == [all[0]] && [all[0]] + [all[1]] == [all[0], all[1]] && [all[0], all[1]] + [all[2]] == all;
    SameDevice(e.device, d);
  }

  lemma SameDevice(a: Collector.Device, b: Collector.Device)
    ensures Collector.DeviceLabels(a) == Collector.DeviceLabels(b) <==> a == b
  {
    var x, y := Collector.DeviceLabels(a), Collector.DeviceLabels(b);
    if x == y {
      assert x[0] == y[0] && x[1] == y[1];
    }
  }

  /** Every device's connectivity is that of its last entry that states one, and absent if none does. */
  lemma ConnectivityFollowsTheLastEntry(entries: seq<Entry>, d: Collector.Device)
    ensures var store, s := Stored(RenderedEntries(entries)), ConnectivitySeries(d);
            && (s in store <==> LastConnectivity(entries, d).Some?)
            && (s in store ==> store[s] == LastConnectivity(entries, d).value)
  {
    StoredIsLastWrite(RenderedEntries(entries), ConnectivitySeries(d));
    ConnectivityWrite(entries, d);
  }

  lemma {:induction false} ConnectivityWrite(entries: seq<Entry>, d: Collector.Device)
    ensures LastWrite(RenderedEntries(entries), ConnectivitySeries(d)) == LastConnectivity(entries, d)
  {
    if entries != [] {
      var init, last := entries[..|entries| - 1], entries[|entries| - 1];
      ConnectivityWrite(init, d);
      EntryConnectivity(RenderedEntries(init), last, d);
      NodesAreElsewhere(Rendered(RenderedEntries(init), EntryReadings(last)), last.device, last.haNodes, ConnectivitySeries(d));
    }
  }

  // -------------------------------------------------------- what is described

  /** The labels name the device first; an absent detail is empty. */
  predicate DescribesDevice(labels: Labels, e: Entry)
  {
    && |labels| == 6
    && labels[0] == Label(Collector.DEVICE_NAME, e.device.name)
    && labels[1] == Label(Collector.DEVICE_UID, e.device.uid)
    && labels[2] == Label(PERFORMANCE_TIER, if e.performanceTier.None? then "" else e.performanceTier.value)
    && labels[3].name == REDUNDANCY_MODE && IsWordOf(labels[3].value, e.redundancyMode, "STANDALONE", "standalone", "HA", "ha")
    && labels[4] == Label(SERIAL, if e.serial.None? then "" else e.serial.value)
    && labels[5] == Label(SOFTWARE_VERSION, if e.softwareVersion.None? then "" else e.softwareVersion.value)
  }

  /** One of two known words in lower case, or unknown. */
  predicate IsWordOf(shown: string, raw: Option<string>, a: string, lowerA: string, b: string, lowerB: string)
  {
    && (raw == Some(a) ==> shown == lowerA)
    && (raw == Some(b) ==> shown == lowerB)
    && (raw != Some(a) && raw != Some(b) ==> shown == "unknown")
  }

  predicate DescribesStatus(labels: Labels, e: Entry)
  {
    && |labels| == 6
    && labels[0].name == COMPLIANCE_STATUS && (labels[0].value == if e.complianceStatus == Some("IN_COMPLIANCE") then "in_compliance" else "unknown")
    && labels[1].name == CONFIG_STATE && IsWordOf(labels[1].value, e.configState, "SYNCED", "synced", "NOT_SYNCED", "not_synced")
    && labels[2].name == CONFLICT_DETECTION_STATE
    && labels[2].value == (if e.conflictDetectionState == Some("NO_CONFLICTS") then "no_conflicts" else "unknown")
    && labels[3] == Label(Collector.DEVICE_NAME, e.device.name)
    && labels[4] == Label(Collector.DEVICE_UID, e.device.uid)
    && labels[5].name == LICENSE_STATUS && labels[5].value == if e.licenseStatus == Some("LICENSED") then "licensed" else "unknown"
  }

  predicate DescribesNode(labels: Labels, d: Collector.Device, n: HaNode)
  {
    && |labels| == 5
    && labels[0] == Label(Collector.DEVICE_NAME, d.name)
    && labels[1] == Label(Collector.DEVICE_UID, d.uid)
    && labels[2] == Label(NODE_NAME, n.name)
    && labels[3].name == Collector.NODE_TYPE && IsWordOf(labels[3].value, Some(n.nodeType), "PRIMARY", "primary", "SECONDARY", "secondary")
    && labels[4].name == ROLE && IsWordOf(labels[4].value, n.role, "ACTIVE", "active", "STANDBY", "standby")
  }

  /** The series tells what the entry, or one of its HA nodes, is. */
  ghost predicate Describes(s: Series<InventoryGauge>, e: Entry)
  {
    match s.gauge
    case DeviceInfo => DescribesDevice(s.labels, e)
    case DeviceStatusInfo => DescribesStatus(s.labels, e)
    case DeviceHaRoleInfo => exists n :: n in e.haNodes && DescribesNode(s.labels, e.device, n)
    case DeviceConnectivityUp =>
      s == ConnectivitySeries(e.device) && (e.connectivityState == Some("ONLINE") || e.connectivityState == Some("UNREACHABLE"))
  }

  lemma InfoDescribes(e: Entry, labels: Labels)
    ensures DescribesDevice(labels, e) <==> labels == InfoLabels(e)
  {
  }

  lemma StatusDescribes(e: Entry, labels: Labels)
    ensures DescribesStatus(labels, e) <==> labels == StatusLabels(e)
  {
  }

  lemma RoleDescribes(d: Collector.Device, n: HaNode, labels: Labels)
    ensures DescribesNode(labels, d, n) <==> labels == RoleLabels(d, n)
  {
  }

  ghost predicate Says(readings: seq<Reading<InventoryGauge>>, s: Series<InventoryGauge>)
  {
    exists r :: r in readings && r.value.Some? && Series(r.gauge, r.labels) == s
  }

  /** The info gauges are always written as 1. */
  ghost predicate InfosAreOne(readings: seq<Reading<InventoryGauge>>)
  {
    forall r :: r in readings && !r.gauge.DeviceConnectivityUp? ==> r.value == Some(1.0)
  }

  predicate IsInfo(s: Series<InventoryGauge>) { !s.gauge.DeviceConnectivityUp? }

  lemma {:induction false} StoredAfter(before: Writes, readings: seq<Reading<InventoryGauge>>, s: Series<InventoryGauge>)
    ensures LastWrite(Rendered(before, readings), s).Some? <==> LastWrite(before, s).Some? || Says(readings, s)
    ensures InfosAreOne(readings) && IsInfo(s) && LastWrite(before, s) in {None, Some(1.0)} ==>
              LastWrite(Rendered(before, readings), s) in {None, Some(1.0)}
  {
    if readings != [] {
      var init, last := readings[..|readings| - 1], readings[|readings| - 1];
      StoredAfter(before, init, s);
      assert readings == init + [last];
      LastOfReadings(before, init, last, s);
    }
  }

  lemma EntrySays(e: Entry, s: Series<InventoryGauge>)
    ensures InfosAreOne(EntryReadings(e)) && (Says(EntryReadings(e), s) <==> Describes(s, e) && !s.gauge.DeviceHaRoleInfo?)
  {
    InfoDescribes(e, s.labels);
    StatusDescribes(e, s.labels);
    var readings := EntryReadings(e);
    assert readings[0] in readings && readings[1] in readings && readings[2] in readings;
  }

  lemma {:induction false} NodesSay(d: Collector.Device, nodes: seq<HaNode>, s: Series<InventoryGauge>)
    ensures InfosAreOne(NodeReadings(d, nodes))
    ensures Says(NodeReadings(d, nodes), s) <==> s.gauge.DeviceHaRoleInfo? && exists n :: n in nodes && DescribesNode(s.labels, d, n)
  {
    if nodes != [] {
      var init, last := nodes[..|nodes| - 1], nodes[|nodes| - 1];
      NodesSay(d, init, s);
      RoleDescribes(d, last, s.labels);
      var r := Reading(DeviceHaRoleInfo, RoleLabels(d, last), Some(1.0));
      assert NodeReadings(d, nodes) == NodeReadings(d, init) + [r] && nodes == init + [last];
      assert r in NodeReadings(d, nodes);
    }
  }

  lemma OneMoreEntry(before: Writes, e: Entry, s: Series<InventoryGauge>)
    ensures var after := LastWrite(Rendered(Rendered(before, EntryReadings(e)), NodeReadings(e.device, e.haNodes)), s);
            && (after.Some? <==> LastWrite(before, s).Some? || Describes(s, e))
            && (IsInfo(s) && LastWrite(before, s) in {None, Some(1.0)} ==> after in {None, Some(1.0)})
  {
    EntrySays(e, s);
    NodesSay(e.device, e.haNodes, s);
    StoredAfter(before, EntryReadings(e), s);
    StoredAfter(Rendered(before, EntryReadings(e)), NodeReadings(e.device, e.haNodes), s);
  }

  lemma {:induction false} EntriesSay(entries: seq<Entry>, s: Series<InventoryGauge>)
    ensures LastWrite(RenderedEntries(entries), s).Some? <==> exists e :: e in entries && Describes(s, e)
    ensures IsInfo(s) ==> LastWrite(RenderedEntries(entries), s) in {None, Some(1.0)}
  {
    if entries != [] {
      var init, last := entries[..|entries| - 1], entries[|entries| - 1];
      EntriesSay(init, s);
      assert entries == init + [last];
      OneMoreEntry(RenderedEntries(init), last, s);
    }
  }

  /** The gauges hold exactly the series that describe an entry of the list, each info series as 1. */
  lemma EverySeriesDescribesAnEntry(entries: seq<Entry>, s: Series<InventoryGauge>)
    ensures var store := Stored(RenderedEntries(entries));
            && (s in store <==> exists e :: e in entries && Describes(s, e))
            && (s in store && IsInfo(s) ==> store[s] == 1.0)
  {
    EntriesSay(entries, s);
    StoredIsLastWrite(RenderedEntries(entries), s);
  }

  // --------------------------------------------------------------- operation

  /** The reported count is exactly the number of stored series, whatever their labels contain. */
  method RenderDeviceInventoryMetrics(r: Renderer<InventoryGauge>, entries: seq<Entry>) returns (seriesCount: nat)
    requires r.style.Json?
    modifies r
    ensures r.Valid() && r.store == Stored(RenderedEntries(entries))
    ensures seriesCount == |r.store|
  {
    r.Reset();
    for k := 0 to |entries|
      invariant r.Valid() && r.writes == RenderedEntries(entries[..k])
    {
      r.SetPresent(EntryReadings(entries[k]));
      r.SetPresent(NodeReadings(entries[k].device, entries[k].haNodes));
      assert entries[..k + 1][..k] == entries[..k];
    }
    assert entries[..|entries|] == entries;
    JsonCountIsExact(r.writes);
    seriesCount := |r.seenSeries|;
  }
}
