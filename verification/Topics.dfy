/**
 * What the series of the device collector are about: a device, and perhaps a
 * component, a tag, an interface or a tunnel of it. For each topic, the exact
 * condition under which no other reads the same in the comma key.
 */
module Topics {
  import opened Prelude
  import opened SeriesKeys
  import opened Collector
  import opened KeyText

  /** `name` and `kind` of an interface are the labels, after the fallback and without an empty type. */
  datatype Topic =
    | DeviceTopic(device: Device)
    | ComponentTopic(device: Device, component: string)
    | TagTopic(device: Device, tag: string)
    | InterfaceTopic(device: Device, id: string, name: string, kind: Option<string>)
    | DuplexTopic(device: Device, duplex: string, id: string, name: string, kind: Option<string>)
    | TunnelTopic(device: Device, state: string, id: string, name: string)

  const COMPONENTS: set<string> := {"lina", "snort", "system"}
  const TUNNEL_STATES: set<string> := {"up", "down", "unknown"}

  /** The label that a gauge by tag has beside the device's. */
  function TagName(g: Gauge): LabelName
  {
    match g
    case ChassisFanRpm => FAN
    case HaNodeStatus => STATUS
    case HaNodeInfo => NODE_TYPE
    case _ => PSU
  }

  function Tags(g: Gauge): set<string>
  {
    match g
    case ChassisFanRpm => {"1", "2", "3", "4"}
    case HaNodeStatus => {"normal", "error", "warning", "disabled", "unknown"}
    case HaNodeInfo => {"primary", "secondary", "unknown"}
    case _ => {"1", "2"}
  }

  predicate HasForm(g: Gauge, t: Topic)
  {
    match g
    case CpuUsageRatio => t.ComponentTopic?
    case MemoryUsageRatio => t.ComponentTopic?
    case DiskUsageRatio => t.DeviceTopic?
    case ChassisFanRpm => t.TagTopic?
    case ChassisPsuFanUp => t.TagTopic?
    case ChassisPsuInputUp => t.TagTopic?
    case ChassisPsuOutputUp => t.TagTopic?
    case HaNodeStatus => t.TagTopic?
    case HaNodeInfo => t.TagTopic?
    case RavpnSessionsActiveAvg => t.DeviceTopic?
    case RavpnSessionsInactiveAvg => t.DeviceTopic?
    case RavpnSessionsPeakConcurrent => t.DeviceTopic?
    case S2sTunnelState => t.TunnelTopic?
    case HealthWindowStartTimestampSeconds => t.DeviceTopic?
    case HealthWindowEndTimestampSeconds => t.DeviceTopic?
    case InterfaceDuplexInfo => t.DuplexTopic?
    case _ => t.InterfaceTopic?
  }

  /** The topics a gauge can have: the mappers require every id and name to be there, and write no other constants. */
  predicate Fits(g: Gauge, t: Topic)
  {
    && HasForm(g, t) && t.device.name != "" && t.device.uid != ""
    && (t.ComponentTopic? ==> t.component in COMPONENTS)
    && (t.TagTopic? ==> t.tag in Tags(g))
    && (t.DuplexTopic? ==> t.duplex != "")
    && (t.InterfaceTopic? || t.DuplexTopic? ==> t.id != "" && t.name != "" && t.kind != Some(""))
    && (t.TunnelTopic? ==> t.state in TUNNEL_STATES && t.id != "" && t.name != "")
  }

  function NamedInterface(id: string, name: string, kind: Option<string>): Labels
  {
    [Label(INTERFACE, id), Label(INTERFACE_NAME, name)] + if kind.Some? then [Label(INTERFACE_TYPE, kind.value)] else []
  }

  function LabelsFor(g: Gauge, t: Topic): Labels
  {
    match t
    case DeviceTopic(d) => DeviceLabels(d)
    case ComponentTopic(d, component) => ComponentLabels(component, d)
    case TagTopic(d, tag) => DeviceLabels(d) + [Label(TagName(g), tag)]
    case InterfaceTopic(d, id, name, kind) => DeviceLabels(d) + NamedInterface(id, name, kind)
    case DuplexTopic(d, duplex, id, name, kind) =>
      DeviceLabels(d) + [Label(DUPLEX_MODE, duplex)] + NamedInterface(id, name, kind)
    case TunnelTopic(d, state, id, name) =>
      DeviceLabels(d) + [Label(STATE, state), Label(TUNNEL_ID, id), Label(TUNNEL_NAME, name)]
  }

  // -------------------------------------------------------------- topics as lines

  const UID: string := Marker(DEVICE_UID)
  const ID: string := Marker(INTERFACE)
  const NAME: string := Marker(INTERFACE_NAME)
  const KIND: string := Marker(INTERFACE_TYPE)
  const DUPLEX: string := Marker(DUPLEX_MODE)
  const TUNNEL: string := Marker(TUNNEL_NAME)

  /** What stands between a device's uid and a tunnel's id; the state is one of three words. */
  function StateMarker(state: string): string { Pair(STATE, state, TUNNEL_ID) }

  const STATE_MARKERS: set<string> := {StateMarker("up"), StateMarker("down"), StateMarker("unknown")}

  /** A type is written where the name would go on. */
  function NameAndKind(name: string, kind: Option<string>): string { if kind.None? then name else name + (KIND + kind.value) }

  function InterfaceLine(id: string, name: string, kind: Option<string>): Line
  {
    More(id, false, {NAME}, NAME, Last(NameAndKind(name, kind), false))
  }

  function LineFor(t: Topic): Line
  {
    var d := t.device;
    match t
    case InterfaceTopic(_, id, name, kind) =>
      More(d.name, false, {UID}, UID, More(d.uid, false, {ID}, ID, InterfaceLine(id, name, kind)))
    case DuplexTopic(_, duplex, id, name, kind) =>
      More(d.name, false, {UID}, UID,
        More(d.uid, false, {DUPLEX}, DUPLEX, More(duplex, false, {ID}, ID, InterfaceLine(id, name, kind))))
    case TunnelTopic(_, state, id, name) =>
      More(d.name, false, {UID}, UID,
        More(d.uid, false, STATE_MARKERS, StateMarker(state), More(id, false, {TUNNEL}, TUNNEL, Last(name, false))))
    case _ => More(d.name, false, {UID}, UID, Last(d.uid, false))
  }

  function MarkersFor(t: Topic): set<string>
  {
    if t.TunnelTopic? then {UID, TUNNEL} + STATE_MARKERS else {UID, DUPLEX, ID, NAME}
  }

  function Tail(g: Gauge, t: Topic): string { if t.TagTopic? then Marker(TagName(g)) + t.tag else "" }

  lemma TextOfOneMore(a: Label, rest: Labels)
    requires rest != []
    ensures Text(LineOf([a] + rest)) == a.value + (Marker(rest[0].name) + Text(LineOf(rest)))
  {
    assert ([a] + rest)[1..] == rest;
  }

  lemma AfterDevice(d: Device, more: Labels)
    requires more != []
    ensures Joined(DeviceLabels(d) + more)
            == "device_name=" + (d.name + (UID + (d.uid + (Marker(more[0].name) + Text(LineOf(more))))))
  {
    var name, uid := Label(DEVICE_NAME, d.name), Label(DEVICE_UID, d.uid);
    assert DeviceLabels(d) + more == [name] + ([uid] + more);
    AfterTwoLabels(name, uid, more);
    assert name.name + "=" == "device_name=";
  }

  lemma AfterTwoLabels(a: Label, b: Label, more: Labels)
    requires more != []
    ensures Joined([a] + ([b] + more))
            == (a.name + "=") + (a.value + (Marker(b.name) + (b.value + (Marker(more[0].name) + Text(LineOf(more))))))
  {
    JoinedIsText([a] + ([b] + more));
    TextOfOneMore(a, [b] + more);
    TextOfOneMore(b, more);
  }

  lemma InterfaceReads(id: string, name: string, kind: Option<string>)
    ensures Text(LineOf(NamedInterface(id, name, kind))) == Text(InterfaceLine(id, name, kind))
  {
    var a, b := Label(INTERFACE, id), Label(INTERFACE_NAME, name);
    var rest := [b] + if kind.Some? then [Label(INTERFACE_TYPE, kind.value)] else [];
    assert NamedInterface(id, name, kind) == [a] + rest;
    TextOfOneMore(a, rest);
    if kind.Some? {
      TextOfOneMore(b, [Label(INTERFACE_TYPE, kind.value)]);
    }
  }

  lemma TunnelReads(d: Device, state: string, id: string, name: string)
    ensures Joined(LabelsFor(S2sTunnelState, TunnelTopic(d, state, id, name)))
            == "device_name=" + Text(LineFor(TunnelTopic(d, state, id, name)))
  {
    var a, b, c := Label(STATE, state), Label(TUNNEL_ID, id), Label(TUNNEL_NAME, name);
    assert [a, b, c] == [a] + ([b] + [c]);
    AfterDevice(d, [a] + ([b] + [c]));
    TextOfOneMore(a, [b] + [c]);
    TextOfOneMore(b, [c]);
    var after := id + (TUNNEL + name);
    Regroup(Marker(STATE), state + Marker(TUNNEL_ID), after);
    Regroup(state, Marker(TUNNEL_ID), after);
    var line := LineFor(TunnelTopic(d, state, id, name));
    assert Text(line.rest.rest) == after;
    assert Text(line.rest) == d.uid + (StateMarker(state) + after);
  }

  lemma DuplexReads(g: Gauge, d: Device, duplex: string, id: string, name: string, kind: Option<string>)
    ensures Joined(LabelsFor(g, DuplexTopic(d, duplex, id, name, kind)))
            == "device_name=" + Text(LineFor(DuplexTopic(d, duplex, id, name, kind)))
  {
    var a, more := Label(DUPLEX_MODE, duplex), NamedInterface(id, name, kind);
    assert LabelsFor(g, DuplexTopic(d, duplex, id, name, kind)) == DeviceLabels(d) + ([a] + more);
    AfterDevice(d, [a] + more);
    TextOfOneMore(a, more);
    InterfaceReads(id, name, kind);
    var line := LineFor(DuplexTopic(d, duplex, id, name, kind));
    assert Text(line.rest.rest) == duplex + (ID + Text(InterfaceLine(id, name, kind)));
    assert Text(line.rest) == d.uid + (DUPLEX + Text(line.rest.rest));
  }

  lemma ComponentReads(g: Gauge, d: Device, component: string)
    ensures Joined(LabelsFor(g, ComponentTopic(d, component)))
            == "component=" + (component + "," + ("device_name=" + Text(LineFor(ComponentTopic(d, component)))))
  {
    var a, b, c := Label(COMPONENT, component), Label(DEVICE_NAME, d.name), Label(DEVICE_UID, d.uid);
    assert ComponentLabels(component, d) == [a] + ([b] + [c]);
    JoinedIsText([a] + ([b] + [c]));
    TextOfOneMore(a, [b] + [c]);
    TextOfOneMore(b, [c]);
    var text := d.name + (UID + d.uid);
    assert Marker(DEVICE_NAME) == "," + "device_name=";
    Regroup(",", "device_name=", text);
    Regroup(component, ",", "device_name=" + text);
  }

  lemma TagReads(g: Gauge, d: Device, tag: string)
    ensures var t := TagTopic(d, tag); Joined(LabelsFor(g, t)) == "device_name=" + (Text(LineFor(t)) + Tail(g, t))
  {
    AfterDevice(d, [Label(TagName(g), tag)]);
    var tail := Marker(TagName(g)) + tag;
    Regroup(UID, d.uid, tail);
    Regroup(d.name, UID + d.uid, tail);
  }

  /** The labels of a topic, written down. */
  lemma Reads(g: Gauge, t: Topic)
    requires HasForm(g, t) && !t.ComponentTopic?
    ensures Joined(LabelsFor(g, t)) == "device_name=" + (Text(LineFor(t)) + Tail(g, t))
  {
    match t {
      case DeviceTopic(d) =>
        var labels := LabelsFor(g, t);
        JoinedIsText(labels);
        assert labels[1..] == [labels[1]];
      case TagTopic(d, tag) => TagReads(g, d, tag);
      case InterfaceTopic(d, id, name, kind) =>
        AfterDevice(d, NamedInterface(id, name, kind));
        InterfaceReads(id, name, kind);
      case DuplexTopic(d, duplex, id, name, kind) => DuplexReads(g, d, duplex, id, name, kind);
      case TunnelTopic(d, state, id, name) => TunnelReads(d, state, id, name);
    }
  }

  // ------------------------------------------------------------- rigid markers

  lemma StateMarkersDiffer(a: string, b: string)
    requires a in TUNNEL_STATES && b in TUNNEL_STATES && StateMarker(a) == StateMarker(b)
    ensures a == b
  {
    PairsOfWordsAgree(STATE, a, b, TUNNEL_ID);
  }

  lemma TunnelMarkersAreRigid()
    ensures Rigid({UID, TUNNEL} + STATE_MARKERS)
  {
    var names: set<LabelName> := {DEVICE_UID, TUNNEL_NAME};
    forall m | m in {UID, TUNNEL} + STATE_MARKERS ensures SimpleOrPair(names, STATE, TUNNEL_STATES, TUNNEL_ID, m) {
      if m in STATE_MARKERS {
        var w: string :| w in TUNNEL_STATES && m == StateMarker(w);
      } else {
        assert m == Marker(DEVICE_UID) || m == Marker(TUNNEL_NAME);
      }
    }
    PairsAreRigid({UID, TUNNEL} + STATE_MARKERS, names, STATE, TUNNEL_STATES, TUNNEL_ID);
  }

  lemma TopicMarkersAreRigid(t: Topic)
    ensures Rigid(MarkersFor(t))
  {
    if t.TunnelTopic? {
      TunnelMarkersAreRigid();
    } else {
      assert exists n: LabelName :: Marker(n) == UID by { assert Marker(DEVICE_UID) == UID; }
      assert exists n: LabelName :: Marker(n) == DUPLEX by { assert Marker(DUPLEX_MODE) == DUPLEX; }
      assert exists n: LabelName :: Marker(n) == ID by { assert Marker(INTERFACE) == ID; }
      assert exists n: LabelName :: Marker(n) == NAME by { assert Marker(INTERFACE_NAME) == NAME; }
      LabelMarkersAreRigid({UID, DUPLEX, ID, NAME});
    }
  }

  // ---------------------------------------------------------------- reading alike

  lemma FirstPartsMatch(a: string, x: string, b: string, y: string)
    requires Without(a, ',') && Without(b, ',') && a + "," + x == b + "," + y
    ensures a == b && x == y
  {
    var s := a + "," + x;
    FindAfter(a, ',', x);
    FindAfter(b, ',', y);
    assert a == s[..|a|] && b == s[..|a|];
    assert x == s[|a| + 1..] && y == s[|a| + 1..];
  }

  /** Topics of one gauge read alike if their lines do and they have the same constants. */
  ghost predicate ReadAlike(t: Topic, u: Topic)
  {
    && Text(LineFor(t)) == Text(LineFor(u))
    && (t.ComponentTopic? && u.ComponentTopic? ==> t.component == u.component)
    && (t.TagTopic? && u.TagTopic? ==> t.tag == u.tag)
  }

  lemma SameKeyIff(g: Gauge, t: Topic, u: Topic)
    requires Fits(g, t) && Fits(g, u)
    ensures Joined(LabelsFor(g, t)) == Joined(LabelsFor(g, u)) <==> ReadAlike(t, u)
  {
    if t.ComponentTopic? {
      SameComponentKeyIff(g, t, u);
    } else {
      Reads(g, t);
      Reads(g, u);
      if Joined(LabelsFor(g, t)) == Joined(LabelsFor(g, u)) {
        TailsMatch(g, t, u, Text(LineFor(t)), Text(LineFor(u)));
      }
    }
  }

  lemma TailsMatch(g: Gauge, t: Topic, u: Topic, x: string, y: string)
    requires Fits(g, t) && Fits(g, u) && "device_name=" + (x + Tail(g, t)) == "device_name=" + (y + Tail(g, u))
    ensures x == y && (t.TagTopic? ==> t.tag == u.tag)
  {
    AfterPrefix("device_name=", x + Tail(g, t), "device_name=", y + Tail(g, u));
    if t.TagTopic? {
      TagsHaveNoCommas(g, t.tag);
      TagsHaveNoCommas(g, u.tag);
      LastPartsMatch(TagName(g), x, t.tag, y, u.tag);
    } else {
      assert x + "" == x && y + "" == y;
    }
  }

  lemma TagsHaveNoCommas(g: Gauge, tag: string)
    requires tag in Tags(g)
    ensures Without(tag, ',')
  {
  }

  lemma SameComponentKeyIff(g: Gauge, t: Topic, u: Topic)
    requires Fits(g, t) && Fits(g, u) && t.ComponentTopic?
    ensures Joined(LabelsFor(g, t)) == Joined(LabelsFor(g, u)) <==> ReadAlike(t, u)
  {
    ComponentReads(g, t.device, t.component);
    ComponentReads(g, u.device, u.component);
    if Joined(LabelsFor(g, t)) == Joined(LabelsFor(g, u)) {
      ComponentsMatch(t.component, Text(LineFor(t)), u.component, Text(LineFor(u)));
    }
  }

  lemma ComponentsMatch(a: string, x: string, b: string, y: string)
    requires a in COMPONENTS && b in COMPONENTS
    requires "component=" + (a + "," + ("device_name=" + x)) == "component=" + (b + "," + ("device_name=" + y))
    ensures a == b && x == y
  {
    assert Without(a, ',') && Without(b, ',');
    AfterPrefix("component=", a + "," + ("device_name=" + x), "component=", b + "," + ("device_name=" + y));
    FirstPartsMatch(a, "device_name=" + x, b, "device_name=" + y);
    AfterPrefix("device_name=", x, "device_name=", y);
  }

  // --------------------------------------------------- when a topic reads alone

  predicate Kinded(t: Topic) { t.InterfaceTopic? || t.DuplexTopic? }

  /** The value can be taken apart at the marker, with something on both sides. */
  predicate SplitsInside(value: string, marker: string)
  {
    exists i: nat :: i <= |value| && PlacedAt(value, marker, i) && 0 < i && i + |marker| < |value|
  }

  /**
   * No value holds a marker that could stand for one of its neighbours, and an
   * interface's name and type, as written, cannot be taken apart.
   */
  ghost predicate Alone(t: Topic)
  {
    Clear(LineFor(t)) && (Kinded(t) ==> !SplitsInside(NameAndKind(t.name, t.kind), KIND))
  }

  /** No other topic of the gauge has the same text. */
  ghost predicate Unambiguous(g: Gauge, t: Topic)
  {
    forall u :: Fits(g, u) && Joined(LabelsFor(g, u)) == Joined(LabelsFor(g, t)) ==> u == t
  }

  lemma FittingTunnels(g: Gauge, t: Topic, u: Topic)
    requires Fits(g, t) && Fits(g, u) && t.TunnelTopic?
    ensures Proper(MarkersFor(t), LineFor(t)) && SameShape(LineFor(t), LineFor(u))
  {
    var x, y := LineFor(t).rest, LineFor(u).rest;
    assert StateMarker(t.state) in STATE_MARKERS;
    assert Proper(MarkersFor(t), x.rest) && SameShape(x.rest, y.rest);
    assert Proper(MarkersFor(t), x) && SameShape(x, y);
  }

  lemma FittingInterfaceLines(id: string, name: string, kind: Option<string>, id': string, name': string, kind': Option<string>)
    requires id != "" && name != ""
    ensures Proper({UID, DUPLEX, ID, NAME}, InterfaceLine(id, name, kind))
    ensures SameShape(InterfaceLine(id, name, kind), InterfaceLine(id', name', kind'))
  {
  }

  lemma FittingInterfaces(g: Gauge, t: Topic, u: Topic)
    requires Fits(g, t) && Fits(g, u) && Kinded(t)
    ensures Proper(MarkersFor(t), LineFor(t)) && SameShape(LineFor(t), LineFor(u))
  {
    FittingInterfaceLines(t.id, t.name, t.kind, u.id, u.name, u.kind);
    var x, y := LineFor(t).rest, LineFor(u).rest;
    assert Proper(MarkersFor(t), x.rest) && SameShape(x.rest, y.rest);
    assert Proper(MarkersFor(t), x) && SameShape(x, y);
  }

  lemma FittingLines(g: Gauge, t: Topic, u: Topic)
    requires Fits(g, t) && Fits(g, u)
    ensures MarkersFor(t) == MarkersFor(u) && Proper(MarkersFor(t), LineFor(t)) && SameShape(LineFor(t), LineFor(u))
  {
    if t.TunnelTopic? {
      FittingTunnels(g, t, u);
    } else if Kinded(t) {
      FittingInterfaces(g, t, u);
    }
  }

  function StateOf(marker: string): string
  {
    if marker == StateMarker("up") then "up" else if marker == StateMarker("down") then "down" else "unknown"
  }

  lemma StateOfMarker(state: string)
    requires state in TUNNEL_STATES
    ensures StateOf(StateMarker(state)) == state
  {
    if StateMarker(state) == StateMarker("up") {
      StateMarkersDiffer(state, "up");
    } else if StateMarker(state) == StateMarker("down") {
      StateMarkersDiffer(state, "down");
    }
  }

  /** The topic like t whose values are those of the line, and which has no type. */
  function TopicWith(t: Topic, l: Line): Topic
    requires SameShape(LineFor(t), l)
  {
    assert SameShape(LineFor(t).rest, l.rest);
    assert LineFor(t).rest.More? ==> SameShape(LineFor(t).rest.rest, l.rest.rest);
    assert t.DuplexTopic? ==> SameShape(LineFor(t).rest.rest.rest, l.rest.rest.rest);
    var d := Device(l.rest.value, l.value);
    match t
    case DeviceTopic(_) => DeviceTopic(d)
    case ComponentTopic(_, component) => ComponentTopic(d, component)
    case TagTopic(_, tag) => TagTopic(d, tag)
    case InterfaceTopic(_, _, _, _) => InterfaceTopic(d, l.rest.rest.value, l.rest.rest.rest.value, None)
    case DuplexTopic(_, _, _, _, _) =>
      DuplexTopic(d, l.rest.rest.value, l.rest.rest.rest.value, l.rest.rest.rest.rest.value, None)
    case TunnelTopic(_, _, _, _) => TunnelTopic(d, StateOf(l.rest.marker), l.rest.rest.value, l.rest.rest.rest.value)
  }

  lemma TopicWithFits(g: Gauge, t: Topic, l: Line)
    requires Fits(g, t) && SameShape(LineFor(t), l) && Proper(MarkersFor(t), l)
    ensures Fits(g, TopicWith(t, l)) && LineFor(TopicWith(t, l)) == l
  {
    if LineFor(t).rest.More? {
      var x, y := LineFor(t).rest.rest, l.rest.rest;
      assert SameShape(x, y) && Proper(MarkersFor(t), y);
      assert SameShape(x.rest, y.rest) && Proper(MarkersFor(t), y.rest);
      if x.rest.More? {
        assert SameShape(x.rest.rest, y.rest.rest) && Proper(MarkersFor(t), y.rest.rest);
      }
      if t.TunnelTopic? {
        assert l.rest.marker in STATE_MARKERS;
        StateOfMarker(StateOf(l.rest.marker));
      }
    }
  }

  lemma SameLineSameTopic(g: Gauge, t: Topic, u: Topic)
    requires Fits(g, t) && Fits(g, u) && ReadAlike(t, u) && LineFor(t) == LineFor(u)
    ensures Kinded(t) ==> NameAndKind(t.name, t.kind) == NameAndKind(u.name, u.kind)
    ensures (Kinded(t) ==> t.kind.None? && u.kind.None?) ==> t == u
  {
    if t.TunnelTopic? {
      StateOfMarker(t.state);
      StateOfMarker(u.state);
    }
  }

  /** A type is always written where a longer name could stand. */
  lemma KindSplits(name: string, kind: string)
    requires name != "" && kind != ""
    ensures SplitsInside(NameAndKind(name, Some(kind)), KIND)
  {
    PlacedBetween(name, KIND, kind);
  }

  lemma AloneIsUnambiguous(g: Gauge, t: Topic, u: Topic)
    requires Fits(g, t) && Alone(t) && Fits(g, u) && Joined(LabelsFor(g, u)) == Joined(LabelsFor(g, t))
    ensures u == t
  {
    SameKeyIff(g, t, u);
    FittingLines(g, t, u);
    FittingLines(g, u, t);
    TopicMarkersAreRigid(t);
    ClearReadsBack(MarkersFor(t), LineFor(t), LineFor(u));
    SameLineSameTopic(g, t, u);
    if Kinded(t) {
      if t.kind.Some? {
        KindSplits(t.name, t.kind.value);
      }
      if u.kind.Some? {
        KindSplits(u.name, u.kind.value);
      }
    }
  }

  function Renamed(t: Topic, name: string, kind: Option<string>): Topic
  {
    match t
    case InterfaceTopic(d, id, _, _) => InterfaceTopic(d, id, name, kind)
    case DuplexTopic(d, duplex, id, _, _) => DuplexTopic(d, duplex, id, name, kind)
    case _ => t
  }

  /** The same interface with its name and type taken apart elsewhere, or put together. */
  lemma SplitNameReadsAlike(g: Gauge, t: Topic) returns (u: Topic)
    requires Fits(g, t) && Kinded(t) && SplitsInside(NameAndKind(t.name, t.kind), KIND)
    ensures Fits(g, u) && ReadAlike(u, t) && u != t
  {
    var full := NameAndKind(t.name, t.kind);
    if t.kind.Some? {
      u := Renamed(t, full, None);
    } else {
      var i: nat :| i <= |full| && PlacedAt(full, KIND, i) && 0 < i && i + |KIND| < |full|;
      PlacedSplits(full, KIND, i);
      var kind := Some(full[i + |KIND|..]);
      u := Renamed(t, full[..i], kind);
    }
  }

  lemma NotAloneIsAmbiguous(g: Gauge, t: Topic) returns (u: Topic)
    requires Fits(g, t) && !Alone(t)
    ensures Fits(g, u) && Joined(LabelsFor(g, u)) == Joined(LabelsFor(g, t)) && u != t
  {
    if Clear(LineFor(t)) {
      u := SplitNameReadsAlike(g, t);
    } else {
      TopicMarkersAreRigid(t);
      FittingLines(g, t, t);
      var line := UnclearReadsLikeAnother(MarkersFor(t), LineFor(t));
      TopicWithFits(g, t, line);
      u := TopicWith(t, line);
    }
    SameKeyIff(g, u, t);
  }

  /** The exact condition, for every gauge. */
  lemma UnambiguousIff(g: Gauge, t: Topic)
    requires Fits(g, t)
    ensures Unambiguous(g, t) <==> Alone(t)
  {
    if Alone(t) {
      forall u | Fits(g, u) && Joined(LabelsFor(g, u)) == Joined(LabelsFor(g, t)) ensures u == t {
        AloneIsUnambiguous(g, t, u);
      }
    } else {
      var u := NotAloneIsAmbiguous(g, t);
    }
  }

  /** An interface with a type is never unambiguous: an untyped one may have the type in its name. */
  lemma TypedInterfacesAreAmbiguous(g: Gauge, t: Topic)
    requires Fits(g, t) && Kinded(t) && t.kind.Some?
    ensures !Unambiguous(g, t)
  {
    KindSplits(t.name, t.kind.value);
    UnambiguousIff(g, t);
  }

  /** What it says of a device's name and uid, and of the rest of a line. */
  ghost predicate DeviceAlone(d: Device) { !EndsEarly(d.name, false, UID) && !BeginsLate(d.uid, false, UID) }

  lemma OneMarker(l: Line, marker: string)
    ensures NoneEndsEarly(l, {marker}) <==> !EndsEarly(l.value, l.mayBeEmpty, marker)
    ensures NoneBeginsLate(l, {marker}) <==> !BeginsLate(l.value, l.mayBeEmpty, marker)
  {
    assert marker in {marker};
  }

  lemma AloneNeedsItsDevice(t: Topic)
    ensures Alone(t) ==> DeviceAlone(t.device)
    ensures t.DeviceTopic? || t.ComponentTopic? || t.TagTopic? ==> (Alone(t) <==> DeviceAlone(t.device))
  {
    var line := LineFor(t);
    OneMarker(line, UID);
    OneMarker(line.rest, UID);
    assert line.slot == {UID} && line.value == t.device.name && line.rest.value == t.device.uid;
    assert Clear(line) <==> NoneEndsEarly(line, {UID}) && NoneBeginsLate(line.rest, {UID}) && Clear(line.rest);
    assert line.rest.Last? ==> Clear(line.rest);
  }

  /** Spelled out for an interface: name, uid, id and the name label, with a type written after it. */
  lemma InterfaceAloneIff(d: Device, id: string, name: string, kind: Option<string>)
    ensures var full := NameAndKind(name, kind);
            Alone(InterfaceTopic(d, id, name, kind))
            <==> && DeviceAlone(d)
                 && !EndsEarly(d.uid, false, ID) && !BeginsLate(id, false, ID)
                 && !EndsEarly(id, false, NAME) && !BeginsLate(full, false, NAME)
                 && !SplitsInside(full, KIND)
  {
    var line := LineFor(InterfaceTopic(d, id, name, kind));
    OneMarker(line, UID);
    OneMarker(line.rest, UID);
    OneMarker(line.rest, ID);
    OneMarker(line.rest.rest, ID);
    OneMarker(line.rest.rest, NAME);
    OneMarker(line.rest.rest.rest, NAME);
    assert Clear(line.rest.rest) <==> NoneEndsEarly(line.rest.rest, {NAME}) && NoneBeginsLate(line.rest.rest.rest, {NAME});
    assert Clear(line.rest) <==> NoneEndsEarly(line.rest, {ID}) && NoneBeginsLate(line.rest.rest, {ID}) && Clear(line.rest.rest);
  }

  lemma LabelsTellTopics(g: Gauge, t: Topic, u: Topic)
    requires HasForm(g, t) && HasForm(g, u) && LabelsFor(g, t) == LabelsFor(g, u)
    ensures t == u
  {
    var x, y := LabelsFor(g, t), LabelsFor(g, u);
    assert x[0] == y[0] && x[1] == y[1] && (|x| > 2 ==> x[2] == y[2]) && (|x| > 3 ==> x[3] == y[3]);
    assert (|x| > 4 ==> x[4] == y[4]) && (|x| > 5 ==> x[5] == y[5]);
  }
}
