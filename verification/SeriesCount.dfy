/**
 * When the device collector's reported count is the number of its series.
 * Labels are written down joined by commas, so a value that itself contains a
 * comma, a label name and an equals sign can pass for two labels.
 */
module SeriesCount {
  import opened Prelude
  import opened Digits
  import opened FirstSeen
  import opened SeriesKeys
  import opened GaugeStore
  import opened Collector
  import opened CollectorReadings
  import opened KeyText
  import opened Topics
  import opened SnapshotTopics

  predicate IsLabelName(n: string)
  {
    || n == COMPONENT || n == DEVICE_NAME || n == DEVICE_UID || n == DUPLEX_MODE || n == FAN || n == INTERFACE
    || n == INTERFACE_NAME || n == INTERFACE_TYPE || n == NODE_TYPE || n == PSU || n == STATE || n == STATUS
    || n == TUNNEL_ID || n == TUNNEL_NAME
  }

  /** The value cannot pass for more than one label. */
  ghost predicate Unmarked(v: string) { forall n: string :: IsLabelName(n) ==> !Contains(v, Marker(n)) }

  lemma MarkersHaveCommas(v: string, n: string)
    requires Contains(v, Marker(n))
    ensures exists i :: 0 <= i < |v| && v[i] == ','
  {
    var i: nat :| i <= |v| && PlacedAt(v, Marker(n), i);
    assert v[i] == v[i..i + |Marker(n)|][0] == ',';
  }

  lemma CommaFreeIsUnmarked(v: string)
    requires Without(v, ',')
    ensures Unmarked(v)
  {
    forall n: string | IsLabelName(n) ensures !Contains(v, Marker(n)) {
      if Contains(v, Marker(n)) {
        MarkersHaveCommas(v, n);
      }
    }
  }

  // ------------------------------------------------ unmarked labels read back

  /** The labels after the first, as they follow it. */
  function Rest(labels: Labels): string { if labels == [] then "" else "," + Joined(labels) }

  lemma JoinedUnfolds(labels: Labels)
    requires labels != []
    ensures Joined(labels) == labels[0].name + "=" + (labels[0].value + Rest(labels[1..]))
  {
    var l, rest := labels[0], Rest(labels[1..]);
    if |labels| == 1 {
      assert labels[1..] == [];
      assert l.value + "" == l.value;
    }
    Regroup(l.name + "=", l.value, rest);
    if |labels| > 1 {
      Regroup(LabelText(l), ",", Joined(labels[1..]));
    }
  }

  ghost predicate PlainLabels(labels: Labels) { forall l :: l in labels ==> IsLabelName(l.name) && Unmarked(l.value) }

  /** A comma, and no other after it. */
  predicate IsMarker(m: string) { m != "" && m[0] == ',' && Without(m[1..], ',') }

  /** Where the shorter text goes on with a marker, the longer one contains it. */
  lemma LongerContains(v: string, marker: string, tail: string, w: string, after: string)
    requires v + (marker + tail) == w + after && |v| < |w| && IsMarker(marker) && (after == "" || after[0] == ',')
    ensures PlacedAt(w, marker, |v|)
  {
    var t := w + after;
    assert |t| == |v| + |marker| + |tail| == |w| + |after|;
    assert forall k :: 0 <= k < |marker| ==> t[|v| + k] == marker[k];
    forall j | |v| < j < |v| + |marker| ensures t[j] != ',' {
      assert t[|v| + (j - |v|)] == marker[j - |v|] == marker[1..][j - |v| - 1];
    }
    assert after != "" ==> t[|w|] == ',';
    forall k | 0 <= k < |marker| ensures w[|v|..|v| + |marker|][k] == marker[k] {
      assert t[|v| + k] == w[|v| + k];
    }
  }

  lemma RestUnfolds(labels: Labels)
    requires labels != []
    ensures Rest(labels) == Marker(labels[0].name) + (labels[0].value + Rest(labels[1..]))
  {
    JoinedUnfolds(labels);
    var name, tail: string := labels[0].name, labels[0].value + Rest(labels[1..]);
    Regroup(",", name + "=", tail);
    Regroup(",", name, "=");
  }

  lemma RestBeginsWithComma(labels: Labels)
    ensures Rest(labels) == "" || Rest(labels)[0] == ','
  {
  }

  /** If one value runs past the other, it contains the next label's marker. */
  lemma LongerValueIsMarked(v: string, next: Labels, w: string, after: Labels)
    requires v + Rest(next) == w + Rest(after) && |v| < |w|
    ensures next != [] && Contains(w, Marker(next[0].name))
  {
    var more := Rest(after);
    RestBeginsWithComma(after);
    assert next != [] by {
      assert |v + Rest(next)| == |w + more|;
    }
    var marker, tail := Marker(next[0].name), next[0].value + Rest(next[1..]);
    RestUnfolds(next);
    NamesMark(next[0].name);
    LongerContains(v, marker, tail, w, more);
  }

  lemma NamesMark(n: LabelName)
    ensures IsMarker(Marker(n))
  {
    assert Marker(n)[1..] == n + "=";
  }

  lemma SameFirstName(n: LabelName, x: string, m: LabelName, y: string)
    requires n + "=" + x == m + "=" + y
    ensures n == m && x == y
  {
    var s := n + "=" + x;
    FindAfter(n, '=', x);
    FindAfter(m, '=', y);
    assert n == s[..|n|] && m == s[..|n|];
    assert x == s[|n| + 1..] && y == s[|n| + 1..];
  }

  lemma {:induction false} PlainLabelsReadBack(a: Labels, b: Labels)
    requires PlainLabels(a) && PlainLabels(b) && Joined(a) == Joined(b)
    ensures a == b
  {
    if a == [] || b == [] {
      if a != [] {
        JoinedUnfolds(a);
      } else if b != [] {
        JoinedUnfolds(b);
      }
    } else {
      var x, y := a[1..], b[1..];
      PlainHeadsReadBack(a, b);
      PlainLabelsReadBack(x, y);
      assert a == [a[0]] + x && b == [b[0]] + y;
    }
  }

  lemma PlainHeadsReadBack(a: Labels, b: Labels)
    requires PlainLabels(a) && PlainLabels(b) && Joined(a) == Joined(b) && a != [] && b != []
    ensures a[0] == b[0] && Joined(a[1..]) == Joined(b[1..])
  {
    var v, w, x, y := a[0].value, b[0].value, a[1..], b[1..];
    JoinedUnfolds(a);
    JoinedUnfolds(b);
    SameFirstName(a[0].name, v + Rest(x), b[0].name, w + Rest(y));
    assert Unmarked(v) && Unmarked(w);
    if |v| < |w| {
      LongerValueIsMarked(v, x, w, y);
    } else if |w| < |v| {
      LongerValueIsMarked(w, y, v, x);
    } else {
      SameLengthSplit(v, Rest(x), w, Rest(y));
      RestReadsBack(x, y);
    }
  }

  lemma SameLengthSplit(v: string, x: string, w: string, y: string)
    requires v + x == w + y && |v| == |w|
    ensures v == w && x == y
  {
    assert v == (v + x)[..|v|] && w == (v + x)[..|v|];
    assert x == (v + x)[|v|..] && y == (v + x)[|v|..];
  }

  lemma RestReadsBack(x: Labels, y: Labels)
    requires Rest(x) == Rest(y)
    ensures Joined(x) == Joined(y) && (x == [] <==> y == [])
  {
    if x != [] && y != [] {
      assert Joined(x) == Rest(x)[1..] && Joined(y) == Rest(y)[1..];
    }
  }

  // --------------------------------------------------- where labels come from

  /** The labels name the device. */
  predicate Carries(labels: Labels, d: Device) { Label(DEVICE_NAME, d.name) in labels && Label(DEVICE_UID, d.uid) in labels }

  ghost predicate UnmarkedIfPresent(s: Option<string>) { s.Some? ==> Unmarked(s.value) }

  ghost predicate UnmarkedInterface(i: Interface)
  {
    Unmarked(i.id) && UnmarkedIfPresent(i.name) && UnmarkedIfPresent(i.kind) && UnmarkedIfPresent(i.duplexMode)
  }

  /** No string a snapshot carries can pass for more than one label. */
  ghost predicate UnmarkedSnapshot(x: Snapshot)
  {
    && Unmarked(x.device.uid) && Unmarked(x.device.name)
    && (forall i :: i in x.interfaces ==> UnmarkedInterface(i))
    && (x.chassis.Some? ==>
          && (forall f :: f in x.chassis.value.fans ==> Unmarked(f.fan))
          && (forall p :: p in x.chassis.value.psus ==> Unmarked(p.psu)))
    && (forall t :: t in x.tunnels ==> Unmarked(t.id) && Unmarked(t.name))
  }

  ghost predicate PlainTopic(t: Topic)
  {
    && Unmarked(t.device.name) && Unmarked(t.device.uid)
    && (t.ComponentTopic? ==> Unmarked(t.component))
    && (t.TagTopic? ==> Unmarked(t.tag))
    && (t.DuplexTopic? ==> Unmarked(t.duplex))
    && (t.InterfaceTopic? || t.DuplexTopic? ==> Unmarked(t.id) && Unmarked(t.name) && UnmarkedIfPresent(t.kind))
    && (t.TunnelTopic? ==> Unmarked(t.state) && Unmarked(t.id) && Unmarked(t.name))
  }

  lemma ConstantsAreUnmarked(v: string)
    requires v in COMPONENTS + TUNNEL_STATES + Tags(HaNodeStatus) + Tags(HaNodeInfo)
    ensures Unmarked(v)
  {
    assert Without(v, ',');
    CommaFreeIsUnmarked(v);
  }

  lemma TagsArePlain(x: Snapshot, g: Gauge, tag: string)
    requires UnmarkedSnapshot(x) && TellsTag(x, g, tag)
    ensures Unmarked(tag)
  {
    if g.HaNodeStatus? || g.HaNodeInfo? {
      ConstantsAreUnmarked(tag);
    }
  }

  lemma InterfacesArePlain(x: Snapshot, i: Interface)
    requires UnmarkedSnapshot(x) && i in x.interfaces
    ensures PlainTopic(InterfaceTopicOf(x.device, i))
    ensures NonEmpty(i.duplexMode).Some? ==> PlainTopic(DuplexTopicOf(x.device, i))
  {
    assert UnmarkedInterface(i);
  }

  lemma ToldTopicsArePlain(x: Snapshot, g: Gauge, t: Topic)
    requires UnmarkedSnapshot(x) && Tells(x, g, t)
    ensures PlainTopic(t)
  {
    match t {
      case DeviceTopic(_) =>
      case ComponentTopic(_, component) => ConstantsAreUnmarked(component);
      case TagTopic(_, tag) => TagsArePlain(x, g, tag);
      case InterfaceTopic(_, _, _, _) =>
        var i :| i in x.interfaces && t == InterfaceTopicOf(x.device, i);
        InterfacesArePlain(x, i);
      case DuplexTopic(_, _, _, _, _) =>
        var i :| i in x.interfaces && NonEmpty(i.duplexMode).Some? && t == DuplexTopicOf(x.device, i);
        InterfacesArePlain(x, i);
      case TunnelTopic(_, state, id, name) =>
        ConstantsAreUnmarked(state);
        var u :| u in x.tunnels && u.id == id && u.name == name;
    }
  }

  lemma PlainTopicsHavePlainLabels(g: Gauge, t: Topic)
    requires PlainTopic(t)
    ensures PlainLabels(LabelsFor(g, t))
  {
    var labels := LabelsFor(g, t);
    forall k | 0 <= k < |labels| ensures IsLabelName(labels[k].name) && Unmarked(labels[k].value) {
      assert k < 2 || k == 2 || k == 3 || k == 4 || k == 5;
    }
  }

  lemma LabelsCarryTheDevice(g: Gauge, t: Topic)
    ensures Carries(LabelsFor(g, t), t.device)
  {
    var labels := LabelsFor(g, t);
    var k := if t.ComponentTopic? then 1 else 0;
    assert labels[k] == Label(DEVICE_NAME, t.device.name) && labels[k + 1] == Label(DEVICE_UID, t.device.uid);
  }

  /** A device that left the snapshots leaves the gauges: every series carries the labels of one of them. */
  lemma EverySeriesHasItsDevice(snapshots: seq<Snapshot>, s: Series<Gauge>)
    requires s in Stored(RenderedAll(snapshots))
    ensures exists x :: x in snapshots && Carries(s.labels, x.device)
  {
    EveryValueIsTheLastSaid(snapshots, s);
    var x := SaidBySome(snapshots, s);
    var t := SeriesHasATopic(x, s);
    LabelsCarryTheDevice(s.gauge, t);
  }

  // -------------------------------------------------------------- the whole count

  /** The count that a render of these snapshots reports, and the series it leaves. */
  function Reported(snapshots: seq<Snapshot>): nat { |Keys(Comma, RenderedAll(snapshots))| }

  function Present(snapshots: seq<Snapshot>): nat { |Stored(RenderedAll(snapshots))| }

  /** The count never exceeds the series, and is exact when no string of any snapshot can pass for more than one label. */
  lemma CollectorCount(snapshots: seq<Snapshot>)
    ensures Reported(snapshots) <= Present(snapshots)
    ensures (forall x :: x in snapshots ==> UnmarkedSnapshot(x)) ==> Reported(snapshots) == Present(snapshots)
  {
    var writes := RenderedAll(snapshots);
    CountIsExactIff(Comma, writes);
    if forall x :: x in snapshots ==> UnmarkedSnapshot(x) {
      forall a, b | a in Stored(writes) && b in Stored(writes) && SameKey(Comma, Gauges(writes), a, b) ensures a == b {
        PlainSeriesAreApart(snapshots, a, b);
      }
    }
  }

  lemma PlainSeriesAreApart(snapshots: seq<Snapshot>, a: Series<Gauge>, b: Series<Gauge>)
    requires forall x :: x in snapshots ==> UnmarkedSnapshot(x)
    requires a in Stored(RenderedAll(snapshots)) && b in Stored(RenderedAll(snapshots))
    requires AllIn(Gauges(RenderedAll(snapshots)), Stored(RenderedAll(snapshots)).Keys)
    requires SameKey(Comma, Gauges(RenderedAll(snapshots)), a, b)
    ensures a == b
  {
    var order := Gauges(RenderedAll(snapshots));
    SeriesArePlain(snapshots, a);
    SeriesArePlain(snapshots, b);
    SameCommaKeyIff(order, a, b);
    PlainLabelsReadBack(a.labels, b.labels);
  }

  lemma SeriesArePlain(snapshots: seq<Snapshot>, s: Series<Gauge>)
    requires forall x :: x in snapshots ==> UnmarkedSnapshot(x)
    requires s in Stored(RenderedAll(snapshots))
    ensures PlainLabels(s.labels)
  {
    EveryValueIsTheLastSaid(snapshots, s);
    var x := SaidBySome(snapshots, s);
    var t := SeriesHasATopic(x, s);
    ToldTopicsArePlain(x, s.gauge, t);
    PlainTopicsHavePlainLabels(s.gauge, t);
  }

  // ------------------------------------------------------ snapshot by snapshot

  /** A series of one and a different series of the other are written down alike. */
  ghost predicate CountedTogether(x: Snapshot, y: Snapshot)
  {
    exists a, b :: Says(x, a) && Says(y, b) && a != b && a.gauge == b.gauge && Joined(a.labels) == Joined(b.labels)
  }

  lemma {:induction false} WhatIsSaidIsStored(snapshots: seq<Snapshot>, x: Snapshot, s: Series<Gauge>)
    requires x in snapshots && Says(x, s)
    ensures LastSaid(snapshots, s).Some?
  {
    if x != snapshots[|snapshots| - 1] {
      WhatIsSaidIsStored(snapshots[..|snapshots| - 1], x, s);
    }
  }

  /** A poll is counted right exactly if no two of its snapshots, and none with itself, are counted together. */
  lemma PollIsCountedRightIff(snapshots: seq<Snapshot>)
    ensures Reported(snapshots) <= Present(snapshots)
    ensures Reported(snapshots) == Present(snapshots)
            <==> forall x, y :: x in snapshots && y in snapshots ==> !CountedTogether(x, y)
  {
    var writes := RenderedAll(snapshots);
    CountIsExactIff(Comma, writes);
    if Apart(Comma, Gauges(writes), Stored(writes).Keys) {
      forall x, y | x in snapshots && y in snapshots ensures !CountedTogether(x, y) {
        NoneTogether(snapshots, x, y);
      }
    }
    if forall x, y :: x in snapshots && y in snapshots ==> !CountedTogether(x, y) {
      forall a, b | a in Stored(writes) && b in Stored(writes) && SameKey(Comma, Gauges(writes), a, b) ensures a == b {
        StoredAreApart(snapshots, a, b);
      }
    }
  }

  lemma NoneTogether(snapshots: seq<Snapshot>, x: Snapshot, y: Snapshot)
    requires AllIn(Gauges(RenderedAll(snapshots)), Stored(RenderedAll(snapshots)).Keys)
    requires Apart(Comma, Gauges(RenderedAll(snapshots)), Stored(RenderedAll(snapshots)).Keys)
    requires x in snapshots && y in snapshots
    ensures !CountedTogether(x, y)
  {
    var order, store := Gauges(RenderedAll(snapshots)), Stored(RenderedAll(snapshots));
    forall a, b | Says(x, a) && Says(y, b) && a.gauge == b.gauge && Joined(a.labels) == Joined(b.labels) ensures a == b {
      WhatIsSaidIsStored(snapshots, x, a);
      WhatIsSaidIsStored(snapshots, y, b);
      EveryValueIsTheLastSaid(snapshots, a);
      EveryValueIsTheLastSaid(snapshots, b);
      SameCommaKeyIff(order, a, b);
      assert SameKey(Comma, order, a, b);
    }
  }

  lemma StoredAreApart(snapshots: seq<Snapshot>, a: Series<Gauge>, b: Series<Gauge>)
    requires forall x, y :: x in snapshots && y in snapshots ==> !CountedTogether(x, y)
    requires a in Stored(RenderedAll(snapshots)) && b in Stored(RenderedAll(snapshots))
    requires AllIn(Gauges(RenderedAll(snapshots)), Stored(RenderedAll(snapshots)).Keys)
    requires SameKey(Comma, Gauges(RenderedAll(snapshots)), a, b)
    ensures a == b
  {
    SameCommaKeyIff(Gauges(RenderedAll(snapshots)), a, b);
    EveryValueIsTheLastSaid(snapshots, a);
    EveryValueIsTheLastSaid(snapshots, b);
    var x := SaidBySome(snapshots, a);
    var y := SaidBySome(snapshots, b);
    assert Says(x, a) && Says(y, b) && !CountedTogether(x, y);
  }

  /** Every series of the snapshot is about a topic that reads alone. */
  ghost predicate AllAlone(x: Snapshot)
  {
    forall g, t :: Fits(g, t) && Says(x, Series(g, LabelsFor(g, t))) ==> Alone(t)
  }

  lemma AloneIsNeverTogether(x: Snapshot, y: Snapshot)
    requires Mapped(x) && Mapped(y) && AllAlone(x)
    ensures !CountedTogether(x, y)
  {
    forall a, b | Says(x, a) && Says(y, b) && a.gauge == b.gauge && Joined(a.labels) == Joined(b.labels) ensures a == b {
      var t := SeriesHasATopic(x, a);
      var u := SeriesHasATopic(y, b);
      ToldTopicsFit(x, a.gauge, t);
      ToldTopicsFit(y, b.gauge, u);
      assert Says(x, Series(a.gauge, LabelsFor(a.gauge, t)));
      AloneIsUnambiguous(a.gauge, t, u);
    }
  }

  lemma NotAloneIsTogether(x: Snapshot, g: Gauge, t: Topic) returns (y: Snapshot)
    requires Fits(g, t) && Says(x, Series(g, LabelsFor(g, t))) && !Alone(t)
    ensures Mapped(y) && CountedTogether(x, y)
  {
    var u := NotAloneIsAmbiguous(g, t);
    EveryTopicIsSaid(g, u);
    y := SnapshotFor(u);
    if LabelsFor(g, t) == LabelsFor(g, u) {
      LabelsTellTopics(g, t, u);
    }
    var a, b := Series(g, LabelsFor(g, t)), Series(g, LabelsFor(g, u));
    assert Says(x, a) && Says(y, b) && a != b;
  }

  /**
   * What a caller can check of one snapshot, over all its gauges: no snapshot
   * the mappers make can ever be counted together with it, if and only if
   * none of its label values holds a marker that could stand for a neighbour's.
   */
  lemma NeverCountedTogetherIff(x: Snapshot)
    requires Mapped(x)
    ensures (forall y :: Mapped(y) ==> !CountedTogether(x, y)) <==> AllAlone(x)
  {
    if AllAlone(x) {
      forall y | Mapped(y) ensures !CountedTogether(x, y) {
        AloneIsNeverTogether(x, y);
      }
    } else {
      var g, t :| Fits(g, t) && Says(x, Series(g, LabelsFor(g, t))) && !Alone(t);
      var y := NotAloneIsTogether(x, g, t);
    }
  }

  /** So a poll is counted right if all but one of its snapshots read alone and the last is right by itself. */
  lemma AlonePollsAreCountedRight(snapshots: seq<Snapshot>, last: Snapshot)
    requires Mapped(last) && forall x :: x in snapshots ==> Mapped(x) && AllAlone(x)
    ensures Reported(snapshots + [last]) == Present(snapshots + [last]) <==> !CountedTogether(last, last)
  {
    PollIsCountedRightIff(snapshots + [last]);
    assert last in snapshots + [last];
    forall x, y | x in snapshots + [last] && y in snapshots + [last] && (x in snapshots || y in snapshots)
      ensures !CountedTogether(x, y)
    {
      if x in snapshots {
        AloneIsNeverTogether(x, y);
      } else {
        AloneIsNeverTogether(y, x);
        TogetherBothWays(x, y);
      }
    }
  }

  lemma TogetherBothWays(x: Snapshot, y: Snapshot)
    ensures CountedTogether(x, y) <==> CountedTogether(y, x)
  {
    if a, b :| Says(x, a) && Says(y, b) && a != b && a.gauge == b.gauge && Joined(a.labels) == Joined(b.labels) {
      assert Says(y, b) && Says(x, a);
    }
    if a, b :| Says(y, a) && Says(x, b) && a != b && a.gauge == b.gauge && Joined(a.labels) == Joined(b.labels) {
      assert Says(x, b) && Says(y, a);
    }
  }

  // --------------------------------------------------- an interface and another

  /** A snapshot that has nothing but one reading of one interface. */
  function OneInterface(d: Device, id: string, name: string): Snapshot
  {
    var i := Interface(id, Some(name), None, Some(0.0), None, None, None, None, None, None, None, None, None, None, None, None);
    Snapshot(d, None, None, None, [i], None, None, None, [], None, None)
  }

  lemma OneInterfaceIsSaid(d: Device, id: string, name: string)
    requires name != ""
    ensures var g := InterfaceInputBytesAvg;
            Says(OneInterface(d, id, name), Series(g, LabelsFor(g, InterfaceTopic(d, id, name, None))))
  {
    var x := OneInterface(d, id, name);
    InterfaceLabelsAreNamed(d, x.interfaces[0]);
    InterfaceIsSaid(x, x.interfaces[0], 0);
  }

  lemma ReadAlikeIsTogether(x: Snapshot, y: Snapshot, g: Gauge, t: Topic, u: Topic)
    requires Fits(g, t) && Fits(g, u) && ReadAlike(t, u) && t != u
    requires Says(x, Series(g, LabelsFor(g, t))) && Says(y, Series(g, LabelsFor(g, u)))
    ensures CountedTogether(x, y)
  {
    SameKeyIff(g, t, u);
    if LabelsFor(g, t) == LabelsFor(g, u) {
      LabelsTellTopics(g, t, u);
    }
    var a, b := Series(g, LabelsFor(g, t)), Series(g, LabelsFor(g, u));
    assert Says(x, a) && Says(y, b) && a != b;
  }

  lemma TogetherIsMiscounted(x: Snapshot, y: Snapshot, both: seq<Snapshot>)
    requires x in both && y in both && CountedTogether(x, y)
    ensures Reported(both) < Present(both)
  {
    PollIsCountedRightIff(both);
  }

  /** Wherever an interface id holds the marker of its own label, the part before can pass for the end of the uid. */
  lemma InterfacesCanBeCountedAsOne(d: Device, e: Device, before: string, id: string, name: string, both: seq<Snapshot>)
    requires d.uid != "" && d.name != "" && id != "" && name != "" && e == Device(d.uid + ID + before, d.name)
    requires both == [OneInterface(d, before + (ID + id), name), OneInterface(e, id, name)]
    ensures Mapped(both[0]) && Mapped(both[1]) && Reported(both) < Present(both)
  {
    InterfacesAreTogether(d, e, before, id, name, both[0], both[1]);
    TogetherIsMiscounted(both[0], both[1], both);
  }

  lemma InterfacesAreTogether(d: Device, e: Device, before: string, id: string, name: string, x: Snapshot, y: Snapshot)
    requires d.uid != "" && d.name != "" && id != "" && name != "" && e == Device(d.uid + ID + before, d.name)
    requires x == OneInterface(d, before + (ID + id), name) && y == OneInterface(e, id, name)
    ensures CountedTogether(x, y)
  {
    OneInterfaceIsSaid(d, before + (ID + id), name);
    OneInterfaceIsSaid(e, id, name);
    MovedInterfaceReadsAlike(d, before, id, name);
    var t, u := InterfaceTopic(d, before + (ID + id), name, None), InterfaceTopic(e, id, name, None);
    ReadAlikeIsTogether(x, y, InterfaceInputBytesAvg, t, u);
  }

  lemma MovedInterfaceReadsAlike(d: Device, before: string, id: string, name: string)
    ensures Text(LineFor(InterfaceTopic(d, before + (ID + id), name, None)))
            == Text(LineFor(InterfaceTopic(Device(d.uid + ID + before, d.name), id, name, None)))
  {
    var x, full := LineFor(InterfaceTopic(d, before + (ID + id), name, None)), before + (ID + id);
    PlacedBetween(before, ID, id);
    MovedOnReadsTheSame(x.rest, |before|, ID);
    assert full[..|before|] == before && full[|before| + |ID|..] == id;
    var y := LineFor(InterfaceTopic(Device(d.uid + ID + before, d.name), id, name, None));
    assert y.rest == MovedOn(x.rest, |before|, ID);
  }

  /** In particular where no name or uid holds the marker of the uid. */
  lemma NoUidMarkerIsNeeded(d: Device, e: Device, both: seq<Snapshot>)
    requires d == Device("u", "n") && e == Device("u,interface=i", "n")
    requires both == [OneInterface(d, "i,interface=j", "m"), OneInterface(e, "j", "m")]
    ensures Reported(both) < Present(both)
    ensures !Contains(d.name + d.uid, UID) && !Contains(e.name + e.uid, UID) && !Splits(d, e) && !Splits(e, d)
  {
    assert ID == ",interface=" && "i" + (ID + "j") == "i,interface=j" && d.uid + ID + "i" == e.uid;
    InterfacesCanBeCountedAsOne(d, e, "i", "j", "m", both);
    NoUidMarkerInside(d, e);
  }

  lemma PlacedChar(s: string, t: string, i: nat, k: nat)
    ensures PlacedAt(s, t, i) && k < |t| ==> s[i + k] == t[k]
  {
  }

  lemma NoUidMarkerInside(d: Device, e: Device)
    requires d == Device("u", "n") && e == Device("u,interface=i", "n")
    ensures !Contains(d.name + d.uid, UID) && !Contains(e.name + e.uid, UID) && !Splits(d, e) && !Splits(e, d)
  {
    var s := e.name + e.uid;
    assert UID == ",device_uid=" && s == "nu,interface=i" && s[3] == 'i';
    forall i: nat ensures !PlacedAt(s, UID, i) {
      PlacedChar(s, UID, i, 0);
      PlacedChar(s, UID, i, 1);
    }
  }

  // ------------------------------------------------------ exactly which devices

  /** b's name goes on where a's ends, taking in what in a is the next label. */
  ghost predicate Splits(a: Device, b: Device)
  {
    exists q: string :: b.name == a.name + UID + q && a.uid == q + UID + b.uid
  }

  lemma JoinedDevice(d: Device)
    ensures Joined(DeviceLabels(d)) == (DEVICE_NAME + "=") + (d.name + (UID + d.uid))
  {
    var labels := DeviceLabels(d);
    JoinedUnfolds(labels);
    assert labels[1..] == [labels[1]];
    RestUnfolds([labels[1]]);
    assert [labels[1]][1..] == [] && labels[1].value + "" == labels[1].value;
  }

  lemma LongerNameSplits(a: Device, b: Device)
    requires a.name + (UID + a.uid) == b.name + (UID + b.uid) && |a.name| < |b.name|
    ensures Splits(a, b)
  {
    NamesMark(DEVICE_UID);
    LongerContains(a.name, UID, a.uid, b.name, UID + b.uid);
    var n := |a.name| + |UID|;
    var q, t := b.name[n..], a.name + (UID + a.uid);
    assert a.name == t[..|a.name|] == b.name[..|a.name|];
    assert b.name == b.name[..|a.name|] + b.name[|a.name|..n] + q;
    assert a.uid == t[n..] == q + (UID + b.uid);
    Regroup(q, UID, b.uid);
  }

  lemma SplitsShareText(a: Device, b: Device)
    requires Splits(a, b)
    ensures a.name + (UID + a.uid) == b.name + (UID + b.uid) && |a.name| < |b.name|
  {
    var q: string :| b.name == a.name + UID + q && a.uid == q + UID + b.uid;
    Regroup(q, UID, b.uid);
    Regroup(a.name + UID, q, UID + b.uid);
    Regroup(a.name, UID, a.uid);
  }

  /** Two devices are written down alike exactly if they are one device or one's name takes in the other's next label. */
  lemma SameDeviceKeyIff(index: nat, a: Device, b: Device)
    ensures CommaKey(index, DeviceLabels(a)) == CommaKey(index, DeviceLabels(b)) <==> a == b || Splits(a, b) || Splits(b, a)
  {
    var x, y := a.name + (UID + a.uid), b.name + (UID + b.uid);
    SameKeySameText(index, DeviceLabels(a), index, DeviceLabels(b));
    JoinedDevice(a);
    JoinedDevice(b);
    assert Joined(DeviceLabels(a))[|DEVICE_NAME| + 1..] == x && Joined(DeviceLabels(b))[|DEVICE_NAME| + 1..] == y;
    if x == y {
      if |a.name| < |b.name| {
        LongerNameSplits(a, b);
      } else if |b.name| < |a.name| {
        LongerNameSplits(b, a);
      } else {
        SameLengthSplit(a.name, UID + a.uid, b.name, UID + b.uid);
        SameLengthSplit(UID, a.uid, UID, b.uid);
      }
    } else {
      if Splits(a, b) {
        SplitsShareText(a, b);
      }
      if Splits(b, a) {
        SplitsShareText(b, a);
      }
    }
  }

  /** A snapshot that has nothing but a disk reading. */
  function DiskOnly(d: Device, percent: real): Snapshot
  {
    Snapshot(d, None, None, Some(percent), [], None, None, None, [], None, None)
  }

  lemma DiskOnlyIsOneWrite(before: Writes, d: Device, percent: real)
    ensures RenderedSnapshot(before, DiskOnly(d, percent))
            == before + [Write(Series(DiskUsageRatio, DeviceLabels(d)), percent / 100.0)]
  {
    var x := DiskOnly(d, percent);
    var after := before + [Write(Series(DiskUsageRatio, DeviceLabels(d)), percent / 100.0)];
    assert DiskReadings(x) == [] + [Reading(DiskUsageRatio, DeviceLabels(d), Some(percent / 100.0))];
    OneMoreReading(before, [], Reading(DiskUsageRatio, DeviceLabels(d), Some(percent / 100.0)));
    assert RenderedHead(before, x) == after;
    var window := WindowReadings(x);
    assert window[..|window| - 1] == [window[0]] && [window[0]][..0] == [];
    assert Rendered(after, [window[0]]) == after && Rendered(after, window) == after;
  }

  lemma OneWrite(x: Write<Gauge>, one: seq<Write<Gauge>>)
    requires one == [x]
    ensures Stored(one) == map[x.series := x.value] && Gauges(one) == [x.series.gauge]
    ensures Keys(Comma, one) == {CommaKey(0, x.series.labels)}
  {
    var none: seq<Write<Gauge>> := [];
    assert one == none + [x];
    StoredOneMore(none, x);
    KeysOneMore(Comma, none, x);
  }

  lemma TwoWrites(x: Write<Gauge>, y: Write<Gauge>, both: seq<Write<Gauge>>)
    requires both == [x, y] && x.series.gauge == y.series.gauge
    ensures |Stored(both)| == if x.series.labels == y.series.labels then 1 else 2
    ensures |Keys(Comma, both)| == if CommaKey(0, x.series.labels) == CommaKey(0, y.series.labels) then 1 else 2
  {
    var one := [x];
    assert both == one + [y];
    OneWrite(x, one);
    StoredOneMore(one, y);
    KeysOneMore(Comma, one, y);
    assert Stored(both).Keys == {x.series, y.series};
    assert Keys(Comma, both) == {CommaKey(0, x.series.labels), CommaKey(0, y.series.labels)};
  }

  lemma OneMoreSnapshot(snapshots: seq<Snapshot>, x: Snapshot)
    ensures RenderedAll(snapshots + [x]) == RenderedSnapshot(RenderedAll(snapshots), x)
  {
    assert (snapshots + [x])[..|snapshots|] == snapshots;
  }

  function DiskWrite(d: Device, percent: real): Write<Gauge> { Write(Series(DiskUsageRatio, DeviceLabels(d)), percent / 100.0) }

  lemma TwoDisks(a: Device, v: real, b: Device, w: real, both: seq<Snapshot>)
    requires both == [DiskOnly(a, v), DiskOnly(b, w)]
    ensures RenderedAll(both) == [DiskWrite(a, v), DiskWrite(b, w)]
  {
    var none: seq<Snapshot> := [];
    var x, y := DiskOnly(a, v), DiskOnly(b, w);
    OneMoreSnapshot(none, x);
    OneMoreSnapshot(none + [x], y);
    assert none + [x] + [y] == both;
    DiskOnlyIsOneWrite([], a, v);
    DiskOnlyIsOneWrite(RenderedAll(none + [x]), b, w);
  }

  lemma DeviceLabelsTellApart(a: Device, b: Device)
    ensures DeviceLabels(a) == DeviceLabels(b) <==> a == b
  {
    var x, y := DeviceLabels(a), DeviceLabels(b);
    if x == y {
      assert x[0] == y[0] && x[1] == y[1];
    }
  }

  lemma NoDeviceSplitsItself(a: Device)
    ensures !Splits(a, a)
  {
    if Splits(a, a) {
      SplitsShareText(a, a);
    }
  }

  lemma CountOfTwo(a: Device, v: real, b: Device, w: real, both: seq<Snapshot>)
    requires both == [DiskOnly(a, v), DiskOnly(b, w)]
    ensures Present(both) == if DeviceLabels(a) == DeviceLabels(b) then 1 else 2
    ensures Reported(both) == if CommaKey(0, DeviceLabels(a)) == CommaKey(0, DeviceLabels(b)) then 1 else 2
  {
    TwoDisks(a, v, b, w, both);
    TwoWrites(DiskWrite(a, v), DiskWrite(b, w), RenderedAll(both));
  }

  /** Two devices with a disk reading each are two series, and are counted as one exactly if one splits the other. */
  lemma CountedAsOneIff(a: Device, v: real, b: Device, w: real, both: seq<Snapshot>)
    requires both == [DiskOnly(a, v), DiskOnly(b, w)]
    ensures Present(both) == if a == b then 1 else 2
    ensures Reported(both) < Present(both) <==> Splits(a, b) || Splits(b, a)
    ensures Reported(both) <= Present(both)
  {
    CountOfTwo(a, v, b, w, both);
    SameDeviceKeyIff(0, a, b);
    DeviceLabelsTellApart(a, b);
    NoDeviceSplitsItself(a);
  }

  /** Two snapshots whose render is counted one short. */
  lemma CommasCanHideADevice()
    ensures var a := Device("b" + UID + "c", "a"); var b := Device("c", "a" + UID + "b");
            var both := [DiskOnly(a, 10.0), DiskOnly(b, 20.0)];
            Reported(both) == 1 && Present(both) == 2
  {
    var a, b := Device("b" + UID + "c", "a"), Device("c", "a" + UID + "b");
    assert Splits(a, b);
    var both := [DiskOnly(a, 10.0), DiskOnly(b, 20.0)];
    SplitsShareText(a, b);
    CountOfTwo(a, 10.0, b, 20.0, both);
    CountedAsOneIff(a, 10.0, b, 20.0, both);
  }

  /**
   * For two devices with nothing but a disk reading each, whatever their names
   * and uids: never counted together with this one if and only if neither its
   * name nor its uid contains the text with which the next label begins.
   */
  lemma DisksNeverCountedTogetherIff(a: Device)
    ensures (forall b: Device, v: real, w: real :: CountedApart(a, v, b, w))
            <==> !Contains(a.name, UID) && !Contains(a.uid, UID)
  {
    if Contains(a.name, UID) {
      var b := PartnerByName(a);
      assert !CountedApart(a, 0.0, b, 0.0);
    } else if Contains(a.uid, UID) {
      var b := PartnerByUid(a);
      assert !CountedApart(a, 0.0, b, 0.0);
    } else {
      forall b: Device, v: real, w: real ensures CountedApart(a, v, b, w) {
        NeitherSplits(a, b);
        CountedAsOneIff(a, v, b, w, [DiskOnly(a, v), DiskOnly(b, w)]);
      }
    }
  }

  lemma PartnerByName(a: Device) returns (b: Device)
    requires Contains(a.name, UID)
    ensures !CountedApart(a, 0.0, b, 0.0)
  {
    var i: nat :| i <= |a.name| && PlacedAt(a.name, UID, i);
    var p, q := a.name[..i], a.name[i + |UID|..];
    b := Device(q + UID + a.uid, p);
    assert a.name == p + UID + q;
    assert Splits(b, a);
    CountedAsOneIff(a, 0.0, b, 0.0, [DiskOnly(a, 0.0), DiskOnly(b, 0.0)]);
  }

  lemma PartnerByUid(a: Device) returns (b: Device)
    requires Contains(a.uid, UID)
    ensures !CountedApart(a, 0.0, b, 0.0)
  {
    var i: nat :| i <= |a.uid| && PlacedAt(a.uid, UID, i);
    var q, r := a.uid[..i], a.uid[i + |UID|..];
    b := Device(r, a.name + UID + q);
    assert a.uid == q + UID + r;
    assert Splits(a, b);
    CountedAsOneIff(a, 0.0, b, 0.0, [DiskOnly(a, 0.0), DiskOnly(b, 0.0)]);
  }

  /** The two devices, with a disk reading each, are counted right. */
  predicate CountedApart(a: Device, v: real, b: Device, w: real)
  {
    var both := [DiskOnly(a, v), DiskOnly(b, w)]; Reported(both) == Present(both)
  }

  lemma SplitsHoldMarkers(a: Device, b: Device)
    ensures Splits(a, b) ==> Contains(a.uid, UID) && Contains(b.name, UID)
  {
    if q: string :| b.name == a.name + UID + q && a.uid == q + UID + b.uid {
      assert PlacedAt(a.uid, UID, |q|) && PlacedAt(b.name, UID, |a.name|);
    }
  }

  lemma NeitherSplits(a: Device, b: Device)
    requires !Contains(a.name, UID) && !Contains(a.uid, UID)
    ensures !Splits(a, b) && !Splits(b, a)
  {
    SplitsHoldMarkers(a, b);
    SplitsHoldMarkers(b, a);
  }
}
