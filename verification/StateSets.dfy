/**
 * What a render leaves in the state-set gauges. The reference is the last
 * report the snapshots contain about a subject.
 */
module StateSets {
  import opened Prelude
  import opened SeriesKeys
  import opened FirstSeen
  import opened GaugeStore
  import opened Collector
  import opened CollectorReadings

  // --------------------------------------------------------- the last report

  function LastTunnelState(tunnels: seq<Tunnel>, id: string, name: string): Option<State>
  {
    if tunnels == [] then None
    else
      var last := tunnels[|tunnels| - 1];
      if last.id == id && last.name == name then Some(ClassifyTunnelState(last.state))
      else LastTunnelState(tunnels[..|tunnels| - 1], id, name)
  }

  /** What one snapshot says about a subject. */
  function Report(x: Snapshot, t: Subject): (r: Option<State>)
    ensures r.Some? ==> r.value in StatesOf(t)
  {
    if x.device != t.device then None
    else match t
      case HaOf(_) => if x.ha.None? then None else Some(ClassifyHaNodeStatus(x.ha.value.nodeStatus))
      case TunnelOf(_, id, name) =>
        TunnelStatesFit(x.tunnels, id, name);
        LastTunnelState(x.tunnels, id, name)
  }

  lemma {:induction false} TunnelStatesFit(tunnels: seq<Tunnel>, id: string, name: string)
    ensures var s := LastTunnelState(tunnels, id, name);
            s.Some? ==> s.value.Up? || s.value.Down? || s.value.Unknown?
  {
    if tunnels != [] {
      TunnelStatesFit(tunnels[..|tunnels| - 1], id, name);
    }
  }

  /** The last thing the snapshots say about a subject. */
  function LastReport(snapshots: seq<Snapshot>, t: Subject): (r: Option<State>)
    ensures r.Some? ==> r.value in StatesOf(t)
  {
    if snapshots == [] then None
    else
      var last := Report(snapshots[|snapshots| - 1], t);
      if last.Some? then last else LastReport(snapshots[..|snapshots| - 1], t)
  }

  lemma SeriesTellApart(t: Subject, s: State, t': Subject, s': State)
    ensures StateSeries(t, s) == StateSeries(t', s') <==> t == t' && s == s'
  {
    LabelsTellStatesApart(s, s');
    var a, b := StateSeries(t, s).labels, StateSeries(t', s').labels;
    if StateSeries(t, s) == StateSeries(t', s') {
      assert a[0] == b[0] && a[1] == b[1] && a[2] == b[2];
      if t.TunnelOf? {
        assert a[3] == b[3] && a[4] == b[4];
      }
    }
  }

  lemma {:induction false} LastOfStates(t: Subject, active: State, states: seq<State>, t': Subject, s: State)
    ensures LastPresent(StateReadings(t, active, states), StateSeries(t', s))
            == if t == t' && s in states then Some(Bit(s == active)) else None
  {
    if states != [] {
      var init, last := states[..|states| - 1], states[|states| - 1];
      LastOfStates(t, active, init, t', s);
      SeriesTellApart(t, last, t', s);
      var earlier, series := StateReadings(t, active, init), StateSeries(t, last);
      var r := Reading(series.gauge, series.labels, Some(Bit(last == active)));
      assert (earlier + [r])[..|earlier|] == earlier;
      assert states == init + [last];
    }
  }

  function Value(report: Option<State>, s: State): Option<real>
  {
    if report.Some? then Some(Bit(s == report.value)) else None
  }

  lemma {:induction false} LastOfTunnels(d: Device, tunnels: seq<Tunnel>, t: Subject, s: State)
    requires t.TunnelOf? && s in StatesOf(t)
    ensures LastPresent(TunnelsReadings(d, tunnels), StateSeries(t, s))
            == Value(if t.device == d then LastTunnelState(tunnels, t.id, t.name) else None, s)
  {
    if tunnels != [] {
      var init, last := tunnels[..|tunnels| - 1], tunnels[|tunnels| - 1];
      LastOfTunnels(d, init, t, s);
      var subject := TunnelOf(d, last.id, last.name);
      LastOfStates(subject, ClassifyTunnelState(last.state), StatesOf(subject), t, s);
      LastPresentOfConcat(TunnelsReadings(d, init), TunnelReadings(d, last), StateSeries(t, s));
    }
  }

  lemma LastOfHa(x: Snapshot, t: Subject, s: State)
    requires t.HaOf? && s in StatesOf(t)
    ensures LastPresent(PartReadings(x, HaPart), StateSeries(t, s)) == Value(Report(x, t), s)
  {
    if x.ha.Some? {
      var subject, active := HaOf(x.device), ClassifyHaNodeStatus(x.ha.value.nodeStatus);
      LastOfStates(subject, active, StatesOf(subject), t, s);
      var info := HaInfoReadings(x.device, x.ha.value);
      LastPresentOfConcat(StateReadings(subject, active, StatesOf(subject)), info, StateSeries(t, s));
      assert info[..0] == [] && LastPresent(info, StateSeries(t, s)) == None;
    }
  }

  lemma StatePart(t: Subject, s: State)
    ensures PartOf(StateSeries(t, s).gauge) == if t.HaOf? then HaPart else TunnelPart
  {
  }

  /** What a snapshot says of a state is its report on the subject. */
  lemma SaidOfState(x: Snapshot, t: Subject, s: State)
    requires s in StatesOf(t)
    ensures SaidOf(x, StateSeries(t, s)) == Value(Report(x, t), s)
  {
    StatePart(t, s);
    var series := StateSeries(t, s);
    if t.HaOf? {
      LastOfHa(x, t, s);
      assert SaidOf(x, series) == LastPresent(PartReadings(x, HaPart), series);
    } else {
      LastOfTunnels(x.device, x.tunnels, t, s);
      assert SaidOf(x, series) == LastPresent(TunnelsReadings(x.device, x.tunnels), series);
    }
  }

  lemma {:induction false} LastSaidOfState(snapshots: seq<Snapshot>, t: Subject, s: State)
    requires s in StatesOf(t)
    ensures LastSaid(snapshots, StateSeries(t, s)) == Value(LastReport(snapshots, t), s)
  {
    if snapshots != [] {
      LastSaidOfState(snapshots[..|snapshots| - 1], t, s);
      SaidOfState(snapshots[|snapshots| - 1], t, s);
    }
  }

  // ------------------------------------------------------- nothing else is there

  predicate IsStateGauge(g: Gauge) { g.HaNodeStatus? || g.S2sTunnelState? }

  ghost predicate Shaped(s: Series<Gauge>) { exists t, state :: state in StatesOf(t) && s == StateSeries(t, state) }

  ghost predicate AllShaped(readings: Readings)
  {
    forall r :: r in readings && IsStateGauge(r.gauge) ==> Shaped(Series(r.gauge, r.labels))
  }

  lemma {:induction false} StatesAreShaped(t: Subject, active: State, states: seq<State>)
    requires forall s :: s in states ==> s in StatesOf(t)
    ensures AllShaped(StateReadings(t, active, states))
  {
    if states != [] {
      var last := states[|states| - 1];
      StatesAreShaped(t, active, states[..|states| - 1]);
      assert last in StatesOf(t) && Shaped(StateSeries(t, last));
    }
  }

  lemma {:induction false} TunnelsAreShaped(d: Device, tunnels: seq<Tunnel>)
    ensures AllShaped(TunnelsReadings(d, tunnels))
  {
    if tunnels != [] {
      var last := tunnels[|tunnels| - 1];
      TunnelsAreShaped(d, tunnels[..|tunnels| - 1]);
      var t := TunnelOf(d, last.id, last.name);
      StatesAreShaped(t, ClassifyTunnelState(last.state), StatesOf(t));
    }
  }

  lemma StatePartsAreShaped(x: Snapshot, p: Part)
    requires p.HaPart? || p.TunnelPart?
    ensures AllShaped(PartReadings(x, p))
  {
    if p.TunnelPart? {
      TunnelsAreShaped(x.device, x.tunnels);
    } else if x.ha.Some? {
      var t := HaOf(x.device);
      StatesAreShaped(t, ClassifyHaNodeStatus(x.ha.value.nodeStatus), StatesOf(t));
    }
  }

  // ----------------------------------------------------------------- theorems

  type Store = map<Series<Gauge>, real>

  /** The series carries the subject's gauge and identity, whatever else its labels say. */
  predicate IsAbout(s: Series<Gauge>, t: Subject)
  {
    && Label(DEVICE_NAME, t.device.name) in s.labels && Label(DEVICE_UID, t.device.uid) in s.labels
    && match t
       case HaOf(_) => s.gauge.HaNodeStatus?
       case TunnelOf(_, id, name) =>
         s.gauge.S2sTunnelState? && Label(TUNNEL_ID, id) in s.labels && Label(TUNNEL_NAME, name) in s.labels
  }

  function About(store: Store, t: Subject): set<Series<Gauge>> { set s | s in store && IsAbout(s, t) }

  function StateSetOf(t: Subject): set<Series<Gauge>> { set s | s in StatesOf(t) :: StateSeries(t, s) }

  lemma NamesDiffer()
    ensures DEVICE_NAME != DEVICE_UID && DEVICE_NAME != STATUS && DEVICE_UID != STATUS
    ensures DEVICE_NAME != STATE && DEVICE_UID != STATE && TUNNEL_ID != STATE && TUNNEL_NAME != STATE
    ensures DEVICE_NAME != TUNNEL_ID && DEVICE_NAME != TUNNEL_NAME && DEVICE_UID != TUNNEL_ID && DEVICE_UID != TUNNEL_NAME
    ensures TUNNEL_ID != TUNNEL_NAME
  {
    assert DEVICE_NAME[0] != TUNNEL_NAME[0];
    assert |DEVICE_NAME| == 11 && |DEVICE_UID| == 10 && |STATUS| == 6 && |STATE| == 5 && |TUNNEL_ID| == 9 && |TUNNEL_NAME| == 11;
  }

  lemma AboutOneSubject(t: Subject, t': Subject, s: State)
    ensures IsAbout(StateSeries(t', s), t) <==> t == t'
  {
    NamesDiffer();
  }

  lemma StateSetSize(t: Subject)
    ensures |StateSetOf(t)| == |StatesOf(t)|
  {
    var states := StatesOf(t);
    var all := seq(|states|, i requires 0 <= i < |states| => StateSeries(t, states[i]));
    forall i, j | 0 <= i < j < |all| ensures all[i] != all[j] {
      SeriesTellApart(t, states[i], t, states[j]);
    }
    DistinctSize(all);
    forall x | x in StateSetOf(t) ensures x in all {
      var i :| 0 <= i < |states| && x == StateSeries(t, states[i]);
      assert all[i] == x;
    }
    assert StateSetOf(t) == Members(all);
  }

  /**
   * However many snapshots and tunnels repeat a subject, its series are
   * exactly one per state, and their values are those of the last report.
   */
  lemma StateSetsFollowTheLastReport(snapshots: seq<Snapshot>, t: Subject)
    ensures var store := Stored(RenderedAll(snapshots));
            match LastReport(snapshots, t)
            case None => About(store, t) == {}
            case Some(active) =>
              && About(store, t) == StateSetOf(t)
              && forall s :: s in StatesOf(t) ==> StateSeries(t, s) in store && store[StateSeries(t, s)] == Bit(s == active)
  {
    var writes := RenderedAll(snapshots);
    var store, report := Stored(writes), LastReport(snapshots, t);
    forall s | s in StatesOf(t)
      ensures StateSeries(t, s) in store <==> report.Some?
      ensures report.Some? ==> store[StateSeries(t, s)] == Bit(s == report.value)
    {
      StateValue(snapshots, t, s);
    }
    forall x | x in About(store, t) ensures x in StateSetOf(t) {
      StoredIsShaped(snapshots, x);
      var t', s :| s in StatesOf(t') && x == StateSeries(t', s);
      AboutOneSubject(t, t', s);
    }
    forall s | s in StatesOf(t) ensures IsAbout(StateSeries(t, s), t) {
      AboutOneSubject(t, t, s);
    }
  }

  lemma StateValue(snapshots: seq<Snapshot>, t: Subject, s: State)
    requires s in StatesOf(t)
    ensures var store, report := Stored(RenderedAll(snapshots)), LastReport(snapshots, t);
            && (StateSeries(t, s) in store <==> report.Some?)
            && (report.Some? ==> store[StateSeries(t, s)] == Bit(s == report.value))
  {
    EveryValueIsTheLastSaid(snapshots, StateSeries(t, s));
    LastSaidOfState(snapshots, t, s);
  }

  lemma StoredIsShaped(snapshots: seq<Snapshot>, s: Series<Gauge>)
    requires s in Stored(RenderedAll(snapshots)) && IsStateGauge(s.gauge)
    ensures Shaped(s)
  {
    var x, r := EverySeriesIsSaid(snapshots, s);
    ReadingIsShaped(x, PartOf(s.gauge), r);
  }

  lemma ReadingIsShaped(x: Snapshot, p: Part, r: Reading<Gauge>)
    requires r in PartReadings(x, p) && IsStateGauge(r.gauge) && p == PartOf(r.gauge)
    ensures Shaped(Series(r.gauge, r.labels))
  {
    StatePartsAreShaped(x, p);
  }

  lemma {:induction false} Reported(snapshots: seq<Snapshot>, t: Subject, i: nat)
    requires i < |snapshots| && Report(snapshots[i], t).Some?
    ensures LastReport(snapshots, t).Some?
  {
    if i < |snapshots| - 1 {
      Reported(snapshots[..|snapshots| - 1], t, i);
    }
  }

  lemma {:induction false} TunnelIsReported(tunnels: seq<Tunnel>, j: nat)
    requires j < |tunnels|
    ensures LastTunnelState(tunnels, tunnels[j].id, tunnels[j].name).Some?
  {
    if j < |tunnels| - 1 {
      TunnelIsReported(tunnels[..|tunnels| - 1], j);
    }
  }

  ghost predicate ExactlyOneIsSet(store: Store, t: Subject, count: nat)
  {
    && |About(store, t)| == count
    && (forall s :: s in About(store, t) ==> store[s] == 0.0 || store[s] == 1.0)
    && exists s :: s in About(store, t) && store[s] == 1.0 && forall s' :: s' in About(store, t) && store[s'] == 1.0 ==> s' == s
  }

  lemma OneIsSet(store: Store, t: Subject, active: State)
    requires active in StatesOf(t) && About(store, t) == StateSetOf(t)
    requires forall s :: s in StatesOf(t) ==> StateSeries(t, s) in store && store[StateSeries(t, s)] == Bit(s == active)
    ensures ExactlyOneIsSet(store, t, |StateSetOf(t)|)
  {
    var set_ := StateSeries(t, active);
    forall x | x in About(store, t) ensures store[x] == Bit(x == set_) {
      var s :| s in StatesOf(t) && x == StateSeries(t, s);
      SeriesTellApart(t, s, t, active);
    }
    assert set_ in About(store, t) && store[set_] == 1.0;
  }

  lemma ReportedSubjectsAreComplete(snapshots: seq<Snapshot>, t: Subject)
    requires LastReport(snapshots, t).Some?
    ensures ExactlyOneIsSet(Stored(RenderedAll(snapshots)), t, |StatesOf(t)|)
  {
    StateSetsFollowTheLastReport(snapshots, t);
    StateSetSize(t);
    OneIsSet(Stored(RenderedAll(snapshots)), t, LastReport(snapshots, t).value);
  }

  /** Every HA device has exactly five status series, exactly one of them 1. */
  lemma HaDevicesHaveFiveStates(snapshots: seq<Snapshot>, i: nat)
    requires i < |snapshots| && snapshots[i].ha.Some?
    ensures ExactlyOneIsSet(Stored(RenderedAll(snapshots)), HaOf(snapshots[i].device), 5)
  {
    var t := HaOf(snapshots[i].device);
    Reported(snapshots, t, i);
    ReportedSubjectsAreComplete(snapshots, t);
  }

  /** Every tunnel has exactly three state series, exactly one of them 1. */
  lemma TunnelsHaveThreeStates(snapshots: seq<Snapshot>, i: nat, j: nat)
    requires i < |snapshots| && j < |snapshots[i].tunnels|
    ensures var x, tunnel := snapshots[i], snapshots[i].tunnels[j];
            ExactlyOneIsSet(Stored(RenderedAll(snapshots)), TunnelOf(x.device, tunnel.id, tunnel.name), 3)
  {
    var t := TunnelOf(snapshots[i].device, snapshots[i].tunnels[j].id, snapshots[i].tunnels[j].name);
    TunnelIsReported(snapshots[i].tunnels, j);
    Reported(snapshots, t, i);
    ReportedSubjectsAreComplete(snapshots, t);
  }
}
