/** The N devices by M families fan-out of one FMC poll, whose tasks complete in any order. */
module FanOut {
  import opened Prelude
  import opened FmcMap

  datatype Device = Device(id: string, name: string)

  /** One finished task: which request it was and what it mapped to. */
  datatype Completion<G> = Completion(deviceId: string, family: Family, result: FamilyResult<G>)

  /** The results of one device, in completion order. */
  function ResultsFor<G>(id: string, done: seq<Completion<G>>): seq<FamilyResult<G>>
  {
    if done == [] then []
    else
      var c := done[|done| - 1];
      ResultsFor(id, done[..|done| - 1]) + if c.deviceId == id then [c.result] else []
  }

  function Snapshots<G>(devices: seq<Device>, done: seq<Completion<G>>): seq<Snapshot<G>>
  {
    if devices == [] then []
    else
      var d := devices[|devices| - 1];
      var merged := Merge(d.id, d.name, ResultsFor(d.id, done));
      Snapshots(devices[..|devices| - 1], done) + if merged.Some? then [merged.value] else []
  }

  /** One empty list per known device. */
  method ReserveLists<G>(devices: seq<Device>) returns (perDevice: map<string, seq<FamilyResult<G>>>)
    ensures forall k :: k in perDevice <==> exists j :: 0 <= j < |devices| && devices[j].id == k
    ensures forall k :: k in perDevice ==> perDevice[k] == []
  {
    perDevice := map[];
    for i := 0 to |devices|
      invariant forall k :: k in perDevice <==> exists j :: 0 <= j < i && devices[j].id == k
      invariant forall k :: k in perDevice ==> perDevice[k] == []
    {
      perDevice := perDevice[devices[i].id := []];
    }
  }

  /** Each task that completes pushes onto its device's list. */
  method PushResults<G>(reserved: map<string, seq<FamilyResult<G>>>, completions: seq<Completion<G>>)
    returns (perDevice: map<string, seq<FamilyResult<G>>>)
    requires forall k :: k in reserved ==> reserved[k] == []
    ensures perDevice.Keys == reserved.Keys
    ensures forall k :: k in perDevice ==> perDevice[k] == ResultsFor(k, completions)
  {
    perDevice := reserved;
    for i := 0 to |completions|
      invariant perDevice.Keys == reserved.Keys
      invariant forall k :: k in perDevice ==> perDevice[k] == ResultsFor(k, completions[..i])
    {
      var c := completions[i];
      assert completions[..i + 1][..i] == completions[..i];
      if c.deviceId in perDevice {
        perDevice := perDevice[c.deviceId := perDevice[c.deviceId] + [c.result]];
      }
    }
    assert completions[..|completions|] == completions;
  }

  /** The parse errors reported while merging, device by device. */
  function ReportedErrors<G>(devices: seq<Device>, done: seq<Completion<G>>): seq<ParseError>
  {
    if devices == [] then []
    else
      ReportedErrors(devices[..|devices| - 1], done) + AllErrors(ResultsFor(devices[|devices| - 1].id, done))
  }

  method BuildSnapshots<G>(devices: seq<Device>, completions: seq<Completion<G>>)
    returns (snapshots: seq<Snapshot<G>>, reported: seq<ParseError>)
    ensures snapshots == Snapshots(devices, completions)
    ensures reported == ReportedErrors(devices, completions)
  {
    var reserved := ReserveLists<G>(devices);
    var perDevice := PushResults(reserved, completions);
    snapshots, reported := [], [];
    for i := 0 to |devices|
      invariant snapshots == Snapshots(devices[..i], completions)
      invariant reported == ReportedErrors(devices[..i], completions)
    {
      var d := devices[i];
      assert d.id in perDevice.Keys && devices[..i + 1][..i] == devices[..i];
      var merged, errors := MergeFmcFamilies(d.id, d.name, perDevice[d.id]);
      reported := reported + errors;
      if merged.Some? {
        snapshots := snapshots + [merged.value];
      }
    }
    assert devices[..|devices|] == devices;
  }

  // ---------------------------------------------------- order independence

  /** Every (device, family) pair was requested once, and its result fills at most its own group. */
  ghost predicate OncePerPair<G>(done: seq<Completion<G>>)
  {
    && (forall c :: c in done ==> c.result.partial.Keys <= {FieldOf(c.family)})
    && (forall i, j :: 0 <= i < j < |done| ==> done[i].deviceId != done[j].deviceId || done[i].family != done[j].family)
  }

  lemma FieldOfIsInjective(f: Family, g: Family)
    ensures FieldOf(f) == FieldOf(g) ==> f == g
  {
  }

  /** Where the results of a device come from. */
  lemma {:induction false} ResultsComeFrom<G>(id: string, done: seq<Completion<G>>, k: nat) returns (i: nat)
    requires k < |ResultsFor(id, done)|
    ensures i < |done| && done[i].deviceId == id && done[i].result == ResultsFor(id, done)[k]
    ensures k == |ResultsFor(id, done[..i])|
  {
    var n := |done| - 1;
    if k < |ResultsFor(id, done[..n])| {
      i := ResultsComeFrom(id, done[..n], k);
      assert done[..n][..i] == done[..i];
    } else {
      i := n;
    }
  }

  lemma GroupsOfADeviceAreDisjoint<G>(id: string, done: seq<Completion<G>>)
    requires OncePerPair(done)
    ensures DisjointGroups(ResultsFor(id, done))
  {
    var rs := ResultsFor(id, done);
    forall k, l, f | 0 <= k < |rs| && 0 <= l < |rs| && f in rs[k].partial && f in rs[l].partial
      ensures k == l
    {
      var i := ResultsComeFrom(id, done, k);
      var j := ResultsComeFrom(id, done, l);
      assert done[i] in done && done[j] in done;
      FieldOfIsInjective(done[i].family, done[j].family);
      assert i == j;
    }
  }

  lemma {:induction false} ResultsForConcat<G>(id: string, a: seq<Completion<G>>, b: seq<Completion<G>>)
    ensures ResultsFor(id, a + b) == ResultsFor(id, a) + ResultsFor(id, b)
  {
    if b == [] {
      assert a + b == a;
    } else {
      assert (a + b)[..|a + b| - 1] == a + b[..|b| - 1];
      ResultsForConcat(id, a, b[..|b| - 1]);
    }
  }

  lemma ResultsWithOneMore<G>(id: string, before: seq<Completion<G>>, c: Completion<G>, after: seq<Completion<G>>)
    ensures multiset(ResultsFor(id, before + [c] + after))
            == multiset(ResultsFor(id, before + after)) + multiset(ResultsFor(id, [c]))
  {
    ResultsForConcat(id, before, after);
    ResultsForConcat(id, before + [c], after);
    ResultsForConcat(id, before, [c]);
  }

  /** A completion order only reorders the results of each device. */
  lemma {:induction false} ResultsInAnyOrder<G>(id: string, a: seq<Completion<G>>, b: seq<Completion<G>>)
    requires multiset(a) == multiset(b)
    ensures multiset(ResultsFor(id, a)) == multiset(ResultsFor(id, b))
    decreases |a|
  {
    if a == [] {
      assert |b| == |multiset(b)| == 0;
    } else {
      var init, c := a[..|a| - 1], a[|a| - 1];
      assert a == init + [c] + [] && init + [] == init;
      assert c in multiset(b);
      var k :| 0 <= k < |b| && b[k] == c;
      var before, after := b[..k], b[k + 1..];
      assert b == before + [c] + after;
      WithoutOne(init, c, before, after);
      ResultsInAnyOrder(id, init, before + after);
      ResultsWithOneMore(id, init, c, []);
      ResultsWithOneMore(id, before, c, after);
    }
  }

  // -------------------------------------------------- what no order can change

  function WithoutStarts<G>(snapshots: seq<Snapshot<G>>): seq<Snapshot<G>>
  {
    if snapshots == [] then []
    else WithoutStarts(snapshots[..|snapshots| - 1]) + [snapshots[|snapshots| - 1].(windowStart := None)]
  }

  lemma DeviceInAnyOrder<G>(id: string, a: seq<Completion<G>>, b: seq<Completion<G>>)
    requires multiset(a) == multiset(b) && OncePerPair(a)
    ensures multiset(ResultsFor(id, a)) == multiset(ResultsFor(id, b)) && DisjointGroups(ResultsFor(id, a))
    ensures Groups(ResultsFor(id, a)) == Groups(ResultsFor(id, b))
    ensures Window(ResultsFor(id, a)).1 == Window(ResultsFor(id, b)).1
  {
    ResultsInAnyOrder(id, a, b);
    GroupsOfADeviceAreDisjoint(id, a);
    GroupsAndEndInAnyOrder(ResultsFor(id, a), ResultsFor(id, b));
  }

  function MergeFor<G>(d: Device, done: seq<Completion<G>>): Option<Snapshot<G>> { Merge(d.id, d.name, ResultsFor(d.id, done)) }

  function WithoutStart<G>(x: Option<Snapshot<G>>): seq<Snapshot<G>>
  {
    if x.Some? then [x.value.(windowStart := None)] else []
  }

  lemma MergesDifferInStartOnly<G>(d: Device, a: seq<Completion<G>>, b: seq<Completion<G>>)
    requires multiset(a) == multiset(b) && OncePerPair(a)
    ensures WithoutStart(MergeFor(d, a)) == WithoutStart(MergeFor(d, b))
  {
    DeviceInAnyOrder(d.id, a, b);
  }

  lemma OneMoreDevice<G>(devices: seq<Device>, d: Device, done: seq<Completion<G>>)
    ensures var merged := MergeFor(d, done);
            Snapshots(devices + [d], done) == Snapshots(devices, done) + (if merged.Some? then [merged.value] else [])
    ensures WithoutStarts(Snapshots(devices + [d], done)) == WithoutStarts(Snapshots(devices, done)) + WithoutStart(MergeFor(d, done))
  {
    var merged, before := MergeFor(d, done), Snapshots(devices, done);
    assert (devices + [d])[..|devices|] == devices;
    if merged.Some? {
      assert (before + [merged.value])[..|before|] == before;
    } else {
      assert Snapshots(devices + [d], done) == before && WithoutStarts(before) + [] == WithoutStarts(before);
    }
  }

  /**
   * If each (device, family) pair is asked once, the order in which the tasks
   * complete can change nothing but window starts: the same devices get a
   * snapshot, with the same groups and the same window end.
   */
  lemma {:induction false} OnlyStartsCanDiffer<G>(devices: seq<Device>, a: seq<Completion<G>>, b: seq<Completion<G>>)
    requires multiset(a) == multiset(b) && OncePerPair(a)
    ensures WithoutStarts(Snapshots(devices, a)) == WithoutStarts(Snapshots(devices, b))
    decreases |devices|
  {
    if devices != [] {
      var init, d := devices[..|devices| - 1], devices[|devices| - 1];
      OnlyStartsCanDiffer(init, a, b);
      MergesDifferInStartOnly(d, a, b);
      OneMoreDevice(init, d, a);
      OneMoreDevice(init, d, b);
      assert devices == init + [d];
    }
  }

  // ------------------------------------------------------ when the starts agree

  lemma {:induction false} SettledSnapshots<G>(devices: seq<Device>, a: seq<Completion<G>>, b: seq<Completion<G>>)
    requires multiset(a) == multiset(b) && OncePerPair(a)
    requires forall d :: d in devices ==> StartIsSettled(ResultsFor(d.id, a))
    ensures Snapshots(devices, a) == Snapshots(devices, b)
    decreases |devices|
  {
    if devices != [] {
      var d := devices[|devices| - 1];
      SettledSnapshots(devices[..|devices| - 1], a, b);
      DeviceInAnyOrder(d.id, a, b);
      SettledMerge(d.id, d.name, ResultsFor(d.id, a), ResultsFor(d.id, b));
    }
  }

  /** Equal snapshot lists of two orders are equal device by device. */
  lemma {:induction false} SnapshotsTellDevices<G>(devices: seq<Device>, a: seq<Completion<G>>, b: seq<Completion<G>>, i: nat)
    requires multiset(a) == multiset(b) && OncePerPair(a)
    requires Snapshots(devices, a) == Snapshots(devices, b) && i < |devices|
    ensures MergeFor(devices[i], a) == MergeFor(devices[i], b)
    decreases |devices|
  {
    var init, d := devices[..|devices| - 1], devices[|devices| - 1];
    assert devices == init + [d];
    MergesDifferInStartOnly(d, a, b);
    OneMoreDevice(init, d, a);
    OneMoreDevice(init, d, b);
    SplitLast(Snapshots(init, a), MergeFor(d, a), Snapshots(init, b), MergeFor(d, b));
    if i < |init| {
      SnapshotsTellDevices(init, a, b, i);
    }
  }

  lemma SplitLast<G>(s: seq<Snapshot<G>>, x: Option<Snapshot<G>>, t: seq<Snapshot<G>>, y: Option<Snapshot<G>>)
    requires WithoutStart(x) == WithoutStart(y)
    requires s + (if x.Some? then [x.value] else []) == t + (if y.Some? then [y.value] else [])
    ensures s == t && x == y
  {
    assert |WithoutStart(x)| == (if x.Some? then 1 else 0) && |WithoutStart(y)| == (if y.Some? then 1 else 0);
    var u, v := s + (if x.Some? then [x.value] else []), t + (if y.Some? then [y.value] else []);
    assert u[..|s|] == s && v[..|t|] == t;
    if x.Some? {
      assert u[|s|] == x.value && v[|t|] == y.value;
    }
  }

  /** Completing one task before all others puts its result first for its device. */
  lemma ResultToFront<G>(id: string, done: seq<Completion<G>>, k: nat) returns (i: nat)
    requires k < |ResultsFor(id, done)|
    ensures i < |done| && ResultsFor(id, ToFront(done, i)) == ToFront(ResultsFor(id, done), k)
  {
    i := ResultsComeFrom(id, done, k);
    var before, c, after := done[..i], [done[i]], done[i + 1..];
    assert done == before + c + after;
    ResultsForConcat(id, before + c, after);
    ResultsForConcat(id, before, c);
    ResultsForConcat(id, c + before, after);
    ResultsForConcat(id, c, before);
    assert c[..0] == [] && ResultsFor(id, c) == [done[i].result];
    var all := ResultsFor(id, done);
    assert all[..k] == ResultsFor(id, before) && all[k + 1..] == ResultsFor(id, after);
  }

  lemma UnsettledSnapshotsMove<G>(devices: seq<Device>, a: seq<Completion<G>>, b: seq<Completion<G>>, j: nat)
    requires multiset(a) == multiset(b) && OncePerPair(a)
    requires j < |devices| && MergeFor(devices[j], a) != MergeFor(devices[j], b)
    ensures Snapshots(devices, a) != Snapshots(devices, b)
  {
    if Snapshots(devices, a) == Snapshots(devices, b) {
      SnapshotsTellDevices(devices, a, b, j);
    }
  }

  /**
   * The exact condition: a poll's snapshots are the same in every completion
   * order if and only if each device either gets no snapshot or its newest
   * results agree on the window start. The orders are all permutations. For
   * them all to matter, the limiter must let the families of one device run
   * at once, as its five slots by default do for the five families; with
   * fewer slots some orders cannot come about, and the condition is enough
   * but need not be necessary.
   */
  lemma SnapshotsAreOrderIndependentIff<G>(devices: seq<Device>, a: seq<Completion<G>>)
    requires OncePerPair(a)
    ensures (forall b :: multiset(a) == multiset(b) ==> Snapshots(devices, a) == Snapshots(devices, b))
            <==> forall d :: d in devices ==> StartIsSettled(ResultsFor(d.id, a))
  {
    if forall d :: d in devices ==> StartIsSettled(ResultsFor(d.id, a)) {
      forall b | multiset(a) == multiset(b) ensures Snapshots(devices, a) == Snapshots(devices, b) {
        SettledSnapshots(devices, a, b);
      }
    } else {
      var j :| 0 <= j < |devices| && !StartIsSettled(ResultsFor(devices[j].id, a));
      var d := devices[j];
      GroupsOfADeviceAreDisjoint(d.id, a);
      var k := UnsettledStartMoves(d.id, d.name, ResultsFor(d.id, a));
      var i := ResultToFront(d.id, a, k);
      ToFrontIsAPermutation(a, i);
      UnsettledSnapshotsMove(devices, a, ToFront(a, i), j);
    }
  }
  // ------------------------------------------------------ what a snapshot shows

  ghost predicate HasData<G>(d: Device, done: seq<Completion<G>>)
  {
    exists c :: c in done && c.deviceId == d.id && c.result.partial != map[]
  }

  /** Every group is as the one request that has it answered. */
  ghost predicate ShowsGroups<G>(groups: map<GroupField, G>, id: string, done: seq<Completion<G>>)
  {
    && (forall f :: f in groups ==> exists c :: c in done && c.deviceId == id && f in c.result.partial)
    && (forall c, f :: c in done && c.deviceId == id && f in c.result.partial ==> f in groups && groups[f] == c.result.partial[f])
  }

  /** The newest window of the device's requests. */
  ghost predicate ShowsWindow<G>(start: Option<Instant>, end: Option<Instant>, id: string, done: seq<Completion<G>>)
  {
    && (end.None? ==> start.None?)
    && (end.Some? ==> exists c :: c in done && c.deviceId == id && c.result.windowEnd == end && c.result.windowStart == start)
    && (forall c :: c in done && c.deviceId == id && c.result.windowEnd.Some? ==> end.Some? && c.result.windowEnd.value <= end.value)
  }

  ghost predicate IsSnapshotOf<G>(x: Snapshot<G>, d: Device, done: seq<Completion<G>>)
  {
    && x.deviceUid == d.id && x.deviceName == d.name
    && ShowsGroups(x.groups, d.id, done) && ShowsWindow(x.windowStart, x.windowEnd, d.id, done)
  }

  lemma {:induction false} ResultsAreTheCompletions<G>(id: string, done: seq<Completion<G>>, r: FamilyResult<G>)
    ensures r in ResultsFor(id, done) <==> exists c :: c in done && c.deviceId == id && c.result == r
  {
    if done != [] {
      var init, last := done[..|done| - 1], done[|done| - 1];
      ResultsAreTheCompletions(id, init, r);
      assert done == init + [last];
    }
  }

  /** The results of a device as the completions they came with. */
  ghost predicate ComeFrom<G>(rs: seq<FamilyResult<G>>, id: string, done: seq<Completion<G>>)
  {
    && (forall r :: r in rs ==> exists c :: c in done && c.deviceId == id && c.result == r)
    && (forall c :: c in done && c.deviceId == id ==> c.result in rs)
  }

  lemma ResultsComeFromCompletions<G>(id: string, done: seq<Completion<G>>)
    ensures ComeFrom(ResultsFor(id, done), id, done)
  {
    forall r | r in ResultsFor(id, done) ensures exists c :: c in done && c.deviceId == id && c.result == r {
      ResultsAreTheCompletions(id, done, r);
    }
    forall c | c in done && c.deviceId == id ensures c.result in ResultsFor(id, done) {
      ResultsAreTheCompletions(id, done, c.result);
    }
  }

  lemma GroupsComeFrom<G>(rs: seq<FamilyResult<G>>, id: string, done: seq<Completion<G>>)
    requires ComeFrom(rs, id, done) && DisjointGroups(rs)
    ensures ShowsGroups(Groups(rs), id, done)
  {
    GroupsAre(rs);
    forall f | f in Groups(rs) ensures exists c :: c in done && c.deviceId == id && f in c.result.partial {
      var r :| r in rs && f in r.partial;
      var c :| c in done && c.deviceId == id && c.result == r;
    }
  }

  lemma WindowComesFrom<G>(rs: seq<FamilyResult<G>>, id: string, done: seq<Completion<G>>)
    requires ComeFrom(rs, id, done)
    ensures ShowsWindow(Window(rs).0, Window(rs).1, id, done)
  {
    WindowIs(rs);
    var (start, end) := Window(rs);
    if end.Some? {
      var r :| r in rs && r.windowEnd == end && r.windowStart == start;
      var c :| c in done && c.deviceId == id && c.result == r;
    }
  }

  lemma MergeIsOfItsDevice<G>(d: Device, done: seq<Completion<G>>)
    requires OncePerPair(done)
    ensures MergeFor(d, done).Some? <==> HasData(d, done)
    ensures MergeFor(d, done).Some? ==> IsSnapshotOf(MergeFor(d, done).value, d, done)
  {
    var rs := ResultsFor(d.id, done);
    ResultsComeFromCompletions(d.id, done);
    GroupsOfADeviceAreDisjoint(d.id, done);
    GroupsComeFrom(rs, d.id, done);
    WindowComesFrom(rs, d.id, done);
    GroupsShowData(d, done);
  }

  lemma GroupsShowData<G>(d: Device, done: seq<Completion<G>>)
    requires OncePerPair(done)
    ensures Groups(ResultsFor(d.id, done)) != map[] <==> HasData(d, done)
  {
    var rs := ResultsFor(d.id, done);
    GroupsOfADeviceAreDisjoint(d.id, done);
    GroupsAre(rs);
    if HasData(d, done) {
      var c :| c in done && c.deviceId == d.id && c.result.partial != map[];
      ResultsAreTheCompletions(d.id, done, c.result);
      var f :| f in c.result.partial;
      assert f in Groups(rs);
    }
    if Groups(rs) != map[] {
      var f :| f in Groups(rs);
      var r :| r in rs && f in r.partial;
      ResultsAreTheCompletions(d.id, done, r);
    }
  }

  /** The devices get their snapshots in order, each its own, except those that no request had data for. */
  lemma EachDeviceGetsItsOwnSnapshot<G>(devices: seq<Device>, d: Device, done: seq<Completion<G>>)
    requires OncePerPair(done)
    ensures var before, after := Snapshots(devices, done), Snapshots(devices + [d], done);
            if HasData(d, done) then
              |after| == |before| + 1 && after[..|before|] == before && IsSnapshotOf(after[|before|], d, done)
            else after == before
  {
    OneMoreDevice(devices, d, done);
    MergeIsOfItsDevice(d, done);
  }

  /** Every parse error of every request for a device of the poll is reported, and no other. */
  lemma {:induction false} EveryErrorIsReported<G>(devices: seq<Device>, done: seq<Completion<G>>, e: ParseError)
    ensures e in ReportedErrors(devices, done)
            <==> exists d, c :: d in devices && c in done && c.deviceId == d.id && e in c.result.parseErrors
  {
    if devices != [] {
      var init, last := devices[..|devices| - 1], devices[|devices| - 1];
      EveryErrorIsReported(init, done, e);
      ErrorsOfADevice(last.id, done, e);
      assert devices == init + [last];
    }
  }

  lemma {:induction false} ErrorsOfADevice<G>(id: string, done: seq<Completion<G>>, e: ParseError)
    ensures e in AllErrors(ResultsFor(id, done)) <==> exists c :: c in done && c.deviceId == id && e in c.result.parseErrors
  {
    if done != [] {
      var init, last := done[..|done| - 1], done[|done| - 1];
      ErrorsOfADevice(id, init, e);
      assert done == init + [last];
      if last.deviceId == id {
        assert ResultsFor(id, done)[..|ResultsFor(id, init)|] == ResultsFor(id, init);
      } else {
        assert ResultsFor(id, done) == ResultsFor(id, init);
      }
    }
  }
}
