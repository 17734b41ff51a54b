/**
 * Mapping and merging of the FMC health responses: one request per device and
 * metric family, answered in any order, folded into one snapshot per device.
 */
module FmcMap {
  import opened JsonField
  import opened Prelude

  datatype Family = CPU | MEM | DISK_STATS | CHASSIS_STATS | INTERFACE

  /** The optional groups of a device snapshot. */
  datatype GroupField = Cpu | Memory | Disk | Chassis | Ha | RaVpn | S2sTunnels | Interfaces

  type Instant = int

  datatype ParseError = ParseError(deviceUid: string, family: Family)

  /** One family's worth of mapped data; `G` stands for the mapped content of a group. */
  datatype FamilyResult<G> = FamilyResult(
    windowStart: Option<Instant>,
    windowEnd: Option<Instant>,
    partial: map<GroupField, G>,
    parseErrors: seq<ParseError>)

  datatype Snapshot<G> = Snapshot(
    deviceUid: string,
    deviceName: string,
    groups: map<GroupField, G>,
    windowStart: Option<Instant>,
    windowEnd: Option<Instant>)

  // ------------------------------------------------------- one response

  datatype Item<G> =
    | NotAnObject
    | Item(id: Field<string>, start: Option<Result<Instant, ()>>, end: Option<Result<Instant, ()>>, groups: map<Family, Mapped<G>>)

  /** What a group mapper made of its part of an item: maybe a value, and how many parse errors. */
  datatype Mapped<G> = Mapped(value: Option<G>, errors: nat)

  datatype Response<G> =
    | NotAnObjectBody
    | ErrorEnvelope
    | EmptyFamily
    | Items(count: Option<int>, first: Item<G>)

  function FieldOf(f: Family): GroupField
  {
    match f
    case CPU => Cpu
    case MEM => Memory
    case DISK_STATS => Disk
    case CHASSIS_STATS => Chassis
    case INTERFACE => Interfaces
  }

  function Errors(deviceUid: string, f: Family, n: nat): (e: seq<ParseError>)
    ensures |e| == n
  {
    seq(n, i => ParseError(deviceUid, f))
  }

  function Rejected<G>(deviceUid: string, f: Family): FamilyResult<G>
  {
    FamilyResult(None, None, map[], Errors(deviceUid, f, 1))
  }

  function ReadTime(t: Option<Result<Instant, ()>>): Option<Instant>
  {
    if t.Some? && t.value.Ok? then Some(t.value.value) else None
  }

  function TimeErrors(t: Option<Result<Instant, ()>>): nat { if t.Some? && t.value.Err? then 1 else 0 }

  function MapFamilyResponse<G>(response: Response<G>, family: Family, deviceUid: string): FamilyResult<G>
  {
    match response
    case NotAnObjectBody => Rejected(deviceUid, family)
    case ErrorEnvelope => Rejected(deviceUid, family)
    case EmptyFamily => FamilyResult(None, None, map[], [])
    case Items(count, item) =>
      if count.Some? && count.value > 1 then Rejected(deviceUid, family)
      else if item.NotAnObject? || item.id.WrongType? then Rejected(deviceUid, family)
      else if item.id.Value? && item.id.value != deviceUid then Rejected(deviceUid, family)
      else
        var m := if family in item.groups then item.groups[family] else Mapped(None, 0);
        FamilyResult(
          ReadTime(item.start), ReadTime(item.end),
          if m.value.Some? then map[FieldOf(family) := m.value.value] else map[],
          Errors(deviceUid, family, TimeErrors(item.start) + TimeErrors(item.end) + m.errors))
  }

  /**
   * A family result fills at most its own group, and only from an item that is
   * the single match of the query and does not name another device: no device
   * is ever shown another one's data.
   */
  lemma OnlyItsOwnGroupAndDevice<G>(response: Response<G>, family: Family, deviceUid: string)
    ensures var r := MapFamilyResponse(response, family, deviceUid);
            && r.partial.Keys <= {FieldOf(family)}
            && (r.partial != map[] || r.windowEnd.Some? || r.windowStart.Some? ==>
                  && response.Items? && response.first.Item?
                  && (response.count.Some? ==> response.count.value <= 1)
                  && (response.first.id == Absent || response.first.id == Value(deviceUid)))
    ensures var r := MapFamilyResponse(response, family, deviceUid);
            (r.partial == map[] && r.parseErrors == [] && !response.EmptyFamily?) ==>
              response.Items? && response.first.Item?
              && (family in response.first.groups ==> response.first.groups[family].value.None?)
  {
    var r := MapFamilyResponse(response, family, deviceUid);
    if r.partial != map[] {
      assert FieldOf(family) in r.partial;
    } else {
      assert FieldOf(family) !in r.partial;
    }
  }

  /** The one item of the response is about the device that was asked for. */
  predicate Accepted<G>(response: Response<G>, deviceUid: string)
  {
    && response.Items? && (response.count.Some? ==> response.count.value <= 1)
    && response.first.Item? && (response.first.id == Absent || response.first.id == Value(deviceUid))
  }

  predicate Unreadable(raw: Option<Result<Instant, ()>>) { raw.Some? && raw.value.Err? }

  /** An accepted item's window and group are those of the item itself, and every fault in them is reported once. */
  lemma AcceptedItemsAreMapped<G>(response: Response<G>, family: Family, deviceUid: string, t: Instant)
    requires Accepted(response, deviceUid)
    ensures var r, item := MapFamilyResponse(response, family, deviceUid), response.first;
            && (r.windowStart == Some(t) <==> item.start == Some(Ok(t)))
            && (r.windowEnd == Some(t) <==> item.end == Some(Ok(t)))
            && (r.partial == map[] <==> !(family in item.groups && item.groups[family].value.Some?))
            && |r.parseErrors| == (if Unreadable(item.start) then 1 else 0) + (if Unreadable(item.end) then 1 else 0)
                                  + (if family in item.groups then item.groups[family].errors else 0)
            && forall e :: e in r.parseErrors ==> e == ParseError(deviceUid, family)
    ensures var r, groups := MapFamilyResponse(response, family, deviceUid), response.first.groups;
            (family in groups && groups[family].value.Some? ==>
               && (family.CPU? ==> r.partial == map[Cpu := groups[family].value.value])
               && (family.MEM? ==> r.partial == map[Memory := groups[family].value.value])
               && (family.DISK_STATS? ==> r.partial == map[Disk := groups[family].value.value])
               && (family.CHASSIS_STATS? ==> r.partial == map[Chassis := groups[family].value.value])
               && (family.INTERFACE? ==> r.partial == map[Interfaces := groups[family].value.value]))
  {
    var r, groups := MapFamilyResponse(response, family, deviceUid), response.first.groups;
    if family in groups && groups[family].value.Some? {
      assert FieldOf(family) in r.partial;
    }
  }

  /** A family the device does not have is empty; anything else that is not accepted is one parse error and nothing more. */
  lemma OtherResponsesAreEmpty<G>(response: Response<G>, family: Family, deviceUid: string)
    requires !Accepted(response, deviceUid)
    ensures var r := MapFamilyResponse(response, family, deviceUid);
            && r.windowStart.None? && r.windowEnd.None? && r.partial == map[]
            && r.parseErrors == if response.EmptyFamily? then [] else [ParseError(deviceUid, family)]
  {
  }

  // ------------------------------------------------------------- the merge

  /** The window a fold of results ends with: the newest end and the start that came with it. */
  function Window<G>(results: seq<FamilyResult<G>>): (Option<Instant>, Option<Instant>)
  {
    if results == [] then (None, None)
    else
      var (start, end) := Window(results[..|results| - 1]);
      var r := results[|results| - 1];
      if r.windowEnd.Some? && (end.None? || r.windowEnd.value > end.value) then (r.windowStart, r.windowEnd) else (start, end)
  }

  function Groups<G>(results: seq<FamilyResult<G>>): map<GroupField, G>
  {
    if results == [] then map[] else Groups(results[..|results| - 1]) + results[|results| - 1].partial
  }

  function AllErrors<G>(results: seq<FamilyResult<G>>): seq<ParseError>
  {
    if results == [] then [] else AllErrors(results[..|results| - 1]) + results[|results| - 1].parseErrors
  }

  function Merge<G>(deviceUid: string, deviceName: string, results: seq<FamilyResult<G>>): Option<Snapshot<G>>
  {
    if Groups(results) == map[] then None
    else
      var (start, end) := Window(results);
      Some(Snapshot(deviceUid, deviceName, Groups(results), start, end))
  }

  method MergeFmcFamilies<G>(deviceUid: string, deviceName: string, familyResults: seq<FamilyResult<G>>)
    returns (snapshot: Option<Snapshot<G>>, parseErrors: seq<ParseError>)
    ensures snapshot == Merge(deviceUid, deviceName, familyResults)
    ensures parseErrors == AllErrors(familyResults)
  {
    parseErrors := [];
    var groups: map<GroupField, G> := map[];
    var latestEnd: Option<Instant>, pairedStart: Option<Instant> := None, None;
    var contributed := false;
    for i := 0 to |familyResults|
      invariant parseErrors == AllErrors(familyResults[..i]) && groups == Groups(familyResults[..i])
      invariant (pairedStart, latestEnd) == Window(familyResults[..i])
      invariant contributed <==> groups != map[]
    {
      var result := familyResults[i];
      assert familyResults[..i + 1][..i] == familyResults[..i];
      parseErrors := parseErrors + result.parseErrors;
      ghost var before := groups;
      groups := groups + result.partial;
      if result.partial.Keys != {} {
        var field :| field in result.partial;
        assert field in groups;
        contributed := true;
      } else {
        assert groups == before;
      }
      if result.windowEnd.Some? && (latestEnd.None? || result.windowEnd.value > latestEnd.value) {
        latestEnd := result.windowEnd;
        pairedStart := result.windowStart;
      }
    }
    assert familyResults[..|familyResults|] == familyResults;
    if !contributed {
      return None, parseErrors;
    }
    snapshot := Some(Snapshot(deviceUid, deviceName, groups, pairedStart, latestEnd));
  }

  // ---------------------------------------------------- order independence

  /** No two results fill the same group. */
  ghost predicate DisjointGroups<G>(results: seq<FamilyResult<G>>)
  {
    forall i, j, f :: 0 <= i < |results| && 0 <= j < |results| && f in results[i].partial && f in results[j].partial ==> i == j
  }

  /** One of the results with the greatest window end. */
  ghost predicate IsNewest<G>(results: seq<FamilyResult<G>>, r: FamilyResult<G>)
  {
    r in results && r.windowEnd.Some? && forall q :: q in results && q.windowEnd.Some? ==> q.windowEnd.value <= r.windowEnd.value
  }

  /** The newest results agree on the start; older ones need not. */
  ghost predicate NewestAgree<G>(results: seq<FamilyResult<G>>)
  {
    forall r, q :: r in results && q in results && IsNewest(results, r) && IsNewest(results, q) ==> r.windowStart == q.windowStart
  }

  /** What the groups of a fold are, whatever the order: each group as the one result that has it. */
  lemma {:induction false} GroupsAre<G>(results: seq<FamilyResult<G>>)
    requires DisjointGroups(results)
    ensures forall f :: f in Groups(results) <==> exists r :: r in results && f in r.partial
    ensures forall f, r :: r in results && f in r.partial ==> Groups(results)[f] == r.partial[f]
  {
    if results != [] {
      var n := |results| - 1;
      var init := results[..n];
      GroupsAre(init);
      forall f, r | r in results && f in r.partial ensures f in Groups(results) && Groups(results)[f] == r.partial[f] {
        var i :| 0 <= i < |results| && results[i] == r;
        if f in results[n].partial {
          assert i == n;
        } else {
          assert init[i] == r;
        }
      }
      forall f | f in Groups(results) ensures exists r :: r in results && f in r.partial {
        if f in results[n].partial {
          assert results[n] in results;
        } else {
          assert f in Groups(init);
          var r :| r in init && f in r.partial;
          assert r in results;
        }
      }
    }
  }

  /** What its window is, whatever the order: the maximum end, with the start of a result that has it. */
  lemma {:induction false} WindowIs<G>(results: seq<FamilyResult<G>>)
    ensures var (start, end) := Window(results);
            && (end.None? ==> start.None? && forall r :: r in results ==> r.windowEnd.None?)
            && (end.Some? ==>
                  && (exists r :: r in results && r.windowEnd == end && r.windowStart == start)
                  && (forall r :: r in results && r.windowEnd.Some? ==> r.windowEnd.value <= end.value))
  {
    if results != [] {
      var n := |results| - 1;
      var init, last := results[..n], results[n];
      WindowIs(init);
      assert results == init + [last];
      var (start, end) := Window(results);
      if end.Some? {
        if last.windowEnd == end && last.windowStart == start {
          assert last in results;
        } else {
          var r :| r in init && r.windowEnd == end && r.windowStart == start;
          assert r in results;
        }
      }
    }
  }

  /** Disjointness is a matter of which results there are, not of their order. */
  lemma DisjointInAnyOrder<G>(a: seq<FamilyResult<G>>, b: seq<FamilyResult<G>>)
    requires multiset(a) == multiset(b) && DisjointGroups(a)
    ensures DisjointGroups(b)
  {
    forall i, j, f | 0 <= i < |b| && 0 <= j < |b| && f in b[i].partial && f in b[j].partial ensures i == j {
      if i != j {
        var p, q := TwoPlaces(a, b, i, j);
      }
    }
  }

  /** In any order the results merge to the same groups and the same window end. */
  lemma GroupsAndEndInAnyOrder<G>(a: seq<FamilyResult<G>>, b: seq<FamilyResult<G>>)
    requires multiset(a) == multiset(b) && DisjointGroups(a)
    ensures Groups(a) == Groups(b) && Window(a).1 == Window(b).1
  {
    DisjointInAnyOrder(a, b);
    SameMembers(a, b);
    GroupsMatch(a, b);
    EndsMatch(a, b);
  }

  lemma GroupIsShared<G>(a: seq<FamilyResult<G>>, b: seq<FamilyResult<G>>, f: GroupField)
    requires DisjointGroups(a) && DisjointGroups(b) && (forall r :: r in a ==> r in b) && f in Groups(a)
    ensures f in Groups(b) && Groups(a)[f] == Groups(b)[f]
  {
    GroupsAre(a);
    var r :| r in a && f in r.partial;
    assert Groups(a)[f] == r.partial[f] && r in b;
    GroupsAre(b);
  }

  lemma GroupsMatch<G>(a: seq<FamilyResult<G>>, b: seq<FamilyResult<G>>)
    requires DisjointGroups(a) && DisjointGroups(b) && forall r :: r in a <==> r in b
    ensures Groups(a) == Groups(b)
  {
    forall f | f in Groups(a) ensures f in Groups(b) && Groups(a)[f] == Groups(b)[f] {
      GroupIsShared(a, b, f);
    }
    forall f | f in Groups(b) ensures f in Groups(a) {
      GroupIsShared(b, a, f);
    }
  }

  lemma EndsMatch<G>(a: seq<FamilyResult<G>>, b: seq<FamilyResult<G>>)
    requires forall r :: r in a <==> r in b
    ensures Window(a).1 == Window(b).1
  {
    WindowIs(a);
    WindowIs(b);
  }

  /** The window comes from a newest result. */
  lemma WindowIsNewest<G>(results: seq<FamilyResult<G>>) returns (r: FamilyResult<G>)
    requires Window(results).1.Some?
    ensures IsNewest(results, r) && Window(results) == (r.windowStart, r.windowEnd)
  {
    WindowIs(results);
    var (start, end) := Window(results);
    r :| r in results && r.windowEnd == end && r.windowStart == start;
  }

  /** If the newest results agree on the start, the whole merge is the same in any order. */
  lemma MergeIsOrderIndependent<G>(uid: string, name: string, a: seq<FamilyResult<G>>, b: seq<FamilyResult<G>>)
    requires multiset(a) == multiset(b) && DisjointGroups(a) && NewestAgree(a)
    ensures Merge(uid, name, a) == Merge(uid, name, b)
  {
    GroupsAndEndInAnyOrder(a, b);
    SameMembers(a, b);
    if Window(a).1.Some? {
      var r := WindowIsNewest(a);
      var q := WindowIsNewest(b);
      assert IsNewest(a, q);
    } else {
      WindowIs(a);
      WindowIs(b);
    }
  }

  /** A newest result that comes first decides the start. */
  lemma {:induction false} FirstNewestWins<G>(r: FamilyResult<G>, rest: seq<FamilyResult<G>>)
    requires r.windowEnd.Some? && forall q :: q in rest && q.windowEnd.Some? ==> q.windowEnd.value <= r.windowEnd.value
    ensures Window([r] + rest) == (r.windowStart, r.windowEnd)
  {
    if rest == [] {
      assert [r] + rest == [r] && [r][..0] == [];
    } else {
      assert ([r] + rest)[..|rest|] == [r] + rest[..|rest| - 1];
      FirstNewestWins(r, rest[..|rest| - 1]);
    }
  }

  lemma NewestToFront<G>(results: seq<FamilyResult<G>>, r: FamilyResult<G>) returns (k: nat)
    requires IsNewest(results, r)
    ensures k < |results| && results[k] == r && Window(ToFront(results, k)) == (r.windowStart, r.windowEnd)
  {
    k :| 0 <= k < |results| && results[k] == r;
    var rest := results[..k] + results[k + 1..];
    assert ToFront(results, k) == [r] + rest;
    assert forall q :: q in rest ==> q in results;
    FirstNewestWins(r, rest);
  }

  /** There is no snapshot at all, or its start is the same whichever newest result it comes from. */
  ghost predicate StartIsSettled<G>(results: seq<FamilyResult<G>>) { Groups(results) == map[] || NewestAgree(results) }

  /** A start that is not settled is changed by moving some newest result to the front. */
  lemma UnsettledStartMoves<G>(uid: string, name: string, a: seq<FamilyResult<G>>) returns (k: nat)
    requires DisjointGroups(a) && !StartIsSettled(a)
    ensures k < |a| && Merge(uid, name, a) != Merge(uid, name, ToFront(a, k))
  {
    var r, q :| r in a && q in a && IsNewest(a, r) && IsNewest(a, q) && r.windowStart != q.windowStart;
    k := NewestToFront(a, if Window(a).0 == r.windowStart then q else r);
    ToFrontIsAPermutation(a, k);
    GroupsAndEndInAnyOrder(a, ToFront(a, k));
  }

  /**
   * The exact condition: the merge is the same in every order if and only if
   * there is no snapshot at all or the newest results agree on the start.
   */
  lemma MergeIsOrderIndependentIff<G>(uid: string, name: string, a: seq<FamilyResult<G>>)
    requires DisjointGroups(a)
    ensures (forall b :: multiset(a) == multiset(b) ==> Merge(uid, name, a) == Merge(uid, name, b))
            <==> StartIsSettled(a)
  {
    if StartIsSettled(a) {
      forall b | multiset(a) == multiset(b) ensures Merge(uid, name, a) == Merge(uid, name, b) {
        SettledMerge(uid, name, a, b);
      }
    } else {
      var k := UnsettledStartMoves(uid, name, a);
      ToFrontIsAPermutation(a, k);
    }
  }

  lemma SettledMerge<G>(uid: string, name: string, a: seq<FamilyResult<G>>, b: seq<FamilyResult<G>>)
    requires multiset(a) == multiset(b) && DisjointGroups(a) && StartIsSettled(a)
    ensures Merge(uid, name, a) == Merge(uid, name, b)
  {
    GroupsAndEndInAnyOrder(a, b);
    if NewestAgree(a) {
      MergeIsOrderIndependent(uid, name, a, b);
    }
  }
}
