/**
 * Pagination of the FMC device list against a server that sends no paging
 * headers and need not honour the limit it is asked for, or the one it claims.
 */
module Discovery {
  import opened JsonField
  import opened Prelude
  import opened Text

  const PAGE_LIMIT: real := 1000.0

  // --------------------------------------------------------------- the wire

  datatype RawItem = NotAnObject | Item(id: Field<string>, name: Field<string>, isConnected: Option<bool>)

  datatype Items = NoItems | ItemsNotAnArray | Items(list: seq<RawItem>)

  /** One answered page request: a failed GET, a body that is not a JSON object, or a page. */
  datatype Response = GetFailed | BadBody | Page(limit: Option<real>, count: Option<real>, items: Items)

  datatype Device = Device(id: string, name: string, isConnected: Option<bool>)

  datatype Warning = ItemNotAnObject | ItemWithoutId | NameFellBack(id: string) | Truncated(seen: nat, reported: real)

  datatype DiscoveryError = RequestFailed | MalformedPage | TooManyPages

  // ------------------------------------------------------------ one raw item

  predicate HasId(raw: RawItem) { raw.Item? && raw.id.Value? && raw.id.value != "" }

  function NameOf(raw: RawItem): string
    requires HasId(raw)
  {
    var trimmed := if raw.name.Value? then Trim(raw.name.value) else "";
    if trimmed == "" then raw.id.value else trimmed
  }

  /** The FMC appliance itself answers to the id "0", however padded. */
  predicate IsAppliance(raw: RawItem)
    requires HasId(raw)
  {
    Trim(raw.id.value) == "0"
  }

  /** The device a raw item stands for, if any. */
  function DeviceOf(raw: RawItem): seq<Device>
  {
    if HasId(raw) && !IsAppliance(raw) then [Device(raw.id.value, NameOf(raw), raw.isConnected)] else []
  }

  function ItemWarnings(raw: RawItem): seq<Warning>
  {
    if raw.NotAnObject? then [ItemNotAnObject]
    else if !HasId(raw) then [ItemWithoutId]
    else if !raw.name.Value? || Trim(raw.name.value) == "" then [NameFellBack(raw.id.value)]
    else []
  }

  /** The devices among raw items: the valid, non-appliance ones, once each and in order. */
  function Devices(raws: seq<RawItem>): seq<Device>
  {
    if raws == [] then [] else Devices(raws[..|raws| - 1]) + DeviceOf(raws[|raws| - 1])
  }

  lemma {:induction false} DevicesConcat(a: seq<RawItem>, b: seq<RawItem>)
    ensures Devices(a + b) == Devices(a) + Devices(b)
    decreases |b|
  {
    if b == [] {
      assert a + b == a;
    } else {
      assert (a + b)[..|a + b| - 1] == a + b[..|b| - 1];
      DevicesConcat(a, b[..|b| - 1]);
    }
  }

  /** No device ever reaches the renderer with an empty name or as the appliance. */
  lemma {:induction false} DevicesAreNamed(raws: seq<RawItem>)
    ensures forall d :: d in Devices(raws) ==> d.id != "" && d.name != "" && Trim(d.id) != "0"
  {
    if raws != [] {
      DevicesAreNamed(raws[..|raws| - 1]);
    }
  }

  /** The name a device is shown under: the reported one without surrounding space, or the id if there is none. */
  predicate ShownUnder(raw: RawItem, name: string)
    requires raw.Item?
  {
    if raw.name.Value? && Trim(raw.name.value) != "" then name == Trim(raw.name.value) else raw.id == Value(name)
  }

  /** Every item with an id that is not the appliance's is kept, in its place; all others are left out, and only malformed ones are reported. */
  lemma OneMoreItem(raws: seq<RawItem>, raw: RawItem)
    ensures var before, after := Devices(raws), Devices(raws + [raw]);
            if raw.Item? && raw.id.Value? && raw.id.value != "" && Trim(raw.id.value) != "0" then
              && |after| == |before| + 1 && after[..|before|] == before
              && after[|before|].id == raw.id.value && after[|before|].isConnected == raw.isConnected
              && ShownUnder(raw, after[|before|].name)
            else after == before
    ensures var before, after := Warnings(raws), Warnings(raws + [raw]);
            && (raw.NotAnObject? ==> after == before + [ItemNotAnObject])
            && (raw.Item? && (!raw.id.Value? || raw.id.value == "") ==> after == before + [ItemWithoutId])
            && (raw.Item? && raw.id.Value? && raw.id.value != "" ==>
                  after == before + if raw.name.Value? && Trim(raw.name.value) != "" then [] else [NameFellBack(raw.id.value)])
  {
    assert (raws + [raw])[..|raws|] == raws;
  }

  // ------------------------------------------------------------- the outcome

  function RawItems(r: Response): seq<RawItem>
    requires r.Page?
  {
    if r.items.Items? then r.items.list else []
  }

  predicate WellFormed(r: Response) { r.Page? && !r.items.ItemsNotAnArray? }

  function EffectivePageSize(r: Response): real
    requires r.Page?
  {
    if r.limit.Some? && r.limit.value > 0.0 then r.limit.value else PAGE_LIMIT
  }

  predicate LooksShort(r: Response)
    requires r.Page?
  {
    |RawItems(r)| as real < EffectivePageSize(r)
  }

  predicate BelowReported(r: Response, seen: nat)
    requires r.Page?
  {
    r.count.Some? && seen as real < r.count.value
  }

  /** Whether the loop stops after this page, `seen` items into the list, the page's own included. */
  predicate Stops(r: Response, seen: nat)
    requires r.Page?
  {
    RawItems(r) == [] || (LooksShort(r) && !BelowReported(r, seen))
  }

  /** A server: what it answers to the n-th request, which asks for `offset`. */
  type Server = (nat, nat) -> Response

  /** The diagnostics of the malformed items of a page, in order. */
  function Warnings(raws: seq<RawItem>): seq<Warning>
  {
    if raws == [] then [] else Warnings(raws[..|raws| - 1]) + ItemWarnings(raws[|raws| - 1])
  }

  /** How a discovery run ended: its result, the raw items of all pages, the requests it made and its warnings. */
  datatype Run = Run(result: Result<seq<Device>, DiscoveryError>, raws: seq<RawItem>, requests: nat, warnings: seq<Warning>)

  /** The run from its `page`-th request on: the offset asked for is the number of raw items seen. */
  function Paginate(server: Server, page: nat, raws: seq<RawItem>, warnings: seq<Warning>, maxPages: nat): Run
    decreases maxPages - page
  {
    if page >= maxPages then Run(Err(TooManyPages), raws, page, warnings)
    else
      var r := server(page, |raws|);
      if r.GetFailed? then Run(Err(RequestFailed), raws, page + 1, warnings)
      else if !WellFormed(r) then Run(Err(MalformedPage), raws, page + 1, warnings)
      else
        var raws' := raws + RawItems(r);
        var warnings' := warnings + Warnings(RawItems(r));
        if !Stops(r, |raws'|) then Paginate(server, page + 1, raws', warnings', maxPages)
        else Run(Ok(Devices(raws')), raws', page + 1,
                 warnings' + if BelowReported(r, |raws'|) then [Truncated(|raws'|, r.count.value)] else [])
  }

  function Discover(server: Server, maxPages: nat): Run { Paginate(server, 0, [], [], maxPages) }

  method ParsePage(list: seq<RawItem>) returns (devices: seq<Device>, warnings: seq<Warning>)
    ensures devices == Devices(list) && warnings == Warnings(list)
  {
    devices, warnings := [], [];
    for i := 0 to |list|
      invariant devices == Devices(list[..i]) && warnings == Warnings(list[..i])
    {
      var raw := list[i];
      assert list[..i + 1][..i] == list[..i];
      if raw.NotAnObject? {
        warnings := warnings + [ItemNotAnObject];
        continue;
      }
      if !raw.id.Value? || raw.id.value == "" {
        warnings := warnings + [ItemWithoutId];
        continue;
      }
      var name := if raw.name.Value? then Trim(raw.name.value) else "";
      if name == "" {
        warnings := warnings + [NameFellBack(raw.id.value)];
        name := raw.id.value;
      }
      if Trim(raw.id.value) == "0" {
        continue;
      }
      devices := devices + [Device(raw.id.value, name, raw.isConnected)];
    }
    assert list[..|list|] == list;
  }

  /** The page loop. */
  method FetchAllDeviceRecords(server: Server, maxPages: nat)
    returns (result: Result<seq<Device>, DiscoveryError>, requests: nat, warnings: seq<Warning>)
    ensures var run := Discover(server, maxPages);
            result == run.result && requests == run.requests && warnings == run.warnings
  {
    var devices, offset, totalRawItemsSeen := [], 0, 0;
    ghost var raws: seq<RawItem>, run := [], Discover(server, maxPages);
    warnings := [];
    for page := 0 to maxPages
      invariant offset == totalRawItemsSeen == |raws| && devices == Devices(raws)
      invariant run == Paginate(server, page, raws, warnings, maxPages)
    {
      UnfoldPage(server, page, raws, warnings, maxPages);
      var response := server(page, offset);
      if response.GetFailed? {
        return Err(RequestFailed), page + 1, warnings;
      }
      if response.BadBody? || response.items.ItemsNotAnArray? {
        return Err(MalformedPage), page + 1, warnings;
      }
      var list := RawItems(response);
      var parsed, itemWarnings := ParsePage(list);
      warnings := warnings + itemWarnings;
      totalRawItemsSeen := totalRawItemsSeen + |list|;
      devices := devices + parsed;
      DevicesConcat(raws, list);
      raws := raws + list;
      var stillBelow := response.count.Some? && totalRawItemsSeen as real < response.count.value;
      if |list| == 0 {
        if stillBelow {
          warnings := warnings + [Truncated(totalRawItemsSeen, response.count.value)];
        }
        return Ok(devices), page + 1, warnings;
      }
      var effective := if response.limit.Some? && response.limit.value > 0.0 then response.limit.value else PAGE_LIMIT;
      var looksShort := |list| as real < effective;
      offset := offset + |list|;
      if looksShort {
        if stillBelow {
          continue;
        }
        return Ok(devices), page + 1, warnings;
      }
    }
    result, requests := Err(TooManyPages), maxPages;
  }

  /** What one page means for the rest of the run. */
  lemma UnfoldPage(server: Server, page: nat, raws: seq<RawItem>, warnings: seq<Warning>, maxPages: nat)
    requires page < maxPages
    ensures var run, r := Paginate(server, page, raws, warnings, maxPages), server(page, |raws|);
            if r.GetFailed? then run == Run(Err(RequestFailed), raws, page + 1, warnings)
            else if !WellFormed(r) then run == Run(Err(MalformedPage), raws, page + 1, warnings)
            else
              var raws', warnings' := raws + RawItems(r), warnings + Warnings(RawItems(r));
              if !Stops(r, |raws'|) then run == Paginate(server, page + 1, raws', warnings', maxPages)
              else if BelowReported(r, |raws'|)
              then run == Run(Ok(Devices(raws')), raws', page + 1, warnings' + [Truncated(|raws'|, r.count.value)])
              else run == Run(Ok(Devices(raws')), raws', page + 1, warnings')
  {
  }

  // ---------------------------------------------------------- any server

  lemma GoesOn(server: Server, page: nat, raws: seq<RawItem>, warnings: seq<Warning>, maxPages: nat)
    requires page < maxPages && WellFormed(server(page, |raws|))
    requires !Stops(server(page, |raws|), |raws| + |RawItems(server(page, |raws|))|)
    ensures var items := RawItems(server(page, |raws|));
            Paginate(server, page, raws, warnings, maxPages)
            == Paginate(server, page + 1, raws + items, warnings + Warnings(items), maxPages)
  {
  }

  lemma StopsHere(server: Server, page: nat, raws: seq<RawItem>, warnings: seq<Warning>, maxPages: nat)
    requires page < maxPages && WellFormed(server(page, |raws|))
    requires Stops(server(page, |raws|), |raws| + |RawItems(server(page, |raws|))|)
    ensures var run := Paginate(server, page, raws, warnings, maxPages);
            var raws' := raws + RawItems(server(page, |raws|));
            run.result == Ok(Devices(raws')) && run.raws == raws' && run.requests == page + 1
    ensures BelowReported(server(page, |raws|), |raws| + |RawItems(server(page, |raws|))|) ==>
              Truncated(|raws| + |RawItems(server(page, |raws|))|, server(page, |raws|).count.value)
              in Paginate(server, page, raws, warnings, maxPages).warnings
  {
  }

  /** The last page a run asked for, at `offset`, gave a reason to stop, and a result short of its total is warned about. */
  predicate AccountedFor(server: Server, run: Run, offset: nat)
  {
    && run.requests > 0 && offset <= |run.raws|
    && run.result == Ok(Devices(run.raws))
    && var last := server(run.requests - 1, offset);
       && WellFormed(last)
       && run.raws[offset..] == RawItems(last)
       && Stops(last, |run.raws|)
       && (BelowReported(last, |run.raws|) ==>
             RawItems(last) == [] && Truncated(|run.raws|, last.count.value) in run.warnings)
  }

  /** Whatever the server does, every result is accounted for. */
  lemma {:induction false} ResultIsAccountedFor(server: Server, page: nat, raws: seq<RawItem>, warnings: seq<Warning>, maxPages: nat)
    returns (offset: nat)
    requires Paginate(server, page, raws, warnings, maxPages).result.Ok?
    ensures AccountedFor(server, Paginate(server, page, raws, warnings, maxPages), offset)
    ensures page < Paginate(server, page, raws, warnings, maxPages).requests <= maxPages
    decreases maxPages - page
  {
    var r := server(page, |raws|);
    assert page < maxPages && WellFormed(r);
    var raws' := raws + RawItems(r);
    if Stops(r, |raws'|) {
      offset := |raws|;
      assert raws'[offset..] == RawItems(r);
      StopsHere(server, page, raws, warnings, maxPages);
    } else {
      GoesOn(server, page, raws, warnings, maxPages);
      offset := ResultIsAccountedFor(server, page + 1, raws', warnings + Warnings(RawItems(r)), maxPages);
    }
  }

  // ------------------------------------------------- servers that hold a list

  /** A page at `offset` is a piece of the fleet, and empty only at its end. */
  predicate SliceAt(r: Response, fleet: seq<RawItem>, offset: nat)
    requires offset <= |fleet|
  {
    && WellFormed(r)
    && RawItems(r) <= fleet[offset..]
    && (offset < |fleet| ==> RawItems(r) != [])
  }

  /** A server that holds a list, whatever page sizes it honours. */
  ghost predicate Holds(server: Server, fleet: seq<RawItem>)
  {
    forall n: nat, o: nat {:trigger SliceAt(server(n, o), fleet, o)} :: o <= |fleet| ==> SliceAt(server(n, o), fleet, o)
  }

  /** A page that leaves something behind is no reason to stop. */
  predicate GoesOnAt(r: Response, fleet: seq<RawItem>, offset: nat)
  {
    r.Page? && offset + |RawItems(r)| < |fleet| && RawItems(r) != [] ==> !Stops(r, offset + |RawItems(r)|)
  }

  ghost predicate NeverStopsEarly(server: Server, fleet: seq<RawItem>)
  {
    forall n: nat, o: nat {:trigger GoesOnAt(server(n, o), fleet, o)} :: GoesOnAt(server(n, o), fleet, o)
  }

  predicate NoTruncation(warnings: seq<Warning>) { forall w :: w in warnings ==> !w.Truncated? }

  lemma {:induction false} ItemWarningsAreNotTruncation(raws: seq<RawItem>)
    ensures NoTruncation(Warnings(raws))
  {
    if raws != [] {
      ItemWarningsAreNotTruncation(raws[..|raws| - 1]);
    }
  }

  lemma SliceExtends(raws: seq<RawItem>, more: seq<RawItem>, fleet: seq<RawItem>)
    requires raws <= fleet && more <= fleet[|raws|..]
    ensures raws + more <= fleet && |raws| + |more| <= |fleet|
    ensures |raws| + |more| == |fleet| ==> raws + more == fleet
  {
    assert fleet == raws + fleet[|raws|..];
  }

  /** One page of such a server: it adds something unless everything was seen, and stops the loop only at the end. */
  lemma PageOfHolder(server: Server, fleet: seq<RawItem>, page: nat, raws: seq<RawItem>)
    requires Holds(server, fleet) && NeverStopsEarly(server, fleet) && raws <= fleet
    ensures var r := server(page, |raws|);
            && WellFormed(r)
            && var raws' := raws + RawItems(r);
               && raws' <= fleet
               && (Stops(r, |raws'|) ==> raws' == fleet)
               && (!Stops(r, |raws'|) ==> |raws'| > |raws|)
  {
    var r := server(page, |raws|);
    assert SliceAt(r, fleet, |raws|) && GoesOnAt(r, fleet, |raws|);
    SliceExtends(raws, RawItems(r), fleet);
  }

  predicate ReadWhole(run: Run, fleet: seq<RawItem>)
  {
    run.result == Ok(Devices(fleet)) && run.raws == fleet && run.requests <= |fleet| + 1
  }

  /** Such a server is read to the end, in at most one request per item and one more. */
  lemma {:induction false} ReadsToTheEnd(server: Server, fleet: seq<RawItem>, page: nat, raws: seq<RawItem>,
                                           warnings: seq<Warning>, maxPages: nat)
    requires Holds(server, fleet) && NeverStopsEarly(server, fleet)
    requires raws <= fleet && page <= |raws| && maxPages - page >= |fleet| - |raws| + 1
    ensures ReadWhole(Paginate(server, page, raws, warnings, maxPages), fleet)
    decreases maxPages - page
  {
    PageOfHolder(server, fleet, page, raws);
    var items := RawItems(server(page, |raws|));
    if Stops(server(page, |raws|), |raws + items|) {
      StopsHere(server, page, raws, warnings, maxPages);
    } else {
      GoesOn(server, page, raws, warnings, maxPages);
      ReadsToTheEnd(server, fleet, page + 1, raws + items, warnings + Warnings(items), maxPages);
    }
  }

  /** Every page reports this limit and this total. */
  ghost predicate Reports(server: Server, fleet: seq<RawItem>, limit: Option<real>, count: Option<real>)
  {
    forall n: nat, o: nat :: o <= |fleet| ==> server(n, o).Page? && server(n, o).limit == limit && server(n, o).count == count
  }

  /** With the true total, the whole list arrives whatever page sizes the server honours and whatever limit it echoes. */
  lemma TrueTotalSuffices(server: Server, fleet: seq<RawItem>, maxPages: nat)
    requires Holds(server, fleet) && maxPages >= |fleet| + 1
    requires forall n: nat, o: nat :: o <= |fleet| ==> server(n, o).Page? && server(n, o).count == Some(|fleet| as real)
    ensures var run := Discover(server, maxPages);
            run.result == Ok(Devices(fleet)) && run.requests <= |fleet| + 1 && NoTruncation(run.warnings)
  {
    assert NeverStopsEarly(server, fleet);
    ReadsToTheEnd(server, fleet, 0, [], [], maxPages);
    TrueTotalNeverWarns(server, fleet, 0, [], [], maxPages);
  }

  lemma {:induction false} TrueTotalNeverWarns(server: Server, fleet: seq<RawItem>, page: nat, raws: seq<RawItem>,
                                                 warnings: seq<Warning>, maxPages: nat)
    requires Holds(server, fleet) && raws <= fleet && NoTruncation(warnings)
    requires forall n: nat, o: nat :: o <= |fleet| ==> server(n, o).Page? && server(n, o).count == Some(|fleet| as real)
    ensures NoTruncation(Paginate(server, page, raws, warnings, maxPages).warnings)
    decreases maxPages - page
  {
    if page < maxPages {
      var r := server(page, |raws|);
      assert SliceAt(r, fleet, |raws|);
      SliceExtends(raws, RawItems(r), fleet);
      ItemWarningsAreNotTruncation(RawItems(r));
      var raws' := raws + RawItems(r);
      var warnings' := warnings + Warnings(RawItems(r));
      if !Stops(r, |raws'|) {
        GoesOn(server, page, raws, warnings, maxPages);
        TrueTotalNeverWarns(server, fleet, page + 1, raws', warnings', maxPages);
      }
    }
  }

  /** Without a total it arrives when a page below the size the server claims is the last one. */
  lemma HonestLimitSuffices(server: Server, fleet: seq<RawItem>, maxPages: nat)
    requires Holds(server, fleet) && maxPages >= |fleet| + 1
    requires forall n: nat, o: nat :: o < |fleet| && server(n, o).Page? && LooksShort(server(n, o)) ==>
               o + |RawItems(server(n, o))| == |fleet|
    ensures var run := Discover(server, maxPages); run.result == Ok(Devices(fleet)) && run.requests <= |fleet| + 1
  {
    ReadsToTheEnd(server, fleet, 0, [], [], maxPages);
  }

  // ------------------------------------------------ exactly when it is whole

  /** What a server may report so that no choice of page sizes can hide an item. */
  predicate ReportsSuffice(size: nat, limit: Option<real>, count: Option<real>)
  {
    || (count.Some? && count.value > size as real - 1.0)
    || (limit.Some? && 0.0 < limit.value <= 1.0)
    || size <= 1
  }

  /** The server that hands out one item a page. */
  function OneByOne(fleet: seq<RawItem>, limit: Option<real>, count: Option<real>): Server
  {
    (n: nat, o: nat) => Page(limit, count, Items(if o < |fleet| then [fleet[o]] else []))
  }

  lemma OneByOneHolds(fleet: seq<RawItem>, limit: Option<real>, count: Option<real>)
    ensures Holds(OneByOne(fleet, limit, count), fleet) && Reports(OneByOne(fleet, limit, count), fleet, limit, count)
  {
  }

  /** It is cut off at the reported total, or after one item if there is none. */
  lemma {:induction false} OneByOneIsCut(fleet: seq<RawItem>, limit: Option<real>, count: Option<real>, page: nat,
                                           warnings: seq<Warning>, maxPages: nat)
    requires !ReportsSuffice(|fleet|, limit, count) && page < maxPages && page < |fleet|
    requires page > 0 ==> count.Some? && page as real < count.value
    ensures |Paginate(OneByOne(fleet, limit, count), page, fleet[..page], warnings, maxPages).raws| < |fleet|
    decreases |fleet| - page
  {
    var server := OneByOne(fleet, limit, count);
    var r := server(page, page);
    assert fleet[..page] + RawItems(r) == fleet[..page + 1];
    if !Stops(r, page + 1) && page + 1 < maxPages {
      OneByOneIsCut(fleet, limit, count, page + 1, warnings + Warnings(RawItems(r)), maxPages);
    }
  }

  /**
   * The exact guarantee: a limit and a total, reported on every page, make
   * pagination complete against all page-size behaviours if and only if the
   * total is not understated, or the limit is at most 1, or one item is all
   * there is.
   */
  lemma CompleteForEveryPageSizeIff(fleet: seq<RawItem>, limit: Option<real>, count: Option<real>, maxPages: nat)
    requires maxPages >= |fleet| + 1
    ensures ReportsSuffice(|fleet|, limit, count) <==>
            forall server: Server :: Holds(server, fleet) && Reports(server, fleet, limit, count) ==>
              Discover(server, maxPages).raws == fleet && Discover(server, maxPages).result == Ok(Devices(fleet))
  {
    if ReportsSuffice(|fleet|, limit, count) {
      forall server: Server | Holds(server, fleet) && Reports(server, fleet, limit, count)
        ensures Discover(server, maxPages).raws == fleet && Discover(server, maxPages).result == Ok(Devices(fleet))
      {
        assert NeverStopsEarly(server, fleet);
        ReadsToTheEnd(server, fleet, 0, [], [], maxPages);
      }
    } else {
      OneByOneHolds(fleet, limit, count);
      assert fleet[..0] == [];
      OneByOneIsCut(fleet, limit, count, 0, [], maxPages);
    }
  }
  // ------------------------------------------------------------- page by page

  /** The size a page is held against: the limit it reports, or a thousand if that is no positive number. */
  predicate IsShort(r: Response)
    requires r.Page?
  {
    if r.limit.Some? && r.limit.value > 0.0 then |RawItems(r)| as real < r.limit.value else |RawItems(r)| < 1000
  }

  /**
   * What one page does to a run: a failed or malformed one ends it with that
   * error, and a good one ends it exactly if it is empty, or short when the
   * total it reports, if any, has been seen. Running out of pages is an error.
   */
  lemma PageEndsTheRunIff(server: Server, page: nat, raws: seq<RawItem>, warnings: seq<Warning>, maxPages: nat)
    ensures var r, run := server(page, |raws|), Paginate(server, page, raws, warnings, maxPages);
            && (page >= maxPages ==> run.result == Err(TooManyPages) && run.requests == page)
            && (page < maxPages && r.GetFailed? ==> run.result == Err(RequestFailed) && run.requests == page + 1)
            && (page < maxPages && (r.BadBody? || (r.Page? && r.items.ItemsNotAnArray?)) ==>
                  run.result == Err(MalformedPage) && run.requests == page + 1)
            && (page < maxPages && r.Page? && !r.items.ItemsNotAnArray? ==>
                  (run.result.Ok? && run.requests == page + 1 <==>
                     || RawItems(r) == []
                     || (IsShort(r) && (r.count.Some? ==> r.count.value <= (|raws| + |RawItems(r)|) as real))))
  {
    var r := server(page, |raws|);
    if page < maxPages && WellFormed(r) && !Stops(r, |raws + RawItems(r)|) {
      GoesOn(server, page, raws, warnings, maxPages);
      AnotherPageIsAsked(server, page + 1, raws + RawItems(r), warnings + Warnings(RawItems(r)), maxPages);
    }
  }

  lemma AnotherPageIsAsked(server: Server, page: nat, raws: seq<RawItem>, warnings: seq<Warning>, maxPages: nat)
    ensures var run := Paginate(server, page, raws, warnings, maxPages); run.result.Ok? ==> run.requests > page
  {
    if Paginate(server, page, raws, warnings, maxPages).result.Ok? {
      var offset := ResultIsAccountedFor(server, page, raws, warnings, maxPages);
    }
  }
}
