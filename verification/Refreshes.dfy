/**
 * The refreshes behind the last-good caches: what the mappers make of each
 * response, when an empty result is banked, and the sequence in which both
 * adapters refresh at the end of a poll.
 */
module Refreshes {
  import opened JsonField
  import opened LastGood
  import opened LastGoodClass
  import opened Prelude
  import opened Timestamps
  import C = Certificates
  import Collector
  import Discovery
  import Inventory = InventoryCollector
  import L = License

  /** What a request came back with. */
  datatype Answer<P> = Closed | Failed | Garbage | Parsed(payload: P)

  // ------------------------------------------------------------- certificates

  function CertificateWire(a: Answer<C.Payload>, lookup: C.Lookup, engine: Engine): Wire<seq<C.Entry>>
  {
    match a
    case Closed => NotReady
    case Failed => RequestFailed
    case Garbage => NotJson
    case Parsed(payload) =>
      var mapped := C.MapResponse(payload, lookup, engine);
      Body(mapped.entries, |mapped.errors|)
  }

  /** A component that is absent, or not applicable and without an expiry. */
  predicate Silent(c: C.Component)
  {
    || (c.status.Absent? && c.expiry.Absent?)
    || (c.status == Value("NOT_APPLICABLE") && (c.expiry.Absent? || c.expiry == Value("-")))
  }

  predicate SilentCert(cert: C.RawCert) { cert.Enrolled? && Silent(cert.ca) && Silent(cert.identity) }

  /** A well-formed record of a known device that enrolls nothing with an expiry. */
  predicate SilentRecord(r: C.RawRecord, lookup: C.Lookup)
  {
    && r.Record? && r.id.Value? && lookup(r.id.value).Some?
    && (r.enrolled.NoList? || (r.enrolled.Listed? && forall i :: 0 <= i < |r.enrolled.certs| ==> SilentCert(r.enrolled.certs[i])))
  }

  predicate SilentPayload(payload: C.Payload, lookup: C.Lookup)
  {
    payload.Items? && forall i :: 0 <= i < |payload.records| ==> SilentRecord(payload.records[i], lookup)
  }

  /** Everything a mapping produced, entries and errors alike. */
  function Output(m: C.Mapped): nat { |m.entries| + |m.errors| }

  lemma ComponentOutput(p: C.Progress, d: Collector.Device, name: string, t: C.CertType, c: C.Component, engine: Engine)
    ensures Output(C.MapComponent(p, d, name, t, c, engine).mapped) == Output(p.mapped) + if Silent(c) then 0 else 1
  {
  }

  lemma CertOutput(p: C.Progress, d: Collector.Device, cert: C.RawCert, engine: Engine)
    ensures Output(C.MapCert(p, d, cert, engine).mapped) >= Output(p.mapped)
    ensures Output(C.MapCert(p, d, cert, engine).mapped) == Output(p.mapped) <==> SilentCert(cert)
  {
    if cert.Enrolled? {
      var name := if cert.name.Value? then cert.name.value else "";
      ComponentOutput(p, d, name, C.Ca, cert.ca, engine);
      ComponentOutput(C.MapComponent(p, d, name, C.Ca, cert.ca, engine), d, name, C.Identity, cert.identity, engine);
    }
  }

  lemma {:induction false} CertsOutput(p: C.Progress, d: Collector.Device, certs: seq<C.RawCert>, engine: Engine)
    ensures Output(C.MapCerts(p, d, certs, engine).mapped) >= Output(p.mapped)
    ensures Output(C.MapCerts(p, d, certs, engine).mapped) == Output(p.mapped)
            <==> forall i :: 0 <= i < |certs| ==> SilentCert(certs[i])
  {
    if certs != [] {
      var init, last := certs[..|certs| - 1], certs[|certs| - 1];
      CertsOutput(p, d, init, engine);
      CertOutput(C.MapCerts(p, d, init, engine), d, last, engine);
      assert forall i :: 0 <= i < |init| ==> init[i] == certs[i];
    }
  }

  lemma RecordOutput(m: C.Mapped, r: C.RawRecord, lookup: C.Lookup, engine: Engine)
    ensures Output(C.MapRecord(m, r, lookup, engine)) >= Output(m)
    ensures Output(C.MapRecord(m, r, lookup, engine)) == Output(m) <==> SilentRecord(r, lookup)
  {
    if r.Record? && r.id.Value? && lookup(r.id.value).Some? && r.enrolled.Listed? {
      CertsOutput(C.Progress(m, {}), lookup(r.id.value).value, r.enrolled.certs, engine);
    }
  }

  lemma {:induction false} RecordsOutput(records: seq<C.RawRecord>, lookup: C.Lookup, engine: Engine)
    ensures Output(C.MapRecords(records, lookup, engine)) == 0
            <==> forall i :: 0 <= i < |records| ==> SilentRecord(records[i], lookup)
  {
    if records != [] {
      var init, last := records[..|records| - 1], records[|records| - 1];
      RecordsOutput(init, lookup, engine);
      RecordOutput(C.MapRecords(init, lookup, engine), last, lookup, engine);
      assert forall i :: 0 <= i < |init| ==> init[i] == records[i];
    }
  }

  /**
   * An empty certificate list is banked exactly when every record is well
   * formed, resolves to a known device and enrolls nothing that has an expiry.
   */
  lemma EmptyCertificatesBankedIff(payload: C.Payload, lookup: C.Lookup, engine: Engine)
    ensures FromWire(CertificateWire(Parsed(payload), lookup, engine), []) == Ok([]) <==> SilentPayload(payload, lookup)
  {
    if payload.Items? {
      RecordsOutput(payload.records, lookup, engine);
    }
  }

  /** Every record names a device that is not known. */
  predicate AllMiss(payload: C.Payload, lookup: C.Lookup)
  {
    && payload.Items? && payload.records != []
    && forall i :: 0 <= i < |payload.records| ==>
         payload.records[i].Record? && payload.records[i].id.Value? && lookup(payload.records[i].id.value).None?
  }

  lemma {:induction false} MissesYieldNothing(records: seq<C.RawRecord>, lookup: C.Lookup, engine: Engine)
    requires forall i :: 0 <= i < |records| ==> records[i].Record? && records[i].id.Value? && lookup(records[i].id.value).None?
    ensures C.MapRecords(records, lookup, engine).entries == []
  {
    if records != [] {
      var init := records[..|records| - 1];
      assert forall i :: 0 <= i < |init| ==> init[i] == records[i];
      MissesYieldNothing(init, lookup, engine);
    }
  }

  /** A response of unknown devices only is a failed refresh. */
  lemma AllMissIsThrown(payload: C.Payload, lookup: C.Lookup, engine: Engine)
    requires AllMiss(payload, lookup)
    ensures FromWire(CertificateWire(Parsed(payload), lookup, engine), []).Err?
  {
    MissesYieldNothing(payload.records, lookup, engine);
    EmptyCertificatesBankedIff(payload, lookup, engine);
    assert !SilentRecord(payload.records[0], lookup);
  }

  /** What one certificate refresh met: the answer, and the devices known when it came. */
  datatype Feed = Feed(answer: Answer<C.Payload>, lookup: C.Lookup)

  function WiresOf(feeds: seq<Feed>, engine: Engine): seq<Wire<seq<C.Entry>>>
  {
    seq(|feeds|, i requires 0 <= i < |feeds| => CertificateWire(feeds[i].answer, feeds[i].lookup, engine))
  }

  type CertificateAction = Action<seq<C.Entry>, Wire<seq<C.Entry>>>

  /** The feed accounts for the entries: a response that was not all misses, silent throughout if they are empty, or no request at all. */
  predicate BankedFrom(f: Feed, engine: Engine, entries: seq<C.Entry>)
  {
    || (f.answer.Closed? && entries == [])
    || (&& f.answer.Parsed? && C.MapResponse(f.answer.payload, f.lookup, engine).entries == entries
        && !AllMiss(f.answer.payload, f.lookup)
        && (entries == [] ==> SilentPayload(f.answer.payload, f.lookup)))
  }

  lemma BankedMeansFrom(f: Feed, engine: Engine, entries: seq<C.Entry>)
    requires Banks(CertificateWire(f.answer, f.lookup, engine), [], entries)
    ensures BankedFrom(f, engine, entries)
  {
    if f.answer.Parsed? {
      EmptyCertificatesBankedIff(f.answer.payload, f.lookup, engine);
      if AllMiss(f.answer.payload, f.lookup) {
        AllMissIsThrown(f.answer.payload, f.lookup, engine);
      }
    }
  }

  /**
   * Over any run of the certificate cache: it holds what it held before or
   * the entries of some response that was not all misses, and an open adapter
   * empties it only by a response that was silent throughout.
   */
  lemma CertificateCacheIsNeverWiped(s: State<seq<C.Entry>>, actions: seq<CertificateAction>, feeds: seq<Feed>, engine: Engine, interval: real)
    requires FedBy(actions, WiresOf(feeds, engine), [])
    ensures var cached := Exec(s, actions, interval).c.cached;
            cached == s.c.cached || exists i :: 0 <= i < |feeds| && BankedFrom(feeds[i], engine, cached)
  {
    CacheHoldsWhatWasBanked(s, actions, WiresOf(feeds, engine), [], interval);
    var cached := Exec(s, actions, interval).c.cached;
    if i: nat :| Banked(actions, WiresOf(feeds, engine), [], cached, i) {
      BankedMeansFrom(feeds[i], engine, cached);
    }
  }

  /** In particular, on an open adapter responses of unknown devices alone never change it, whatever fails between them. */
  lemma AllMissesNeverReplace(s: State<seq<C.Entry>>, actions: seq<CertificateAction>, feeds: seq<Feed>, engine: Engine, interval: real)
    requires FedBy(actions, WiresOf(feeds, engine), [])
    requires forall i :: 0 <= i < |feeds| ==> !feeds[i].answer.Closed?
    requires forall i :: 0 <= i < |feeds| && feeds[i].answer.Parsed? ==> AllMiss(feeds[i].answer.payload, feeds[i].lookup)
    ensures Exec(s, actions, interval).c.cached == s.c.cached
  {
    CertificateCacheIsNeverWiped(s, actions, feeds, engine, interval);
  }

  // ------------------------------------------------------- which devices are known

  function FindByUidOnFmc(entries: seq<Inventory.Entry>, id: string): Option<Collector.Device>
  {
    if entries == [] then None
    else
      var last := entries[|entries| - 1];
      if last.uidOnFmc == Some(id) then Some(last.device) else FindByUidOnFmc(entries[..|entries| - 1], id)
  }

  /** SCC joins certificate ids against the inventory list as it is now; a later entry replaces an earlier one. */
  function InventoryLookup(entries: seq<Inventory.Entry>): C.Lookup { id => FindByUidOnFmc(entries, id) }

  function FindById(devices: seq<Discovery.Device>, id: string): Option<Collector.Device>
  {
    if devices == [] then None
    else
      var last := devices[|devices| - 1];
      if last.id == id then Some(Collector.Device(last.id, last.name)) else FindById(devices[..|devices| - 1], id)
  }

  /** FMC joins them against the discovered devices. */
  function DiscoveryLookup(devices: seq<Discovery.Device>): C.Lookup { id => FindById(devices, id) }

  /** A certificate id names the device of the last entry that has it, and none if no entry has it. */
  lemma {:induction false} InventoryKnows(entries: seq<Inventory.Entry>, id: string)
    ensures var found := InventoryLookup(entries)(id);
            if found.Some? then
              exists k :: 0 <= k < |entries| && entries[k].uidOnFmc == Some(id) && entries[k].device == found.value
                          && forall j :: k < j < |entries| ==> entries[j].uidOnFmc != Some(id)
            else forall k :: 0 <= k < |entries| ==> entries[k].uidOnFmc != Some(id)
  {
    if entries != [] {
      var n := |entries| - 1;
      InventoryKnows(entries[..n], id);
      assert entries == entries[..n] + [entries[n]];
      if entries[n].uidOnFmc != Some(id) && FindByUidOnFmc(entries[..n], id).Some? {
        var k :| 0 <= k < n && entries[..n][k].uidOnFmc == Some(id)
                 && entries[..n][k].device == FindByUidOnFmc(entries[..n], id).value
                 && forall j :: k < j < n ==> entries[..n][j].uidOnFmc != Some(id);
        assert entries[k] == entries[..n][k] && forall j :: k < j < n ==> entries[j] == entries[..n][j];
      }
    }
  }

  /** The same of the discovered devices, which go by their own id. */
  lemma {:induction false} DiscoveryKnows(devices: seq<Discovery.Device>, id: string)
    ensures var found := DiscoveryLookup(devices)(id);
            if found.Some? then
              found.value.uid == id
              && exists k :: 0 <= k < |devices| && devices[k].id == id && devices[k].name == found.value.name
                             && forall j :: k < j < |devices| ==> devices[j].id != id
            else forall k :: 0 <= k < |devices| ==> devices[k].id != id
  {
    if devices != [] {
      var n := |devices| - 1;
      DiscoveryKnows(devices[..n], id);
      assert devices == devices[..n] + [devices[n]];
      if devices[n].id != id && FindById(devices[..n], id).Some? {
        var k :| 0 <= k < n && devices[..n][k].id == id && devices[..n][k].name == FindById(devices[..n], id).value.name
                 && forall j :: k < j < n ==> devices[..n][j].id != id;
        assert devices[k] == devices[..n][k] && forall j :: k < j < n ==> devices[j] == devices[..n][j];
      }
    }
  }

  /** Before the first inventory refresh only a response without any record is banked, so a later one is still due. */
  lemma NothingIsBankedBeforeInventory(payload: C.Payload, engine: Engine)
    ensures var r := FromWire(CertificateWire(Parsed(payload), InventoryLookup([]), engine), []);
            r.Ok? <==> payload == C.Items([])
  {
    var lookup := InventoryLookup([]);
    if payload.Items? {
      NoDeviceNoEntry(payload.records, lookup, engine);
      EmptyCertificatesBankedIff(payload, lookup, engine);
      if payload.records != [] {
        assert !SilentRecord(payload.records[0], lookup);
      }
    }
  }

  lemma {:induction false} NoDeviceNoEntry(records: seq<C.RawRecord>, lookup: C.Lookup, engine: Engine)
    requires forall id :: lookup(id).None?
    ensures C.MapRecords(records, lookup, engine).entries == []
  {
    if records != [] {
      NoDeviceNoEntry(records[..|records| - 1], lookup, engine);
    }
  }

  // ------------------------------------------------------------------- license

  function LicenseWire(a: Answer<L.LicensePayload>, engine: Engine): Wire<Option<L.Status>>
  {
    match a
    case Closed => NotReady
    case Failed => RequestFailed
    case Garbage => NotJson
    case Parsed(payload) =>
      var mapped := L.MapLicense(payload, engine);
      Body(mapped.status, mapped.errors)
  }

  /** The absence of a license is banked only from a response that lists none. */
  lemma NoLicenseBankedIff(payload: L.LicensePayload, engine: Engine)
    ensures FromWire(LicenseWire(Parsed(payload), engine), None) == Ok(None) <==> payload == L.Items([])
  {
  }

  type LicenseAction = Action<Option<L.Status>, Wire<Option<L.Status>>>

  function LicenseWires(answers: seq<Answer<L.LicensePayload>>, engine: Engine): seq<Wire<Option<L.Status>>>
  {
    seq(|answers|, i requires 0 <= i < |answers| => LicenseWire(answers[i], engine))
  }

  /** The answer accounts for the status: the one it was mapped to, or none because it lists none or the adapter is closed. */
  predicate LicenseFrom(a: Answer<L.LicensePayload>, engine: Engine, status: Option<L.Status>)
  {
    || (a.Closed? && status.None?)
    || (a.Parsed? && L.MapLicense(a.payload, engine).status == status && (status.None? ==> a.payload == L.Items([])))
  }

  /** Over any run the license cache holds what it held before or a status some response accounts for: no failure ever empties it. */
  lemma LicenseCacheIsNeverWiped(s: State<Option<L.Status>>, actions: seq<LicenseAction>, answers: seq<Answer<L.LicensePayload>>,
                                 engine: Engine, interval: real)
    requires FedBy(actions, LicenseWires(answers, engine), None)
    ensures var cached := Exec(s, actions, interval).c.cached;
            cached == s.c.cached || exists i :: 0 <= i < |answers| && LicenseFrom(answers[i], engine, cached)
  {
    CacheHoldsWhatWasBanked(s, actions, LicenseWires(answers, engine), None, interval);
    var cached := Exec(s, actions, interval).c.cached;
    if i: nat :| Banked(actions, LicenseWires(answers, engine), None, cached, i) {
      if answers[i].Parsed? {
        NoLicenseBankedIff(answers[i].payload, engine);
      }
      assert LicenseFrom(answers[i], engine, cached);
    }
  }

  // ---------------------------------------------------- the end of a poll, SCC

  datatype Span = Span(started: real, ended: real)

  /** The caches of the SCC adapter; an omitted interval leaves one out. */
  class SccAdapter {
    var inventory: RefreshCache?<seq<Inventory.Entry>>
    var license: RefreshCache?<Option<L.Status>>
    var certificates: RefreshCache?<seq<C.Entry>>

    ghost predicate Valid()
      reads this, inventory, license, certificates
    {
      && (inventory != null ==> inventory.Valid())
      && (license != null ==> license.Valid())
      && (certificates != null ==> certificates.Valid())
      && (inventory != null && license != null ==> inventory as object != license)
      && (inventory != null && certificates != null ==> inventory as object != certificates)
      && (license != null && certificates != null ==> license as object != certificates)
    }

    constructor (inventory: RefreshCache?<seq<Inventory.Entry>>, license: RefreshCache?<Option<L.Status>>,
                 certificates: RefreshCache?<seq<C.Entry>>)
      ensures this.inventory == inventory && this.license == license && this.certificates == certificates
    {
      this.inventory, this.license, this.certificates := inventory, license, certificates;
    }

    function InventoryList(): seq<Inventory.Entry>
      reads this, inventory
    {
      if inventory == null then [] else inventory.cached
    }

    /**
     * The `finally` block of fetchSnapshot(), which runs however the health
     * request ended: each cache in turn starts or joins a refresh and waits
     * for it. No outcome of one keeps another from running, and certificates
     * are joined against the inventory this very block left behind.
     */
    method RefreshCaches(inventoryWire: Wire<seq<Inventory.Entry>>, licenseAnswer: Answer<L.LicensePayload>,
                         certificateAnswer: Answer<C.Payload>, engine: Engine, first: Span, second: Span, third: Span)
      requires Valid()
      modifies inventory, license, certificates
      ensures Valid()
      ensures inventory != null ==>
                inventory.View() == old(Awaited(inventory.View(), FromWire(inventoryWire, []), first.started, first.ended,
                                                inventory.intervalMs))
      ensures license != null ==>
                license.View() == old(Awaited(license.View(), FromWire(LicenseWire(licenseAnswer, engine), None),
                                              second.started, second.ended, license.intervalMs))
      ensures certificates != null ==>
                var lookup := InventoryLookup(InventoryList());
                certificates.View()
                == Awaited(old(certificates.View()), FromWire(CertificateWire(certificateAnswer, lookup, engine), []),
                           third.started, third.ended, certificates.intervalMs)
    {
      if inventory != null {
        inventory.AwaitRefresh(FromWire(inventoryWire, []), first.started, first.ended);
      }
      if license != null {
        license.AwaitRefresh(FromWire(LicenseWire(licenseAnswer, engine), None), second.started, second.ended);
      }
      if certificates != null {
        var lookup := InventoryLookup(InventoryList());
        certificates.AwaitRefresh(FromWire(CertificateWire(certificateAnswer, lookup, engine), []), third.started, third.ended);
      }
    }
  }

  // ---------------------------------------------------- the end of a poll, FMC

  class FmcAdapter {
    var license: RefreshCache?<Option<L.Status>>
    var certificates: RefreshCache?<seq<C.Entry>>

    ghost predicate Valid()
      reads this, license, certificates
    {
      && (license != null ==> license.Valid())
      && (certificates != null ==> certificates.Valid())
      && (license != null && certificates != null ==> license as object != certificates)
    }

    constructor (license: RefreshCache?<Option<L.Status>>, certificates: RefreshCache?<seq<C.Entry>>)
      ensures this.license == license && this.certificates == certificates
    {
      this.license, this.certificates := license, certificates;
    }

    /** The same block of the FMC adapter; `devices` is what discovery answers once the certificates have arrived. */
    method RefreshCaches(licenseAnswer: Answer<L.LicensePayload>, certificateAnswer: Answer<C.Payload>,
                         devices: seq<Discovery.Device>, engine: Engine, first: Span, second: Span)
      requires Valid()
      modifies license, certificates
      ensures Valid()
      ensures license != null ==>
                license.View() == old(Awaited(license.View(), FromWire(LicenseWire(licenseAnswer, engine), None),
                                              first.started, first.ended, license.intervalMs))
      ensures certificates != null ==>
                certificates.View()
                == old(Awaited(certificates.View(), FromWire(CertificateWire(certificateAnswer, DiscoveryLookup(devices), engine), []),
                               second.started, second.ended, certificates.intervalMs))
    {
      if license != null {
        license.AwaitRefresh(FromWire(LicenseWire(licenseAnswer, engine), None), first.started, first.ended);
      }
      if certificates != null {
        certificates.AwaitRefresh(FromWire(CertificateWire(certificateAnswer, DiscoveryLookup(devices), engine), []),
                                  second.started, second.ended);
      }
    }
  }
}
