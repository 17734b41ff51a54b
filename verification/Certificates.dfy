/**
 * Certificates from the wire to the gauges: the mapper, with its per-record
 * removal of duplicate keys, and the collector that renders its entries.
 */
module Certificates {
  import opened JsonField
  import opened Prelude
  import opened Timestamps
  import opened SeriesKeys
  import opened GaugeStore
  import Calendar
  import C = Collector

  // ------------------------------------------------------------------- wire

  datatype Component = Component(status: Field<string>, expiry: Field<string>)

  datatype RawCert = NotACert | Enrolled(name: Field<string>, ca: Component, identity: Component)

  datatype RawList = NoList | NotAnArray | Listed(certs: seq<RawCert>)

  datatype RawRecord = NotARecord | Record(id: Field<string>, enrolled: RawList)

  datatype Payload = NotAnObject | NoItems | Items(records: seq<RawRecord>)

  type Lookup = string -> Option<C.Device>

  // --------------------------------------------------------------- entries

  datatype CertType = Ca | Identity

  datatype Entry = Entry(device: C.Device, certName: string, certType: CertType, status: string, expiresAt: int)

  datatype Fault =
    | ResponseNotAnObject | NoItemsArray | RecordNotAnObject | MissingId | NoKnownDevice | ListNotAnArray
    | CertNotAnObject | ComponentNotAString | NotApplicableWithExpiry | InconsistentlyPresent
    | SentinelWithStatus | UnrecognizedTimestamp | DuplicateKey

  datatype ParseError = ParseError(device: Option<C.Device>, fault: Fault)

  datatype Mapped = Mapped(entries: seq<Entry>, errors: seq<ParseError>)

  function TypeName(t: CertType): string { if t.Ca? then "ca" else "identity" }

  /** The key the mapper removes duplicates by. */
  function SeenKey(t: CertType, name: string): string { TypeName(t) + ":" + name }

  lemma SeenKeysTellApart(t: CertType, name: string, t': CertType, name': string)
    ensures SeenKey(t, name) == SeenKey(t', name') <==> t == t' && name == name'
  {
    var a, b := SeenKey(t, name), SeenKey(t', name');
    assert a[|TypeName(t)| + 1..] == name && b[|TypeName(t')| + 1..] == name';
    assert a[0] == (if t.Ca? then 'c' else 'i') && b[0] == (if t'.Ca? then 'c' else 'i');
  }

  // ---------------------------------------------------------------- mapping

  /** A component is absent, faulty, or an applicable status with its expiry. */
  function ReadComponent(c: Component, engine: Engine): Result<Option<(string, int)>, Fault>
  {
    if c.status.WrongType? || c.expiry.WrongType? then Err(ComponentNotAString)
    else if c.status.Absent? && c.expiry.Absent? then Ok(None)
    else if c.status == Value("NOT_APPLICABLE") then
      if c.expiry.Value? && c.expiry.value != "-" then Err(NotApplicableWithExpiry) else Ok(None)
    else if c.status.Absent? || c.expiry.Absent? then Err(InconsistentlyPresent)
    else if c.expiry.value == "-" then Err(SentinelWithStatus)
    else match ParseCertificateExpiry(engine, c.expiry.value)
      case None => Err(UnrecognizedTimestamp)
      case Some(expiresAt) => Ok(Some((c.status.value, expiresAt)))
  }

  /** The mapper's variables while it works on one record. */
  datatype Progress = Progress(mapped: Mapped, seen: set<string>)

  function Fails(m: Mapped, device: Option<C.Device>, fault: Fault): Mapped
  {
    m.(errors := m.errors + [ParseError(device, fault)])
  }

  function MapComponent(p: Progress, d: C.Device, name: string, t: CertType, c: Component, engine: Engine): Progress
  {
    match ReadComponent(c, engine)
    case Err(fault) => p.(mapped := Fails(p.mapped, Some(d), fault))
    case Ok(None) => p
    case Ok(Some(found)) =>
      if SeenKey(t, name) in p.seen then p.(mapped := Fails(p.mapped, Some(d), DuplicateKey))
      else Progress(p.mapped.(entries := p.mapped.entries + [Entry(d, name, t, found.0, found.1)]), p.seen + {SeenKey(t, name)})
  }

  function MapCert(p: Progress, d: C.Device, cert: RawCert, engine: Engine): Progress
  {
    match cert
    case NotACert => p.(mapped := Fails(p.mapped, Some(d), CertNotAnObject))
    case Enrolled(nameField, ca, identity) =>
      var name := if nameField.Value? then nameField.value else "";
      MapComponent(MapComponent(p, d, name, Ca, ca, engine), d, name, Identity, identity, engine)
  }

  function MapCerts(p: Progress, d: C.Device, certs: seq<RawCert>, engine: Engine): Progress
  {
    if certs == [] then p
    else MapCert(MapCerts(p, d, certs[..|certs| - 1], engine), d, certs[|certs| - 1], engine)
  }

  function MapRecord(m: Mapped, r: RawRecord, lookup: Lookup, engine: Engine): Mapped
  {
    if r.NotARecord? then Fails(m, None, RecordNotAnObject)
    else if !r.id.Value? then Fails(m, None, MissingId)
    else match lookup(r.id.value)
      case None => Fails(m, None, NoKnownDevice)
      case Some(d) =>
        match r.enrolled
        case NoList => m
        case NotAnArray => Fails(m, Some(d), ListNotAnArray)
        case Listed(certs) => MapCerts(Progress(m, {}), d, certs, engine).mapped
  }

  function MapRecords(records: seq<RawRecord>, lookup: Lookup, engine: Engine): Mapped
  {
    if records == [] then Mapped([], [])
    else MapRecord(MapRecords(records[..|records| - 1], lookup, engine), records[|records| - 1], lookup, engine)
  }

  function MapResponse(payload: Payload, lookup: Lookup, engine: Engine): Mapped
  {
    match payload
    case NotAnObject => Fails(Mapped([], []), None, ResponseNotAnObject)
    case NoItems => Fails(Mapped([], []), None, NoItemsArray)
    case Items(records) => MapRecords(records, lookup, engine)
  }

  method MapEnrolledCertificates(d: C.Device, certs: seq<RawCert>, before: Mapped, engine: Engine) returns (after: Mapped)
    ensures after == MapCerts(Progress(before, {}), d, certs, engine).mapped
  {
    var snapshots, parseErrors, seenKeys := before.entries, before.errors, {};
    for k := 0 to |certs|
      invariant Progress(Mapped(snapshots, parseErrors), seenKeys) == MapCerts(Progress(before, {}), d, certs[..k], engine)
    {
      assert certs[..k + 1][..k] == certs[..k];
      if certs[k].NotACert? {
        parseErrors := parseErrors + [ParseError(Some(d), CertNotAnObject)];
      } else {
        var name := if certs[k].name.Value? then certs[k].name.value else "";
        snapshots, parseErrors, seenKeys :=
          AddComponent(snapshots, parseErrors, seenKeys, d, name, Ca, certs[k].ca, engine);
        snapshots, parseErrors, seenKeys :=
          AddComponent(snapshots, parseErrors, seenKeys, d, name, Identity, certs[k].identity, engine);
      }
    }
    assert certs[..|certs|] == certs;
    after := Mapped(snapshots, parseErrors);
  }

  method AddComponent(snapshots: seq<Entry>, parseErrors: seq<ParseError>, seenKeys: set<string>, d: C.Device, name: string,
                      t: CertType, c: Component, engine: Engine)
    returns (snapshots': seq<Entry>, parseErrors': seq<ParseError>, seenKeys': set<string>)
    ensures Progress(Mapped(snapshots', parseErrors'), seenKeys')
            == MapComponent(Progress(Mapped(snapshots, parseErrors), seenKeys), d, name, t, c, engine)
  {
    snapshots', parseErrors', seenKeys' := snapshots, parseErrors, seenKeys;
    var component := ReadComponent(c, engine);
    if component.Err? {
      parseErrors' := parseErrors + [ParseError(Some(d), component.error)];
    } else if component.value.Some? {
      var key := SeenKey(t, name);
      if key in seenKeys {
        parseErrors' := parseErrors + [ParseError(Some(d), DuplicateKey)];
      } else {
        var (status, expiresAt) := component.value.value;
        seenKeys' := seenKeys + {key};
        snapshots' := snapshots + [Entry(d, name, t, status, expiresAt)];
      }
    }
  }

  method MapDeviceCertificatesResponse(payload: Payload, lookup: Lookup, engine: Engine) returns (result: Mapped)
    ensures result == MapResponse(payload, lookup, engine)
  {
    result := Mapped([], []);
    if payload.NotAnObject? {
      return Fails(result, None, ResponseNotAnObject);
    }
    if payload.NoItems? {
      return Fails(result, None, NoItemsArray);
    }
    var items := payload.records;
    for k := 0 to |items|
      invariant result == MapRecords(items[..k], lookup, engine)
    {
      assert items[..k + 1][..k] == items[..k];
      var rawRecord := items[k];
      if rawRecord.NotARecord? {
        result := Fails(result, None, RecordNotAnObject);
      } else if !rawRecord.id.Value? {
        result := Fails(result, None, MissingId);
      } else {
        var device := lookup(rawRecord.id.value);
        if device.None? {
          result := Fails(result, None, NoKnownDevice);
        } else if rawRecord.enrolled.NotAnArray? {
          result := Fails(result, device, ListNotAnArray);
        } else if rawRecord.enrolled.Listed? {
          result := MapEnrolledCertificates(device.value, rawRecord.enrolled.certs, result, engine);
        }
      }
    }
    assert items[..|items|] == items;
  }

  // ------------------------------------------------- when no two entries collide

  /** The two entries render to the same labels. */
  predicate SameLabels(a: Entry, b: Entry) { a.device == b.device && a.certName == b.certName && a.certType == b.certType }

  ghost predicate NoDuplicates(entries: seq<Entry>)
  {
    forall i, j :: 0 <= i < j < |entries| ==> !SameLabels(entries[i], entries[j])
  }

  /** Since position `from`, entries belong to d, their keys have been seen, and no two are alike. */
  ghost predicate TidySince(p: Progress, from: nat, d: C.Device)
  {
    var entries := p.mapped.entries;
    && from <= |entries|
    && (forall i :: from <= i < |entries| ==> entries[i].device == d && SeenKey(entries[i].certType, entries[i].certName) in p.seen)
    && (forall i, j :: from <= i < j < |entries| ==> !SameLabels(entries[i], entries[j]))
  }

  lemma ComponentIsTidy(p: Progress, from: nat, d: C.Device, name: string, t: CertType, c: Component, engine: Engine)
    requires TidySince(p, from, d)
    ensures TidySince(MapComponent(p, d, name, t, c, engine), from, d)
    ensures p.mapped.entries <= MapComponent(p, d, name, t, c, engine).mapped.entries
  {
    var p' := MapComponent(p, d, name, t, c, engine);
    if p'.seen != p.seen {
      forall i | from <= i < |p.mapped.entries| ensures !SameLabels(p.mapped.entries[i], p'.mapped.entries[|p.mapped.entries|]) {
        SeenKeysTellApart(t, name, p.mapped.entries[i].certType, p.mapped.entries[i].certName);
      }
    }
  }

  lemma {:induction false} CertsAreTidy(p: Progress, from: nat, d: C.Device, certs: seq<RawCert>, engine: Engine)
    requires TidySince(p, from, d)
    ensures TidySince(MapCerts(p, d, certs, engine), from, d)
    ensures p.mapped.entries <= MapCerts(p, d, certs, engine).mapped.entries
  {
    if certs != [] {
      var init, last := certs[..|certs| - 1], certs[|certs| - 1];
      CertsAreTidy(p, from, d, init, engine);
      var q := MapCerts(p, d, init, engine);
      if last.Enrolled? {
        var name := if last.name.Value? then last.name.value else "";
        ComponentIsTidy(q, from, d, name, Ca, last.ca, engine);
        ComponentIsTidy(MapComponent(q, d, name, Ca, last.ca, engine), from, d, name, Identity, last.identity, engine);
      }
    }
  }

  /** The device a record's certificates are filed under, if it gets that far. */
  function DeviceOf(r: RawRecord, lookup: Lookup): Option<C.Device>
  {
    if r.Record? && r.id.Value? && r.enrolled.Listed? then lookup(r.id.value) else None
  }

  lemma RecordAddsItsOwn(m: Mapped, r: RawRecord, lookup: Lookup, engine: Engine)
    ensures var entries := MapRecord(m, r, lookup, engine).entries; var d := DeviceOf(r, lookup);
            && m.entries <= entries
            && (d.None? ==> entries == m.entries)
            && (d.Some? ==> TidySince(Progress(Mapped(entries, []), SeenIn(entries)), |m.entries|, d.value))
  {
    if DeviceOf(r, lookup).Some? {
      var d := DeviceOf(r, lookup).value;
      CertsAreTidy(Progress(m, {}), |m.entries|, d, r.enrolled.certs, engine);
      var entries := MapRecord(m, r, lookup, engine).entries;
      forall i | 0 <= i < |entries| ensures SeenKey(entries[i].certType, entries[i].certName) in SeenIn(entries) {
        assert entries[i] in entries;
      }
    }
  }

  function SeenIn(entries: seq<Entry>): set<string> { set e | e in entries :: SeenKey(e.certType, e.certName) }

  /** No two records are filed under the same device. */
  ghost predicate DevicesDiffer(records: seq<RawRecord>, lookup: Lookup)
  {
    forall i, j :: 0 <= i < j < |records| && DeviceOf(records[i], lookup).Some? ==>
      DeviceOf(records[i], lookup) != DeviceOf(records[j], lookup)
  }

  lemma {:induction false} EntriesComeFromRecords(records: seq<RawRecord>, lookup: Lookup, engine: Engine)
    ensures forall e :: e in MapRecords(records, lookup, engine).entries ==> IsFiled(records, lookup, e.device)
  {
    if records != [] {
      var init, last := records[..|records| - 1], records[|records| - 1];
      EntriesComeFromRecords(init, lookup, engine);
      var before, after := MapRecords(init, lookup, engine), MapRecords(records, lookup, engine);
      RecordAddsItsOwn(before, last, lookup, engine);
      forall e | e in after.entries ensures IsFiled(records, lookup, e.device) {
        var i :| 0 <= i < |after.entries| && after.entries[i] == e;
        if i < |before.entries| {
          assert before.entries[i] == e && IsFiled(init, lookup, e.device);
          var k :| 0 <= k < |init| && DeviceOf(init[k], lookup) == Some(e.device);
          assert records[k] == init[k];
        }
      }
    }
  }

  ghost predicate IsFiled(records: seq<RawRecord>, lookup: Lookup, d: C.Device)
  {
    exists k :: 0 <= k < |records| && DeviceOf(records[k], lookup) == Some(d)
  }

  /** Records of different devices never produce two entries with the same labels. */
  lemma {:induction false} DifferentDevicesNeverCollide(records: seq<RawRecord>, lookup: Lookup, engine: Engine)
    requires DevicesDiffer(records, lookup)
    ensures NoDuplicates(MapRecords(records, lookup, engine).entries)
  {
    if records != [] {
      var init, last := records[..|records| - 1], records[|records| - 1];
      assert DevicesDiffer(init, lookup) by {
        assert forall i :: 0 <= i < |init| ==> init[i] == records[i];
      }
      DifferentDevicesNeverCollide(init, lookup, engine);
      EntriesComeFromRecords(init, lookup, engine);
      var before, after := MapRecords(init, lookup, engine).entries, MapRecords(records, lookup, engine).entries;
      RecordAddsItsOwn(MapRecords(init, lookup, engine), last, lookup, engine);
      forall i, j | 0 <= i < j < |after| ensures !SameLabels(after[i], after[j]) {
        if i < |before| {
          assert after[i] == before[i] && before[i] in before;
          var k :| 0 <= k < |init| && DeviceOf(init[k], lookup) == Some(after[i].device);
          if j < |before| {
            assert after[j] == before[j];
          } else {
            assert DeviceOf(records[k], lookup) != DeviceOf(records[|init|], lookup);
          }
        }
      }
    }
  }

  /** What distinct record ids and an injective lookup give. */
  lemma InjectiveLookupNeverCollides(records: seq<RawRecord>, lookup: Lookup, engine: Engine)
    requires forall i, j :: 0 <= i < j < |records| && records[i].Record? && records[j].Record? ==> records[i].id != records[j].id
    requires forall a, b :: lookup(a).Some? && lookup(a) == lookup(b) ==> a == b
    ensures NoDuplicates(MapRecords(records, lookup, engine).entries)
  {
    DifferentDevicesNeverCollide(records, lookup, engine);
  }

  // ---------------------------------------------------------- only if they differ

  /** One unnamed certificate that expires at the instant `text` names. */
  function SampleCert(text: string): RawCert
  {
    Enrolled(Absent, Component(Value("AVAILABLE"), Value(text)), Component(Absent, Absent))
  }

  function WithLists(ids: seq<string>, lists: seq<RawList>): seq<RawRecord>
    requires |ids| == |lists|
  {
    seq(|ids|, i requires 0 <= i < |ids| => Record(Value(ids[i]), lists[i]))
  }

  function SampleLists(n: nat, text: string): seq<RawList> { seq(n, _ => Listed([SampleCert(text)])) }

  function SampleRecords(ids: seq<string>, text: string): seq<RawRecord> { WithLists(ids, SampleLists(|ids|, text)) }

  function SampleEntry(d: C.Device, expiresAt: int): Entry { Entry(d, "", Ca, "AVAILABLE", expiresAt) }

  lemma SampleRecordAdds(m: Mapped, id: string, lookup: Lookup, engine: Engine, text: string, expiresAt: int)
    requires text != "-" && ParseCertificateExpiry(engine, text) == Some(expiresAt)
    ensures MapRecord(m, Record(Value(id), Listed([SampleCert(text)])), lookup, engine).entries
            == m.entries + if lookup(id).Some? then [SampleEntry(lookup(id).value, expiresAt)] else []
  {
    if lookup(id).Some? {
      var d, p, certs := lookup(id).value, Progress(m, {}), [SampleCert(text)];
      assert certs[..0] == [];
      assert MapCerts(p, d, certs[..0], engine) == p;
      assert MapCerts(p, d, certs, engine) == MapCert(p, d, certs[0], engine);
      assert ReadComponent(certs[0].ca, engine) == Ok(Some(("AVAILABLE", expiresAt)));
    }
  }

  function EntriesOfFirst(records: seq<RawRecord>, n: nat, lookup: Lookup, engine: Engine): seq<Entry>
    requires n <= |records|
  {
    MapRecords(records[..n], lookup, engine).entries
  }

  lemma {:induction false} EntriesAreKept(records: seq<RawRecord>, m: nat, n: nat, lookup: Lookup, engine: Engine)
    requires m <= n <= |records|
    ensures EntriesOfFirst(records, m, lookup, engine) <= EntriesOfFirst(records, n, lookup, engine)
  {
    if m < n {
      EntriesAreKept(records, m, n - 1, lookup, engine);
      assert records[..n][..n - 1] == records[..n - 1];
      RecordAddsItsOwn(MapRecords(records[..n - 1], lookup, engine), records[n - 1], lookup, engine);
    }
  }

  /** The n-th sample record leaves its entry last. */
  lemma SampleIsLast(ids: seq<string>, lookup: Lookup, engine: Engine, text: string, expiresAt: int, n: nat)
    requires text != "-" && ParseCertificateExpiry(engine, text) == Some(expiresAt)
    requires n < |ids| && lookup(ids[n]).Some?
    ensures var records := SampleRecords(ids, text);
            EntriesOfFirst(records, n + 1, lookup, engine)
            == EntriesOfFirst(records, n, lookup, engine) + [SampleEntry(lookup(ids[n]).value, expiresAt)]
  {
    var records := SampleRecords(ids, text);
    var upto := records[..n + 1];
    assert upto[..|upto| - 1] == records[..n] && upto[|upto| - 1] == Record(Value(ids[n]), Listed([SampleCert(text)]));
    SampleRecordAdds(MapRecords(records[..n], lookup, engine), ids[n], lookup, engine, text, expiresAt);
  }

  /** Two records for one device can collide: nothing compares keys across records. */
  lemma SharedDeviceCanCollide(ids: seq<string>, lookup: Lookup, engine: Engine, text: string, expiresAt: int, i: nat, j: nat)
    requires text != "-" && ParseCertificateExpiry(engine, text) == Some(expiresAt)
    requires i < j < |ids| && lookup(ids[i]).Some? && lookup(ids[i]) == lookup(ids[j])
    ensures !NoDuplicates(MapRecords(SampleRecords(ids, text), lookup, engine).entries)
  {
    SampleIsLast(ids, lookup, engine, text, expiresAt, i);
    SampleIsLast(ids, lookup, engine, text, expiresAt, j);
    var records := SampleRecords(ids, text);
    AddedTwice(records, lookup, engine, SampleEntry(lookup(ids[i]).value, expiresAt), i, j);
    assert records[..|records|] == records;
  }

  lemma AddedTwice(records: seq<RawRecord>, lookup: Lookup, engine: Engine, e: Entry, i: nat, j: nat)
    requires i < j < |records|
    requires EntriesOfFirst(records, i + 1, lookup, engine) == EntriesOfFirst(records, i, lookup, engine) + [e]
    requires EntriesOfFirst(records, j + 1, lookup, engine) == EntriesOfFirst(records, j, lookup, engine) + [e]
    ensures !NoDuplicates(EntriesOfFirst(records, |records|, lookup, engine))
  {
    EntriesAreKept(records, i + 1, j, lookup, engine);
    EntriesAreKept(records, j + 1, |records|, lookup, engine);
    var first, second, all := EntriesOfFirst(records, i, lookup, engine), EntriesOfFirst(records, j, lookup, engine),
                              EntriesOfFirst(records, |records|, lookup, engine);
    RepeatedEntry(first, second, all, e);
  }

  lemma RepeatedEntry(first: seq<Entry>, second: seq<Entry>, all: seq<Entry>, e: Entry)
    requires first + [e] <= second && second + [e] <= all
    ensures !NoDuplicates(all)
  {
    assert (first + [e])[|first|] == e && (second + [e])[|second|] == e;
    assert all[|first|] == e && all[|second|] == e && SameLabels(e, e);
  }

  ghost predicate IdsDiffer(ids: seq<string>, lookup: Lookup)
  {
    forall i, j :: 0 <= i < j < |ids| && lookup(ids[i]).Some? ==> lookup(ids[i]) != lookup(ids[j])
  }

  /** Whether these records collide whatever they enroll. */
  ghost predicate NeverCollide(ids: seq<string>, lookup: Lookup, engine: Engine)
  {
    forall lists: seq<RawList> :: |lists| == |ids| ==>
      NoDuplicates(MapRecords(WithLists(ids, lists), lookup, engine).entries)
  }

  /**
   * Records with these ids are free of colliding entries, whatever they
   * enroll, if and only if no two of them resolve to one device.
   */
  lemma NeverCollideIff(ids: seq<string>, lookup: Lookup, engine: Engine)
    requires Conforming(engine)
    ensures NeverCollide(ids, lookup, engine) <==> IdsDiffer(ids, lookup)
  {
    if IdsDiffer(ids, lookup) {
      forall lists: seq<RawList> | |lists| == |ids|
        ensures NoDuplicates(MapRecords(WithLists(ids, lists), lookup, engine).entries)
      {
        DifferentDevicesNeverCollide(WithLists(ids, lists), lookup, engine);
      }
    } else {
      var i, j :| 0 <= i < j < |ids| && lookup(ids[i]).Some? && lookup(ids[i]) == lookup(ids[j]);
      var text, expiresAt := ReadableExpiry(engine);
      SharedDeviceCanCollide(ids, lookup, engine, text, expiresAt, i, j);
      assert |SampleLists(|ids|, text)| == |ids|;
    }
  }

  lemma ReadableExpiry(engine: Engine) returns (text: string, expiresAt: int)
    requires Conforming(engine)
    ensures text != "-" && ParseCertificateExpiry(engine, text) == Some(expiresAt)
  {
    var instant := Calendar.Civil(1970, 1, 1, 0, 0, 0);
    text := PrintExpiry(instant, false);
    PrintedExpiryParses(engine, instant, false);
    expiresAt := ParseCertificateExpiry(engine, text).value;
  }

  // -------------------------------------------------------------- rendering

  datatype CertGauge = ExpiryTimestampSeconds | StatusInfo

  const CERT_NAME: LabelName := "cert_name"
  const CERT_TYPE: LabelName := "cert_type"

  function BaseLabels(e: Entry): Labels
  {
    [Label(CERT_NAME, e.certName), Label(CERT_TYPE, TypeName(e.certType)),
     Label(C.DEVICE_NAME, e.device.name), Label(C.DEVICE_UID, e.device.uid)]
  }

  function StatusLabel(raw: string): string { if raw == "AVAILABLE" then "available" else "unknown" }

  function ExpirySeries(e: Entry): Series<CertGauge> { Series(ExpiryTimestampSeconds, BaseLabels(e)) }

  function StatusSeries(e: Entry): Series<CertGauge> { Series(StatusInfo, BaseLabels(e) + [Label(C.STATUS, StatusLabel(e.status))]) }

  function ExpirySeconds(e: Entry): real { e.expiresAt as real / 1000.0 }

  function RenderedEntries(entries: seq<Entry>): seq<Write<CertGauge>>
  {
    if entries == [] then []
    else
      var last := entries[|entries| - 1];
      RenderedEntries(entries[..|entries| - 1]) + [Write(ExpirySeries(last), ExpirySeconds(last))] + [Write(StatusSeries(last), 1.0)]
  }

  lemma LabelsTellEntriesApart(a: Entry, b: Entry)
    ensures ExpirySeries(a) == ExpirySeries(b) <==> SameLabels(a, b)
    ensures StatusSeries(a) == StatusSeries(b) ==> SameLabels(a, b)
  {
    var x, y := StatusSeries(a).labels, StatusSeries(b).labels;
    if x == y || BaseLabels(a) == BaseLabels(b) {
      assert x[0] == BaseLabels(a)[0] && x[1] == BaseLabels(a)[1] && x[2] == BaseLabels(a)[2] && x[3] == BaseLabels(a)[3];
      assert y[0] == BaseLabels(b)[0] && y[1] == BaseLabels(b)[1] && y[2] == BaseLabels(b)[2] && y[3] == BaseLabels(b)[3];
      assert TypeName(a.certType)[0] == TypeName(b.certType)[0];
    }
  }

  /** The stored series are those of the entries. */
  lemma {:induction false} StoredSeries(entries: seq<Entry>, s: Series<CertGauge>)
    ensures s in Stored(RenderedEntries(entries)) <==> exists e :: e in entries && (s == ExpirySeries(e) || s == StatusSeries(e))
  {
    if entries != [] {
      var init, last := entries[..|entries| - 1], entries[|entries| - 1];
      StoredSeries(init, s);
      StoredOneMore(RenderedEntries(init), Write(ExpirySeries(last), ExpirySeconds(last)));
      StoredOneMore(RenderedEntries(init) + [Write(ExpirySeries(last), ExpirySeconds(last))], Write(StatusSeries(last), 1.0));
      assert entries == init + [last];
    }
  }

  /** Without colliding entries nothing is overwritten: two series an entry, every one with its own value. */
  lemma NothingIsOverwritten(entries: seq<Entry>)
    requires NoDuplicates(entries)
    ensures var store := Stored(RenderedEntries(entries));
            && |store| == 2 * |entries|
            && forall e :: e in entries ==> Shows(store, e)
  {
    AllAreWritten(entries);
    forall e | e in entries ensures Shows(Stored(RenderedEntries(entries)), e) {
      WritesShow(Stored(RenderedEntries(entries)), e);
    }
  }

  lemma {:induction false} AllAreWritten(entries: seq<Entry>)
    requires NoDuplicates(entries)
    ensures var store := Stored(RenderedEntries(entries));
            && |store| == 2 * |entries|
            && forall e :: e in entries ==> Writes(store, e)
  {
    if entries != [] {
      var init, last := entries[..|entries| - 1], entries[|entries| - 1];
      AllAreWritten(init);
      OneMoreEntry(init, last);
      assert entries == init + [last];
    }
  }

  /** The labels name the certificate and then its device. */
  predicate Names(labels: Labels, e: Entry)
  {
    && |labels| >= 4
    && labels[0] == Label(CERT_NAME, e.certName)
    && labels[1] == Label(CERT_TYPE, if e.certType.Ca? then "ca" else "identity")
    && labels[2] == Label(C.DEVICE_NAME, e.device.name)
    && labels[3] == Label(C.DEVICE_UID, e.device.uid)
  }

  /** The expiry in seconds, and the status as a label: the one known word or unknown. */
  ghost predicate Shows(store: map<Series<CertGauge>, real>, e: Entry)
  {
    && (exists s :: s in store && s.gauge.ExpiryTimestampSeconds? && Names(s.labels, e) && |s.labels| == 4
                    && store[s] * 1000.0 == e.expiresAt as real)
    && (exists s :: s in store && s.gauge.StatusInfo? && Names(s.labels, e) && |s.labels| == 5 && store[s] == 1.0
                    && s.labels[4] == Label(C.STATUS, if e.status == "AVAILABLE" then "available" else "unknown"))
  }

  predicate Writes(store: map<Series<CertGauge>, real>, e: Entry)
  {
    && ExpirySeries(e) in store && store[ExpirySeries(e)] == ExpirySeconds(e)
    && StatusSeries(e) in store && store[StatusSeries(e)] == 1.0
  }

  lemma WritesShow(store: map<Series<CertGauge>, real>, e: Entry)
    requires Writes(store, e)
    ensures Shows(store, e)
  {
    assert Names(ExpirySeries(e).labels, e) && Names(StatusSeries(e).labels, e);
    assert |StatusSeries(e).labels| == 5;
    assert ExpirySeconds(e) * 1000.0 == e.expiresAt as real;
  }

  lemma OneMoreEntry(init: seq<Entry>, last: Entry)
    requires forall e :: e in init ==> !SameLabels(e, last)
    requires forall e :: e in init ==> Writes(Stored(RenderedEntries(init)), e)
    ensures var before, after := Stored(RenderedEntries(init)), Stored(RenderedEntries(init + [last]));
            && |after| == |before| + 2
            && Writes(after, last) && forall e :: e in init ==> Writes(after, e)
  {
    var writes, entries := RenderedEntries(init), init + [last];
    assert entries[..|init|] == init;
    var expiry, status := Write(ExpirySeries(last), ExpirySeconds(last)), Write(StatusSeries(last), 1.0);
    StoredOneMore(writes, expiry);
    StoredOneMore(writes + [expiry], status);
    StoredSeries(init, expiry.series);
    StoredSeries(init, status.series);
    forall e | e in init ensures ExpirySeries(e) != ExpirySeries(last) && StatusSeries(e) != StatusSeries(last) {
      LabelsTellEntriesApart(e, last);
    }
    var before := Stored(writes);
    assert before[expiry.series := expiry.value].Keys == before.Keys + {expiry.series};
    assert before[expiry.series := expiry.value][status.series := status.value].Keys
        == before.Keys + {expiry.series} + {status.series};
  }

  /** From the wire to the gauges: records of different devices lose no expiry. */
  lemma EveryExpiryIsShown(records: seq<RawRecord>, lookup: Lookup, engine: Engine)
    requires DevicesDiffer(records, lookup)
    ensures var entries := MapResponse(Items(records), lookup, engine).entries;
            var store := Stored(RenderedEntries(entries));
            && |store| == 2 * |entries|
            && forall e :: e in entries ==> Shows(store, e)
  {
    DifferentDevicesNeverCollide(records, lookup, engine);
    NothingIsOverwritten(MapResponse(Items(records), lookup, engine).entries);
  }

  lemma OneMoreRendered(entries: seq<Entry>, k: nat)
    requires k < |entries|
    ensures RenderedEntries(entries[..k + 1])
            == RenderedEntries(entries[..k]) + [Write(ExpirySeries(entries[k]), ExpirySeconds(entries[k]))]
               + [Write(StatusSeries(entries[k]), 1.0)]
  {
    assert entries[..k + 1][..k] == entries[..k];
  }

  method SetBoth(r: Renderer<CertGauge>, expiry: Series<CertGauge>, seconds: real, status: Series<CertGauge>)
    requires r.Valid()
    modifies r
    ensures r.Valid() && r.writes == old(r.writes) + [Write(expiry, seconds)] + [Write(status, 1.0)]
  {
    r.Set(expiry.gauge, expiry.labels, seconds);
    r.Set(status.gauge, status.labels, 1.0);
  }

  method RenderEntries(r: Renderer<CertGauge>, entries: seq<Entry>)
    requires r.Valid() && r.writes == []
    modifies r
    ensures r.Valid() && r.writes == RenderedEntries(entries)
  {
    for k := 0 to |entries|
      invariant r.Valid() && r.writes == RenderedEntries(entries[..k])
    {
      OneMoreRendered(entries, k);
      SetBoth(r, ExpirySeries(entries[k]), entries[k].expiresAt as real / 1000.0, StatusSeries(entries[k]));
    }
    assert entries[..|entries|] == entries;
  }

  method RenderCertificateMetrics(r: Renderer<CertGauge>, entries: seq<Entry>) returns (seriesCount: nat)
    requires r.style.Comma?
    modifies r
    ensures r.Valid() && r.store == Stored(RenderedEntries(entries))
    ensures seriesCount == |Keys(Comma, RenderedEntries(entries))| <= |r.store|
    ensures AllCommaFree(r.store.Keys) ==> seriesCount == |r.store|
  {
    r.Reset();
    RenderEntries(r, entries);
    CommaCountIsExact(r.writes);
    seriesCount := |r.seenSeries|;
  }
}
