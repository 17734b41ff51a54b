/** Which entries a certificate response is mapped to: exactly one for every applicable component, the first under its name. */
module CertificateEntries {
  import opened JsonField
  import opened Prelude
  import opened Timestamps
  import opened Certificates
  import C = Collector

  /** The component has a status that applies and an expiry that reads as this instant. */
  predicate Applies(c: Component, engine: Engine, status: string, expiresAt: int)
  {
    && c.status == Value(status) && status != "NOT_APPLICABLE"
    && c.expiry.Value? && c.expiry.value != "-"
    && ParseCertificateExpiry(engine, c.expiry.value) == Some(expiresAt)
  }

  /** A certificate without a readable name is listed under the empty one. */
  predicate IsNamed(cert: RawCert, name: string)
  {
    cert.Enrolled? && (cert.name == Value(name) || (!cert.name.Value? && name == ""))
  }

  function Half(cert: RawCert, t: CertType): Component
    requires cert.Enrolled?
  {
    if t.Ca? then cert.ca else cert.identity
  }

  predicate Enrolls(cert: RawCert, engine: Engine, e: Entry)
  {
    IsNamed(cert, e.certName) && Applies(Half(cert, e.certType), engine, e.status, e.expiresAt)
  }

  /** Some component applies under this name and type. */
  ghost predicate Takes(cert: RawCert, engine: Engine, name: string, t: CertType)
  {
    IsNamed(cert, name) && exists status, expiresAt :: Applies(Half(cert, t), engine, status, expiresAt)
  }

  /** The k-th certificate of the list is the first that takes the entry's name and type, and enrolls the entry. */
  ghost predicate FirstToEnroll(certs: seq<RawCert>, k: nat, engine: Engine, e: Entry)
  {
    && k < |certs| && Enrolls(certs[k], engine, e)
    && forall j :: 0 <= j < k ==> !Takes(certs[j], engine, e.certName, e.certType)
  }

  lemma ComponentIsRead(c: Component, engine: Engine, status: string, expiresAt: int)
    ensures Applies(c, engine, status, expiresAt) <==> ReadComponent(c, engine) == Ok(Some((status, expiresAt)))
  {
  }

  ghost predicate IsListed(certs: seq<RawCert>, engine: Engine, e: Entry) { exists k: nat :: FirstToEnroll(certs, k, engine, e) }

  ghost predicate IsTaken(certs: seq<RawCert>, engine: Engine, name: string, t: CertType)
  {
    exists k :: 0 <= k < |certs| && Takes(certs[k], engine, name, t)
  }

  /** What one component adds. */
  lemma ComponentAdds(p: Progress, d: C.Device, name: string, t: CertType, c: Component, engine: Engine)
    ensures var p' := MapComponent(p, d, name, t, c, engine);
            && (forall s :: s in p'.seen <==>
                  s in p.seen || (s == SeenKey(t, name) && exists status, at :: Applies(c, engine, status, at)))
            && p.mapped.entries <= p'.mapped.entries
            && (forall e :: e in p'.mapped.entries <==>
                  e in p.mapped.entries
                  || (e.device == d && e.certName == name && e.certType == t && Applies(c, engine, e.status, e.expiresAt)
                      && SeenKey(t, name) !in p.seen))
  {
    var p' := MapComponent(p, d, name, t, c, engine);
    var read := ReadComponent(c, engine);
    forall status, at ensures Applies(c, engine, status, at) <==> read == Ok(Some((status, at))) {
      ComponentIsRead(c, engine, status, at);
    }
    if read.Ok? && read.value.Some? {
      ComponentIsRead(c, engine, read.value.value.0, read.value.value.1);
      if SeenKey(t, name) !in p.seen {
        assert p'.mapped.entries == p.mapped.entries + [Entry(d, name, t, read.value.value.0, read.value.value.1)];
      }
    }
  }

  lemma OneMoreTaken(certs: seq<RawCert>, cert: RawCert, engine: Engine, name: string, t: CertType)
    ensures IsTaken(certs + [cert], engine, name, t) <==> IsTaken(certs, engine, name, t) || Takes(cert, engine, name, t)
  {
    var more := certs + [cert];
    assert more[|certs|] == cert && forall k :: 0 <= k < |certs| ==> more[k] == certs[k];
  }

  lemma OneMoreListed(certs: seq<RawCert>, cert: RawCert, engine: Engine, e: Entry)
    ensures IsListed(certs + [cert], engine, e)
            <==> IsListed(certs, engine, e) || (Enrolls(cert, engine, e) && !IsTaken(certs, engine, e.certName, e.certType))
  {
    var more := certs + [cert];
    assert more[|certs|] == cert && forall k :: 0 <= k < |certs| ==> more[k] == certs[k];
    if k: nat :| FirstToEnroll(certs, k, engine, e) {
      assert FirstToEnroll(more, k, engine, e);
    }
    if k: nat :| FirstToEnroll(more, k, engine, e) {
      if k < |certs| {
        assert FirstToEnroll(certs, k, engine, e);
      }
    }
    if Enrolls(cert, engine, e) && !IsTaken(certs, engine, e.certName, e.certType) {
      assert FirstToEnroll(more, |certs|, engine, e);
    }
  }

  /** The certificate enrolls the entry and nothing before it took its key. */
  ghost predicate Adds(seen: set<string>, d: C.Device, cert: RawCert, engine: Engine, e: Entry)
  {
    e.device == d && Enrolls(cert, engine, e) && SeenKey(e.certType, e.certName) !in seen
  }

  ghost predicate SomeApplies(c: Component, engine: Engine) { exists status, at :: Applies(c, engine, status, at) }

  /** What one component does to one entry and its key. */
  ghost predicate HalfDone(p: Progress, p': Progress, d: C.Device, name: string, t: CertType, c: Component, engine: Engine, e: Entry)
  {
    && (SeenKey(e.certType, e.certName) in p'.seen <==>
          SeenKey(e.certType, e.certName) in p.seen || (e.certType == t && e.certName == name && SomeApplies(c, engine)))
    && (e in p'.mapped.entries <==>
          || e in p.mapped.entries
          || (e.device == d && e.certName == name && e.certType == t && Applies(c, engine, e.status, e.expiresAt)
              && SeenKey(e.certType, e.certName) !in p.seen))
  }

  lemma HalfAdds(p: Progress, d: C.Device, name: string, t: CertType, c: Component, engine: Engine, e: Entry)
    ensures HalfDone(p, MapComponent(p, d, name, t, c, engine), d, name, t, c, engine, e)
  {
    ComponentAdds(p, d, name, t, c, engine);
    SeenKeysTellApart(e.certType, e.certName, t, name);
  }

  /** What one certificate does to them. */
  ghost predicate CertDone(p: Progress, p': Progress, d: C.Device, cert: RawCert, engine: Engine, e: Entry)
  {
    && (SeenKey(e.certType, e.certName) in p'.seen <==>
          SeenKey(e.certType, e.certName) in p.seen || Takes(cert, engine, e.certName, e.certType))
    && (e in p'.mapped.entries <==> e in p.mapped.entries || Adds(p.seen, d, cert, engine, e))
  }

  lemma BothHalves(p: Progress, p1: Progress, p2: Progress, d: C.Device, cert: RawCert, name: string, engine: Engine, e: Entry)
    requires cert.Enrolled? && name == (if cert.name.Value? then cert.name.value else "")
    requires HalfDone(p, p1, d, name, Ca, cert.ca, engine, e) && HalfDone(p1, p2, d, name, Identity, cert.identity, engine, e)
    ensures CertDone(p, p2, d, cert, engine, e)
  {
    assert IsNamed(cert, e.certName) <==> e.certName == name;
    var c := Half(cert, e.certType);
    assert Takes(cert, engine, e.certName, e.certType) <==> e.certName == name && SomeApplies(c, engine);
    if e.certType.Ca? {
      assert SeenKey(e.certType, e.certName) in p2.seen <==> SeenKey(e.certType, e.certName) in p1.seen;
    } else {
      assert SeenKey(e.certType, e.certName) in p1.seen <==> SeenKey(e.certType, e.certName) in p.seen;
    }
  }

  lemma CertAdds(p: Progress, d: C.Device, cert: RawCert, engine: Engine, e: Entry)
    ensures CertDone(p, MapCert(p, d, cert, engine), d, cert, engine, e)
  {
    if cert.Enrolled? {
      var name := if cert.name.Value? then cert.name.value else "";
      var p1 := MapComponent(p, d, name, Ca, cert.ca, engine);
      var p2 := MapComponent(p1, d, name, Identity, cert.identity, engine);
      assert MapCert(p, d, cert, engine) == p2;
      HalfAdds(p, d, name, Ca, cert.ca, engine, e);
      HalfAdds(p1, d, name, Identity, cert.identity, engine, e);
      BothHalves(p, p1, p2, d, cert, name, engine, e);
    }
  }

  /** Some position of the list is the first to enroll exactly this entry for this device. */
  ghost predicate Files(r: RawRecord, lookup: Lookup, engine: Engine, e: Entry)
  {
    DeviceOf(r, lookup) == Some(e.device) && IsListed(r.enrolled.certs, engine, e)
  }

  lemma {:induction false} CertsAdd(p: Progress, d: C.Device, certs: seq<RawCert>, engine: Engine, e: Entry)
    requires p.seen == {}
    ensures var p' := MapCerts(p, d, certs, engine);
            && (SeenKey(e.certType, e.certName) in p'.seen <==> IsTaken(certs, engine, e.certName, e.certType))
            && (e in p'.mapped.entries <==> e in p.mapped.entries || (e.device == d && IsListed(certs, engine, e)))
  {
    if certs != [] {
      var init, last := certs[..|certs| - 1], certs[|certs| - 1];
      assert certs == init + [last];
      CertsAdd(p, d, init, engine, e);
      CertAdds(MapCerts(p, d, init, engine), d, last, engine, e);
      OneMoreTaken(init, last, engine, e.certName, e.certType);
      OneMoreListed(init, last, engine, e);
    }
  }

  lemma RecordAdds(m: Mapped, r: RawRecord, lookup: Lookup, engine: Engine, e: Entry)
    ensures e in MapRecord(m, r, lookup, engine).entries <==> e in m.entries || Files(r, lookup, engine, e)
  {
    if DeviceOf(r, lookup).Some? {
      CertsAdd(Progress(m, {}), DeviceOf(r, lookup).value, r.enrolled.certs, engine, e);
    }
  }

  /**
   * The entries of a response are exactly these: for every record of a known
   * device, each component that applies, unless an earlier certificate of that
   * record already took its name and type.
   */
  lemma {:induction false} EntriesAreTheFirstToEnroll(records: seq<RawRecord>, lookup: Lookup, engine: Engine, e: Entry)
    ensures e in MapResponse(Items(records), lookup, engine).entries
            <==> exists r :: r in records && Files(r, lookup, engine, e)
  {
    if records != [] {
      var init, last := records[..|records| - 1], records[|records| - 1];
      assert records == init + [last];
      EntriesAreTheFirstToEnroll(init, lookup, engine, e);
      RecordAdds(MapRecords(init, lookup, engine), last, lookup, engine, e);
    }
  }
}
