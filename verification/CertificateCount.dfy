/** When the certificate collector's reported count is the number of its series. */
module CertificateCount {
  import opened Prelude
  import opened SeriesKeys
  import opened GaugeStore
  import opened KeyText
  import opened Certificates
  import C = Collector

  const UID: string := Marker(C.DEVICE_UID)

  /** What stands between a certificate's name and its device's. */
  function TypeMarker(t: CertType): string { Pair(CERT_TYPE, TypeName(t), C.DEVICE_NAME) }

  const TYPE_MARKERS: set<string> := {TypeMarker(Ca), TypeMarker(Identity)}
  const MARKERS: set<string> := TYPE_MARKERS + {UID}

  /** A certificate may have no name; a known device has one, and a uid. */
  function LineFor(e: Entry): Line
  {
    More(e.certName, true, TYPE_MARKERS, TypeMarker(e.certType),
      More(e.device.name, false, {UID}, UID, Last(e.device.uid, false)))
  }

  predicate Known(d: C.Device) { d.name != "" && d.uid != "" }

  lemma MarkersAreRigid()
    ensures Rigid(MARKERS)
  {
    var names: set<LabelName> := {C.DEVICE_UID};
    var words := {TypeName(Ca), TypeName(Identity)};
    forall m | m in MARKERS ensures SimpleOrPair(names, CERT_TYPE, words, C.DEVICE_NAME, m) {
      if m in TYPE_MARKERS {
        var t: CertType :| m == TypeMarker(t);
        assert TypeName(t) in words;
      } else {
        assert m == Marker(C.DEVICE_UID);
      }
    }
    PairsAreRigid(MARKERS, names, CERT_TYPE, words, C.DEVICE_NAME);
  }

  lemma EntryReads(e: Entry)
    ensures Joined(BaseLabels(e)) == "cert_name=" + Text(LineFor(e))
  {
    var labels := BaseLabels(e);
    JoinedIsText(labels);
    assert labels[1..] == [labels[1], labels[2], labels[3]] && labels[1..][1..] == [labels[2], labels[3]];
    assert [labels[2], labels[3]][1..] == [labels[3]];
    var tail := e.device.name + (UID + e.device.uid);
    var line := LineFor(e);
    assert Text(line.rest.rest) == e.device.uid && Text(line.rest) == tail;
    assert Text(LineOf(labels[1..][1..])) == tail;
    Regroup(Marker(CERT_TYPE), TypeName(e.certType) + Marker(C.DEVICE_NAME), tail);
    Regroup(TypeName(e.certType), Marker(C.DEVICE_NAME), tail);
  }

  /** The labels of both are written down alike. */
  predicate SameText(a: Entry, b: Entry) { Joined(BaseLabels(a)) == Joined(BaseLabels(b)) }

  lemma SameTextIff(a: Entry, b: Entry)
    ensures SameText(a, b) <==> Text(LineFor(a)) == Text(LineFor(b))
  {
    EntryReads(a);
    EntryReads(b);
    if SameText(a, b) {
      AfterPrefix("cert_name=", Text(LineFor(a)), "cert_name=", Text(LineFor(b)));
    }
  }

  lemma EntryLines(a: Entry, b: Entry)
    requires Known(a.device) && Known(b.device)
    ensures Proper(MARKERS, LineFor(a)) && SameShape(LineFor(a), LineFor(b))
    ensures LineFor(a) == LineFor(b) <==> SameLabels(a, b)
  {
    var x, y := LineFor(a), LineFor(b);
    assert Proper(MARKERS, x.rest.rest) && SameShape(x.rest.rest, y.rest.rest);
    assert Proper(MARKERS, x.rest) && SameShape(x.rest, y.rest);
    if TypeMarker(a.certType) == TypeMarker(b.certType) {
      PairsOfWordsAgree(CERT_TYPE, TypeName(a.certType), TypeName(b.certType), C.DEVICE_NAME);
      assert TypeName(a.certType)[0] == TypeName(b.certType)[0];
    }
  }

  /** Two certificates of known devices are counted apart from e unless their labels are the same. */
  ghost predicate ReadsAlone(e: Entry) { forall f: Entry :: Known(f.device) && SameText(e, f) ==> SameLabels(e, f) }

  /** The exact condition on an entry's own name, device name and uid. */
  lemma ReadsAloneIff(e: Entry)
    requires Known(e.device)
    ensures ReadsAlone(e) <==> Clear(LineFor(e))
  {
    MarkersAreRigid();
    EntryLines(e, e);
    if Clear(LineFor(e)) {
      forall f: Entry | Known(f.device) && SameText(e, f) ensures SameLabels(e, f) {
        SameTextIff(e, f);
        EntryLines(e, f);
        EntryLines(f, e);
        ClearReadsBack(MARKERS, LineFor(e), LineFor(f));
      }
    } else {
      var line := UnclearReadsLikeAnother(MARKERS, LineFor(e));
      var f := EntryWith(e, line);
      SameTextIff(e, f);
      EntryLines(e, f);
    }
  }

  lemma EntryWith(e: Entry, line: Line) returns (f: Entry)
    requires SameShape(LineFor(e), line) && Proper(MARKERS, line)
    ensures Known(f.device) && LineFor(f) == line
  {
    assert SameShape(LineFor(e).rest, line.rest) && Proper(MARKERS, line.rest);
    assert SameShape(LineFor(e).rest.rest, line.rest.rest) && Proper(MARKERS, line.rest.rest);
    var t: CertType :| line.marker == TypeMarker(t);
    f := e.(certName := line.value, certType := t, device := C.Device(line.rest.rest.value, line.rest.value));
  }

  /** Spelled out: what the name may not hold, and what the device's name and uid may not. */
  lemma ClearEntryIff(e: Entry)
    ensures Clear(LineFor(e))
            <==> && (forall t :: !Contains(e.certName, TypeMarker(t)) && !BeginsLate(e.device.name, false, TypeMarker(t)))
                 && !EndsEarly(e.device.name, false, UID) && !BeginsLate(e.device.uid, false, UID)
  {
    var line := LineFor(e);
    assert UID in {UID} && forall t :: TypeMarker(t) in TYPE_MARKERS;
    forall t ensures EndsEarly(e.certName, true, TypeMarker(t)) <==> Contains(e.certName, TypeMarker(t)) {
      EmptyValuesAreFree(e.certName, TypeMarker(t));
    }
    assert NoneEndsEarly(line, TYPE_MARKERS) <==> forall t :: !EndsEarly(e.certName, true, TypeMarker(t));
    assert NoneBeginsLate(line.rest, TYPE_MARKERS) <==> forall t :: !BeginsLate(e.device.name, false, TypeMarker(t));
    assert Clear(line.rest) <==> NoneEndsEarly(line.rest, {UID}) && NoneBeginsLate(line.rest.rest, {UID});
  }

  // ------------------------------------------------------------------ the count

  /** Entries that are written down alike have the same labels. */
  ghost predicate TextsApart(entries: seq<Entry>)
  {
    forall a, b :: a in entries && b in entries && SameText(a, b) ==> SameLabels(a, b)
  }

  lemma StatusKeysFollow(a: Entry, b: Entry)
    requires Joined(StatusSeries(a).labels) == Joined(StatusSeries(b).labels)
    ensures SameText(a, b) && StatusLabel(a.status) == StatusLabel(b.status)
  {
    assert Without(StatusLabel(a.status), ',') && Without(StatusLabel(b.status), ',');
    LastLabelsMatch(BaseLabels(a), StatusLabel(a.status), BaseLabels(b), StatusLabel(b.status), C.STATUS);
  }

  /** The certificate count never exceeds the series; it is exact iff no two entries with different labels share a text. */
  lemma CertificateCountIff(entries: seq<Entry>)
    ensures var writes := RenderedEntries(entries);
            && |Keys(Comma, writes)| <= |Stored(writes)|
            && (|Keys(Comma, writes)| == |Stored(writes)| <==> TextsApart(entries))
  {
    var writes := RenderedEntries(entries);
    CountIsExactIff(Comma, writes);
    var order, store := Gauges(writes), Stored(writes);
    if Apart(Comma, order, store.Keys) {
      forall a, b | a in entries && b in entries && SameText(a, b) ensures SameLabels(a, b) {
        StoredSeries(entries, ExpirySeries(a));
        StoredSeries(entries, ExpirySeries(b));
        SameCommaKeyIff(order, ExpirySeries(a), ExpirySeries(b));
        LabelsTellEntriesApart(a, b);
      }
    }
    if TextsApart(entries) {
      forall s, t | s in store && t in store && SameKey(Comma, order, s, t) ensures s == t {
        SameCommaKeyIff(order, s, t);
        SeriesOfApartTexts(entries, s, t);
      }
    }
  }

  lemma SeriesOfApartTexts(entries: seq<Entry>, s: Series<CertGauge>, t: Series<CertGauge>)
    requires TextsApart(entries) && s in Stored(RenderedEntries(entries)) && t in Stored(RenderedEntries(entries))
    requires s.gauge == t.gauge && Joined(s.labels) == Joined(t.labels)
    ensures s == t
  {
    StoredSeries(entries, s);
    StoredSeries(entries, t);
    var a :| a in entries && (s == ExpirySeries(a) || s == StatusSeries(a));
    var b :| b in entries && (t == ExpirySeries(b) || t == StatusSeries(b));
    if s.gauge.StatusInfo? {
      StatusKeysFollow(a, b);
    }
    assert SameLabels(a, b);
  }
}
