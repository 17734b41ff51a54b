/**
 * What every collector shares: gauges that keep one value per label set, and
 * the count of distinct series rendered, kept as a set of written-down keys.
 */
module GaugeStore {
  import opened Prelude
  import opened FirstSeen
  import opened SeriesKeys

  datatype Series<G> = Series(gauge: G, labels: Labels)

  datatype Write<G> = Write(series: Series<G>, value: real)

  datatype KeyStyle = Comma | Json

  function Key(style: KeyStyle, index: nat, labels: Labels): string
  {
    if style.Comma? then CommaKey(index, labels) else JsonKey(index, labels)
  }

  /** The gauges after some writes to empty ones: a later write to the same series replaces the value. */
  function Stored<G(==)>(writes: seq<Write<G>>): map<Series<G>, real>
  {
    if writes == [] then map[]
    else
      var last := writes[|writes| - 1];
      Stored(writes[..|writes| - 1])[last.series := last.value]
  }

  /** The gauges written to, in the order of their first write. */
  function Gauges<G(==)>(writes: seq<Write<G>>): (order: seq<G>)
    ensures Distinct(order)
  {
    if writes == [] then [] else Add(Gauges(writes[..|writes| - 1]), writes[|writes| - 1].series.gauge)
  }

  function Keys<G(==)>(style: KeyStyle, writes: seq<Write<G>>): set<string>
  {
    if writes == [] then {}
    else
      var last := writes[|writes| - 1].series;
      Keys(style, writes[..|writes| - 1]) + {Key(style, Index(Gauges(writes), last.gauge), last.labels)}
  }

  lemma StoredOneMore<G>(writes: seq<Write<G>>, w: Write<G>)
    ensures Stored(writes + [w]) == Stored(writes)[w.series := w.value]
  {
    assert (writes + [w])[..|writes|] == writes;
  }

  lemma KeysOneMore<G>(style: KeyStyle, writes: seq<Write<G>>, w: Write<G>)
    ensures Gauges(writes + [w]) == Add(Gauges(writes), w.series.gauge)
    ensures Keys(style, writes + [w])
            == Keys(style, writes) + {Key(style, Index(Add(Gauges(writes), w.series.gauge), w.series.gauge), w.series.labels)}
  {
    assert (writes + [w])[..|writes|] == writes;
  }

  /** A guarded set: nothing is written for an absent value. */
  datatype Reading<G> = Reading(gauge: G, labels: Labels, value: Option<real>)

  function Rendered<G>(before: seq<Write<G>>, readings: seq<Reading<G>>): seq<Write<G>>
  {
    if readings == [] then before
    else
      var writes, last := Rendered(before, readings[..|readings| - 1]), readings[|readings| - 1];
      if last.value.Some? then writes + [Write(Series(last.gauge, last.labels), last.value.value)] else writes
  }

  // -------------------------------------------------------------- last write

  function LastWrite<G(==)>(writes: seq<Write<G>>, s: Series<G>): Option<real>
  {
    if writes == [] then None
    else if writes[|writes| - 1].series == s then Some(writes[|writes| - 1].value)
    else LastWrite(writes[..|writes| - 1], s)
  }

  lemma {:induction false} StoredIsLastWrite<G>(writes: seq<Write<G>>, s: Series<G>)
    ensures s in Stored(writes) <==> LastWrite(writes, s).Some?
    ensures s in Stored(writes) ==> LastWrite(writes, s) == Some(Stored(writes)[s])
  {
    if writes != [] {
      StoredIsLastWrite(writes[..|writes| - 1], s);
    }
  }

  lemma {:induction false} LastWriteOfConcat<G>(a: seq<Write<G>>, b: seq<Write<G>>, s: Series<G>)
    ensures LastWrite(a + b, s) == if LastWrite(b, s).Some? then LastWrite(b, s) else LastWrite(a, s)
  {
    if b == [] {
      assert a + b == a;
    } else {
      assert (a + b)[..|a + b| - 1] == a + b[..|b| - 1];
      LastWriteOfConcat(a, b[..|b| - 1], s);
    }
  }

  lemma LastOfReadings<G>(before: seq<Write<G>>, readings: seq<Reading<G>>, last: Reading<G>, s: Series<G>)
    ensures LastWrite(Rendered(before, readings + [last]), s)
            == if last.value.Some? && Series(last.gauge, last.labels) == s then last.value
               else LastWrite(Rendered(before, readings), s)
  {
    var writes := Rendered(before, readings);
    assert (readings + [last])[..|readings|] == readings;
    if last.value.Some? {
      var w := Write(Series(last.gauge, last.labels), last.value.value);
      assert (writes + [w])[..|writes|] == writes;
    }
  }

  // ------------------------------------------------------------ series count

  function KeyIn<G(==)>(style: KeyStyle, order: seq<G>, s: Series<G>): string
    requires s.gauge in order
  {
    Key(style, Index(order, s.gauge), s.labels)
  }

  ghost predicate AllIn<G>(order: seq<G>, series: set<Series<G>>) { forall s :: s in series ==> s.gauge in order }

  function Image<G(==)>(style: KeyStyle, order: seq<G>, series: set<Series<G>>): set<string>
  {
    set s | s in series && s.gauge in order :: KeyIn(style, order, s)
  }

  lemma ImageOfOneMore<G>(style: KeyStyle, order: seq<G>, series: set<Series<G>>, x: Series<G>)
    requires x.gauge in order
    ensures Image(style, order, series + {x}) == Image(style, order, series) + {KeyIn(style, order, x)}
  {
  }

  lemma ImageIsKept<G>(style: KeyStyle, order: seq<G>, more: seq<G>, series: set<Series<G>>)
    requires order <= more && AllIn(order, series)
    ensures Image(style, order, series) == Image(style, more, series)
  {
    forall s | s in series ensures s.gauge in more && KeyIn(style, more, s) == KeyIn(style, order, s) {
      IndexIsKept(order, more, s.gauge);
    }
  }

  lemma {:induction false} KeysAreTheImage<G>(style: KeyStyle, writes: seq<Write<G>>)
    ensures AllIn(Gauges(writes), Stored(writes).Keys)
    ensures Keys(style, writes) == Image(style, Gauges(writes), Stored(writes).Keys)
  {
    if writes != [] {
      var before, last := writes[..|writes| - 1], writes[|writes| - 1].series;
      KeysAreTheImage(style, before);
      ImageIsKept(style, Gauges(before), Gauges(writes), Stored(before).Keys);
      ImageOfOneMore(style, Gauges(writes), Stored(before).Keys, last);
      assert Stored(writes).Keys == Stored(before).Keys + {last};
    }
  }

  /** Different series have different keys. */
  ghost predicate Apart<G>(style: KeyStyle, order: seq<G>, series: set<Series<G>>)
    requires AllIn(order, series)
  {
    forall a, b :: a in series && b in series && SameKey(style, order, a, b) ==> a == b
  }

  predicate SameKey<G(==)>(style: KeyStyle, order: seq<G>, a: Series<G>, b: Series<G>)
    requires a.gauge in order && b.gauge in order
  {
    KeyIn(style, order, a) == KeyIn(style, order, b)
  }

  lemma {:induction false} ImageSize<G>(style: KeyStyle, order: seq<G>, series: set<Series<G>>)
    requires AllIn(order, series)
    ensures |Image(style, order, series)| <= |series|
    ensures |Image(style, order, series)| == |series| <==> Apart(style, order, series)
    decreases |series|
  {
    if series != {} {
      var x :| x in series;
      var rest := series - {x};
      ImageSize(style, order, rest);
      ImageOfOneMore(style, order, rest, x);
      ApartStep(style, order, rest, x);
      assert series == rest + {x};
    }
  }

  lemma ApartStep<G>(style: KeyStyle, order: seq<G>, rest: set<Series<G>>, x: Series<G>)
    requires x.gauge in order && AllIn(order, rest) && x !in rest
    ensures Apart(style, order, rest + {x})
            <==> Apart(style, order, rest) && KeyIn(style, order, x) !in Image(style, order, rest)
  {
    if KeyIn(style, order, x) in Image(style, order, rest) {
      var y :| y in rest && KeyIn(style, order, y) == KeyIn(style, order, x);
      assert SameKey(style, order, x, y);
    } else {
      forall y | y in rest ensures !SameKey(style, order, x, y) && !SameKey(style, order, y, x) {
        assert KeyIn(style, order, y) in Image(style, order, rest);
      }
    }
    if Apart(style, order, rest + {x}) {
      assert forall a, b :: a in rest && b in rest && SameKey(style, order, a, b) ==> a in rest + {x} && b in rest + {x};
    }
  }

  /** The count never exceeds the stored series, and falls short exactly when two of them share a key. */
  lemma CountIsExactIff<G>(style: KeyStyle, writes: seq<Write<G>>)
    ensures AllIn(Gauges(writes), Stored(writes).Keys)
    ensures |Keys(style, writes)| <= |Stored(writes)|
    ensures |Keys(style, writes)| == |Stored(writes)| <==> Apart(style, Gauges(writes), Stored(writes).Keys)
  {
    KeysAreTheImage(style, writes);
    ImageSize(style, Gauges(writes), Stored(writes).Keys);
  }

  lemma IndexTellsApart<G>(order: seq<G>, a: G, b: G)
    requires a in order && b in order && Index(order, a) == Index(order, b)
    ensures a == b
  {
  }

  /** Two series share a comma key if they are of one gauge and their labels are written down alike. */
  lemma SameCommaKeyIff<G>(order: seq<G>, a: Series<G>, b: Series<G>)
    requires a.gauge in order && b.gauge in order
    ensures SameKey(Comma, order, a, b) <==> a.gauge == b.gauge && Joined(a.labels) == Joined(b.labels)
  {
    SameKeySameText(Index(order, a.gauge), a.labels, Index(order, b.gauge), b.labels);
    if Index(order, a.gauge) == Index(order, b.gauge) {
      IndexTellsApart(order, a.gauge, b.gauge);
    }
  }

  lemma JsonCountIsExact<G>(writes: seq<Write<G>>)
    ensures |Keys(Json, writes)| == |Stored(writes)|
  {
    CountIsExactIff(Json, writes);
    var order := Gauges(writes);
    forall a, b | a in Stored(writes) && b in Stored(writes) && SameKey(Json, order, a, b) ensures a == b {
      JsonKeysDiffer(Index(order, a.gauge), a.labels, Index(order, b.gauge), b.labels);
      IndexTellsApart(order, a.gauge, b.gauge);
    }
  }

  ghost predicate AllCommaFree<G>(series: set<Series<G>>) { forall s :: s in series ==> CommaFree(s.labels) }

  lemma CommaCountIsExact<G>(writes: seq<Write<G>>)
    ensures |Keys(Comma, writes)| <= |Stored(writes)|
    ensures AllCommaFree(Stored(writes).Keys) ==> |Keys(Comma, writes)| == |Stored(writes)|
  {
    CountIsExactIff(Comma, writes);
    var order := Gauges(writes);
    if AllCommaFree(Stored(writes).Keys) {
      forall a, b | a in Stored(writes) && b in Stored(writes) && SameKey(Comma, order, a, b) ensures a == b {
        CommaKeysDiffer(Index(order, a.gauge), a.labels, Index(order, b.gauge), b.labels);
        IndexTellsApart(order, a.gauge, b.gauge);
      }
    }
  }

  // ---------------------------------------------------------------- renderer

  ghost function Positions<G>(order: seq<G>): map<G, nat> { map g | g in order :: Index(order, g) }

  lemma PositionsGrow<G>(order: seq<G>, gauge: G)
    requires Distinct(order) && gauge !in order
    ensures |Positions(order)| == |order|
    ensures Positions(order + [gauge]) == Positions(order)[gauge := |order|]
  {
    DistinctSize(order);
    assert Positions(order).Keys == Members(order);
    IndexOfNewKey(order, gauge);
    forall g | g in order ensures Index(order + [gauge], g) == Index(order, g) {
      IndexIsKept(order, order + [gauge], g);
    }
  }

  /** A set of gauges and the bookkeeping of the render in progress. */
  class Renderer<G(==,!new)> {
    const style: KeyStyle
    var store: map<Series<G>, real>
    var gaugeIndex: map<G, nat>
    var seenSeries: set<string>
    /** The writes since the last reset. */
    ghost var writes: seq<Write<G>>

    ghost predicate Valid()
      reads this
    {
      && store == Stored(writes) && seenSeries == Keys(style, writes)
      && gaugeIndex == Positions(Gauges(writes))
    }

    constructor (style: KeyStyle)
      ensures Valid() && writes == [] && this.style == style
    {
      this.style, store, gaugeIndex, seenSeries, writes := style, map[], map[], {}, [];
    }

    /** Whatever was there before is gone. */
    method Reset()
      modifies this
      ensures Valid() && writes == []
    {
      store, gaugeIndex, seenSeries, writes := map[], map[], {}, [];
    }

    method IndexOf(gauge: G) returns (index: nat)
      requires Valid()
      modifies `gaugeIndex
      ensures gaugeIndex == Positions(Add(Gauges(writes), gauge))
      ensures index == Index(Add(Gauges(writes), gauge), gauge)
    {
      ghost var order := Gauges(writes);
      if gauge in gaugeIndex {
        return gaugeIndex[gauge];
      }
      PositionsGrow(order, gauge);
      IndexOfNewKey(order, gauge);
      index := |gaugeIndex|;
      gaugeIndex := gaugeIndex[gauge := index];
    }

    method Set(gauge: G, labels: Labels, value: real)
      requires Valid()
      modifies this
      ensures Valid() && writes == old(writes) + [Write(Series(gauge, labels), value)]
    {
      var index := IndexOf(gauge);
      store := store[Series(gauge, labels) := value];
      seenSeries := seenSeries + {Key(style, index, labels)};
      ghost var before := writes;
      writes := before + [Write(Series(gauge, labels), value)];
      assert writes[..|writes| - 1] == before;
    }

    method SetPresent(readings: seq<Reading<G>>)
      requires Valid()
      modifies this
      ensures Valid() && writes == Rendered(old(writes), readings)
    {
      for k := 0 to |readings|
        invariant Valid() && writes == Rendered(old(writes), readings[..k])
      {
        if readings[k].value.Some? {
          Set(readings[k].gauge, readings[k].labels, readings[k].value.value);
        }
        assert readings[..k + 1][..k] == readings[..k];
      }
      assert readings[..|readings|] == readings;
    }
  }
}
