/**
 * The dashboard layout: each row is a full-width header followed by its
 * panels, laid out left to right on shelves of a 24-column grid.
 */
module Packing {

  const GRID_WIDTH: int := 24

  datatype Spec = Spec(width: int, height: int)

  /** A placed panel; `header` marks the row panels. */
  datatype Panel = Panel(id: int, header: bool, x: int, y: int, w: int, h: int)

  function Right(p: Panel): int { p.x + p.w }

  function Bottom(p: Panel): int { p.y + p.h }

  predicate Overlap(p: Panel, q: Panel)
  {
    p.x < Right(q) && q.x < Right(p) && p.y < Bottom(q) && q.y < Bottom(p)
  }

  /** What should appear, in order: a header per row, then the row's specs. */
  function Expected(rows: seq<seq<Spec>>): seq<(bool, Spec)>
  {
    if rows == [] then []
    else Expected(rows[..|rows| - 1]) + [(true, Spec(GRID_WIDTH, 1))] + Marked(rows[|rows| - 1])
  }

  function Marked(specs: seq<Spec>): (m: seq<(bool, Spec)>)
    ensures |m| == |specs|
  {
    seq(|specs|, i requires 0 <= i < |specs| => (false, specs[i]))
  }

  function Shown(panels: seq<Panel>): (s: seq<(bool, Spec)>)
    ensures |s| == |panels|
  {
    seq(|panels|, i requires 0 <= i < |panels| => (panels[i].header, Spec(panels[i].w, panels[i].h)))
  }

  predicate Positive(specs: seq<Spec>) { forall i :: 0 <= i < |specs| ==> specs[i].width > 0 && specs[i].height > 0 }

  ghost predicate InGrid(panels: seq<Panel>)
  {
    forall i :: 0 <= i < |panels| ==> 0 <= panels[i].x && Right(panels[i]) <= GRID_WIDTH && panels[i].y >= 0
  }

  ghost predicate NoneOverlap(panels: seq<Panel>)
  {
    forall i, j :: 0 <= i < j < |panels| ==> !Overlap(panels[i], panels[j])
  }

  ghost predicate Numbered(panels: seq<Panel>) { forall i :: 0 <= i < |panels| ==> panels[i].id == i + 1 }

  predicate Continues(panels: seq<Panel>, i: int)
  {
    0 < i < |panels| && panels[i].y == panels[i - 1].y && panels[i].x == Right(panels[i - 1])
  }

  /** `y` is the greatest bottom of the first `n` panels, or the top of the page if there are none. */
  ghost predicate Rests(panels: seq<Panel>, n: nat, y: int)
    requires n <= |panels|
  {
    && (forall j :: 0 <= j < n ==> Bottom(panels[j]) <= y)
    && (if n == 0 then y == 0 else exists j :: 0 <= j < n && Bottom(panels[j]) == y)
  }

  /** At the left edge, directly below everything before it. */
  ghost predicate OpensShelf(panels: seq<Panel>, i: int)
  {
    0 <= i < |panels| && panels[i].x == 0 && Rests(panels, i, panels[i].y)
  }

  /** A shelf begins at a header, after a header, and where the next panel would not fit. */
  predicate Wraps(panels: seq<Panel>, i: int)
    requires 0 <= i < |panels|
  {
    i == 0 || panels[i].header || panels[i - 1].header || Right(panels[i - 1]) + panels[i].w > GRID_WIDTH
  }

  predicate ShelvedAt(shelf: bool, opens: bool, continues: bool) { if shelf then opens else continues }

  /** Every panel opens a shelf exactly where one begins, and is flush to the right of the one before everywhere else. */
  ghost predicate Shelved(panels: seq<Panel>)
  {
    forall i :: 0 <= i < |panels| ==> ShelvedAt(Wraps(panels, i), OpensShelf(panels, i), Continues(panels, i))
  }

  /** What holds of the panels placed so far: everything is above the current shelf or on it, left of x. */
  ghost predicate Packed(panels: seq<Panel>, x: int, y: int, rowHeight: int)
  {
    && x >= 0 && y >= 0 && rowHeight >= 0
    && Numbered(panels) && NoneOverlap(panels) && Shelved(panels) && Rests(panels, |panels|, y + rowHeight)
    && (forall i :: 0 <= i < |panels| ==>
          || Bottom(panels[i]) <= y
          || (panels[i].y == y && Right(panels[i]) <= x && panels[i].h <= rowHeight))
    && (forall i :: 0 <= i < |panels| ==> panels[i].w > 0 && panels[i].h > 0 && panels[i].x >= 0 && panels[i].y >= 0)
  }

  /** The cursor of the inner loop: right after a header, or flush to the last panel on its shelf. */
  ghost predicate AtCursor(panels: seq<Panel>, x: int, y: int, rowHeight: int)
  {
    && Packed(panels, x, y, rowHeight) && |panels| > 0
    && var last := panels[|panels| - 1];
       if last.header then x == 0 && rowHeight == 0 else x == Right(last) && y == last.y
  }

  ghost predicate Fit(specs: seq<Spec>, n: int)
    requires n <= |specs|
  {
    forall i :: 0 <= i < n ==> specs[i].width <= GRID_WIDTH
  }

  ghost predicate AllFit(rows: seq<seq<Spec>>, n: int)
    requires n <= |rows|
  {
    forall r :: 0 <= r < n ==> Fit(rows[r], |rows[r]|)
  }

  lemma PlaceOne(panels: seq<Panel>, p: Panel, x0: int, y0: int, h0: int, rowHeight: int)
    requires Packed(panels, x0, y0, h0) && p.id == |panels| + 1 && p.w > 0 && p.h > 0 && p.x >= 0 && p.y >= 0
    requires if Wraps(panels + [p], |panels|) then p.x == 0 && p.y == y0 + h0 && rowHeight == p.h
             else p.x == x0 && p.y == y0 && Continues(panels + [p], |panels|) && rowHeight == if h0 >= p.h then h0 else p.h
    ensures Packed(panels + [p], Right(p), p.y, rowHeight)
  {
    ShelveOne(panels, p, y0 + h0);
    RestsMore(panels, p, y0 + h0);
  }

  lemma ShelveOne(panels: seq<Panel>, p: Panel, floor: int)
    requires Shelved(panels) && Rests(panels, |panels|, floor)
    requires if Wraps(panels + [p], |panels|) then p.x == 0 && p.y == floor else Continues(panels + [p], |panels|)
    ensures Shelved(panels + [p])
  {
    var more, n := panels + [p], |panels|;
    assert more[n] == p && forall i :: 0 <= i < n ==> more[i] == panels[i];
    forall i | 0 <= i < |more| ensures ShelvedAt(Wraps(more, i), OpensShelf(more, i), Continues(more, i)) {
      RestsSnoc(panels, p, if i <= n then i else n);
      if i < n {
        assert ShelvedAt(Wraps(panels, i), OpensShelf(panels, i), Continues(panels, i));
        assert Wraps(more, i) == Wraps(panels, i);
      }
    }
  }

  lemma RestsSnoc(panels: seq<Panel>, p: Panel, n: nat)
    requires n <= |panels|
    ensures forall y :: Rests(panels, n, y) ==> Rests(panels + [p], n, y)
  {
    var more := panels + [p];
    forall y | Rests(panels, n, y) ensures Rests(more, n, y) {
      if n > 0 {
        var j :| 0 <= j < n && Bottom(panels[j]) == y;
        assert Bottom(more[j]) == y;
      }
    }
  }

  lemma RestsMore(panels: seq<Panel>, p: Panel, y: int)
    requires Rests(panels, |panels|, y) && Bottom(p) > 0
    ensures Rests(panels + [p], |panels| + 1, if y >= Bottom(p) then y else Bottom(p))
  {
    var more := panels + [p];
    RestsSnoc(panels, p, |panels|);
    assert more[|panels|] == p;
    assert Bottom(more[|panels|]) == Bottom(p);
  }

  lemma ShownSnoc(panels: seq<Panel>, p: Panel)
    ensures Shown(panels + [p]) == Shown(panels) + [(p.header, Spec(p.w, p.h))]
  {
  }

  lemma MarkedSnoc(specs: seq<Spec>, n: nat)
    requires n < |specs|
    ensures Marked(specs[..n + 1]) == Marked(specs[..n]) + [(false, specs[n])]
  {
  }

  /** One iteration of the inner loop. */
  method PlacePanel(panels: seq<Panel>, spec: Spec, x0: int, y0: int, h0: int)
    returns (more: seq<Panel>, x: int, y: int, rowHeight: int)
    requires AtCursor(panels, x0, y0, h0) && spec.width > 0 && spec.height > 0
    ensures AtCursor(more, x, y, rowHeight)
    ensures Shown(more) == Shown(panels) + [(false, spec)]
    ensures InGrid(more) <==> InGrid(panels) && spec.width <= GRID_WIDTH
  {
    x, y, rowHeight := x0, y0, h0;
    if x + spec.width > GRID_WIDTH {
      x := 0;
      y := y + rowHeight;
      rowHeight := 0;
    }
    var p := Panel(|panels| + 1, false, x, y, spec.width, spec.height);
    more := panels + [p];
    ShownSnoc(panels, p);
    x := x + spec.width;
    rowHeight := if rowHeight >= spec.height then rowHeight else spec.height;
    PlaceOne(panels, p, x0, y0, h0, rowHeight);
    assert more[|panels|] == p;
    assert forall i :: 0 <= i < |panels| ==> more[i] == panels[i];
  }

  lemma PlaceHeader(panels: seq<Panel>, header: Panel, y0: int)
    requires Packed(panels, 0, y0, 0) && header == Panel(|panels| + 1, true, 0, y0, GRID_WIDTH, 1)
    ensures AtCursor(panels + [header], 0, y0 + 1, 0)
    ensures InGrid(panels + [header]) <==> InGrid(panels)
  {
    var more := panels + [header];
    PlaceOne(panels, header, 0, y0, 0, 1);
    assert more[|panels|] == header;
    assert forall i :: 0 <= i < |panels| ==> more[i] == panels[i];
  }

  /** The header of a row and its panels. */
  method PlaceRow(panels: seq<Panel>, row: seq<Spec>, y0: int) returns (more: seq<Panel>, y: int)
    requires Packed(panels, 0, y0, 0) && Positive(row)
    ensures Packed(more, 0, y, 0)
    ensures Shown(more) == Shown(panels) + [(true, Spec(GRID_WIDTH, 1))] + Marked(row)
    ensures InGrid(more) <==> InGrid(panels) && Fit(row, |row|)
  {
    var header := Panel(|panels| + 1, true, 0, y0, GRID_WIDTH, 1);
    more := panels + [header];
    ShownSnoc(panels, header);
    PlaceHeader(panels, header, y0);
    y := y0 + 1;
    var x, rowHeight := 0, 0;
    for i := 0 to |row|
      invariant AtCursor(more, x, y, rowHeight)
      invariant Shown(more) == Shown(panels) + [(true, Spec(GRID_WIDTH, 1))] + Marked(row[..i])
      invariant InGrid(more) <==> InGrid(panels) && Fit(row, i)
    {
      more, x, y, rowHeight := PlacePanel(more, row[i], x, y, rowHeight);
      MarkedSnoc(row, i);
    }
    assert row[..|row|] == row;
    y := y + rowHeight;
  }

  /**
   * The layout of any rows of panels with positive sizes: ids are 1..n, the
   * panels are the expected ones in order, no two overlap, headers included,
   * every shelf rests on the lowest panel above it, and none is left before it
   * is full. Everything is inside the grid exactly when no panel is wider than it.
   */
  method BuildPanels(rows: seq<seq<Spec>>) returns (panels: seq<Panel>)
    requires forall r :: 0 <= r < |rows| ==> Positive(rows[r])
    ensures Numbered(panels) && Shown(panels) == Expected(rows)
    ensures NoneOverlap(panels) && Shelved(panels)
    ensures InGrid(panels) <==> AllFit(rows, |rows|)
  {
    panels := [];
    var y := 0;
    for r := 0 to |rows|
      invariant Packed(panels, 0, y, 0)
      invariant Shown(panels) == Expected(rows[..r])
      invariant InGrid(panels) <==> AllFit(rows, r)
    {
      panels, y := PlaceRow(panels, rows[r], y);
      assert rows[..r + 1][..r] == rows[..r];
    }
    assert rows[..|rows|] == rows;
  }
  /** Which leaves no choice: the panels, their order and their sizes fix every id and position. */
  lemma {:induction false} OneLayout(a: seq<Panel>, b: seq<Panel>)
    requires Numbered(a) && Shelved(a) && Numbered(b) && Shelved(b) && Shown(a) == Shown(b)
    ensures a == b
  {
    assert |a| == |Shown(a)| == |Shown(b)| == |b|;
    for n := 0 to |a|
      invariant forall i :: 0 <= i < n ==> a[i] == b[i]
    {
      SamePlace(a, b, n);
    }
  }

  lemma SamePlace(a: seq<Panel>, b: seq<Panel>, n: nat)
    requires n < |a| == |b| && forall i :: 0 <= i < n ==> a[i] == b[i]
    requires Numbered(a) && Shelved(a) && Numbered(b) && Shelved(b) && Shown(a) == Shown(b)
    ensures a[n] == b[n]
  {
    assert Shown(a)[n] == Shown(b)[n];
    assert ShelvedAt(Wraps(a, n), OpensShelf(a, n), Continues(a, n)) && ShelvedAt(Wraps(b, n), OpensShelf(b, n), Continues(b, n));
    assert Wraps(a, n) == Wraps(b, n);
    if Wraps(a, n) && n > 0 {
      var i :| 0 <= i < n && Bottom(a[i]) == a[n].y;
      var j :| 0 <= j < n && Bottom(b[j]) == b[n].y;
      assert Bottom(b[i]) <= b[n].y && Bottom(a[j]) <= a[n].y;
    }
  }
}
