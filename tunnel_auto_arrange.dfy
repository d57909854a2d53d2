/**
 * `autoArrange` of the tunnel view: measured cards are placed row by row in
 * sorted id order, odd rows staggered, each candidate nudged right (wrapping
 * to a new row) while it collides with an already placed card, and after 50
 * nudges the card falls back to a fixed grid slot. Collisions are looked up in
 * a spatial hash whose cells are `avgW + 40` wide.
 *
 * Card sizes are DOM measurements and are taken to be non-negative.
 */
module TunnelAutoArrange {
  import opened Wrappers
  import opened TunnelLayout
  import SortKey

  const MaxNudges: nat := 50
  /** `padX` and `padY`, both equal to the gap. */
  const Pad: real := 40.0

  // ---------------------------------------------------------------------------
  // Sorting the ids (`validIds.sort()`: code-unit order, here character order)
  // ---------------------------------------------------------------------------

  predicate Less(a: string, b: string) {
    SortKey.LexLess(a, b)
  }

  lemma {:induction false} LessTotal(a: string, b: string)
    ensures a == b || Less(a, b) || Less(b, a)
    decreases |a|
  {
    if |a| > 0 && |b| > 0 && a[0] == b[0] {
      LessTotal(a[1..], b[1..]);
      if a[1..] == b[1..] {
        assert a == [a[0]] + a[1..] && b == [b[0]] + b[1..];
      }
    }
  }

  /** Not-after is transitive. */
  lemma AtMostTransitive(a: string, b: string, c: string)
    requires !Less(b, a) && !Less(c, b)
    ensures !Less(c, a)
  {
    if Less(c, a) {
      LessTotal(a, b);
      if a != b {
        SortKey.LexLessTransitive(c, a, b);
      }
    }
  }

  predicate Sorted(s: seq<string>) {
    forall i, j :: 0 <= i < j < |s| ==> !Less(s[j], s[i])
  }

  /** Insert x after every element that sorts before it. */
  function InsertSorted(x: string, s: seq<string>): (r: seq<string>)
    ensures multiset(r) == multiset(s) + multiset{x}
  {
    if |s| == 0 then [x]
    else if !Less(s[0], x) then [x] + s
    else
      assert s == [s[0]] + s[1..];
      [s[0]] + InsertSorted(x, s[1..])
  }

  /** Inserting into a sorted sequence keeps it sorted. */
  lemma {:induction false} InsertSortedKeepsOrder(x: string, s: seq<string>)
    requires Sorted(s)
    ensures Sorted(InsertSorted(x, s))
    decreases |s|
  {
    if |s| == 0 {
    } else if !Less(s[0], x) {
      forall j | 0 < j < |[x] + s| ensures !Less(([x] + s)[j], x) {
        if j > 1 {
          AtMostTransitive(x, s[0], s[j - 1]);
        }
      }
    } else {
      var rest := InsertSorted(x, s[1..]);
      InsertSortedKeepsOrder(x, s[1..]);
      assert s == [s[0]] + s[1..];
      forall j | 0 <= j < |rest| ensures !Less(rest[j], s[0]) {
        assert rest[j] in multiset(rest);
        if rest[j] != x {
          assert rest[j] in multiset(s[1..]);
          var k :| 0 <= k < |s[1..]| && s[1..][k] == rest[j];
          assert s[k + 1] == rest[j];
        } else {
          SortKey.LexLessIrreflexive(x);
          if Less(x, s[0]) { SortKey.LexLessTransitive(x, s[0], x); }
        }
      }
      assert InsertSorted(x, s) == [s[0]] + rest;
    }
  }

  /** The sorted ids. */
  function SortIds(s: seq<string>): (r: seq<string>)
    ensures multiset(r) == multiset(s)
    ensures Sorted(r)
  {
    if |s| == 0 then []
    else
      assert s == [s[0]] + s[1..];
      var t := SortIds(s[1..]);
      InsertSortedKeepsOrder(s[0], t);
      InsertSorted(s[0], t)
  }

  /** The first element of a sorted sequence sorts no later than any element. */
  lemma HeadIsLeast(a: seq<string>, x: string)
    requires Sorted(a) && x in multiset(a)
    ensures !Less(x, a[0])
  {
    var i :| 0 <= i < |a| && a[i] == x;
    if i == 0 { SortKey.LexLessIrreflexive(x); }
  }

  lemma TailMultiset(a: seq<string>)
    requires |a| > 0
    ensures multiset(a[1..]) == multiset(a) - multiset{a[0]}
  {
    assert a == [a[0]] + a[1..];
  }

  /** A sorted sequence is determined by its elements. */
  lemma {:induction false} SortedUnique(a: seq<string>, b: seq<string>)
    requires Sorted(a) && Sorted(b) && multiset(a) == multiset(b)
    ensures a == b
    decreases |a|
  {
    assert |b| == |a| by { assert |multiset(b)| == |multiset(a)|; }
    if |a| > 0 {
      assert b[0] in multiset(b) && a[0] in multiset(a);
      HeadIsLeast(a, b[0]);
      HeadIsLeast(b, a[0]);
      LessTotal(a[0], b[0]);
      TailMultiset(a);
      TailMultiset(b);
      assert Sorted(a[1..]) && Sorted(b[1..]);
      SortedUnique(a[1..], b[1..]);
      assert a == [a[0]] + a[1..] && b == [b[0]] + b[1..];
    }
  }

  // ---------------------------------------------------------------------------
  // Spatial hash
  // ---------------------------------------------------------------------------

  type Cell = (int, int)
  type Hash = map<Cell, seq<Rect>>

  /** The cells a rectangle touches, `cellRange`. */
  datatype CellRange = CellRange(minCx: int, minCy: int, maxCx: int, maxCy: int)

  lemma FloorDivMonotone(x: real, y: real, cs: real)
    requires cs > 0.0 && x <= y
    ensures (x / cs).Floor <= (y / cs).Floor
  {
    assert x / cs <= y / cs by {
      assert y / cs - x / cs == (y - x) / cs;
    }
  }

  predicate NonNegative(r: Rect) {
    r.w >= 0.0 && r.h >= 0.0
  }

  predicate AllNonNegative(rs: seq<Rect>) {
    forall i :: 0 <= i < |rs| ==> NonNegative(rs[i])
  }

  function RangeOf(r: Rect, cellSize: real): (cr: CellRange)
    requires cellSize > 0.0
    ensures NonNegative(r) ==> cr.minCx <= cr.maxCx && cr.minCy <= cr.maxCy
  {
    var cr := CellRange((r.x / cellSize).Floor, (r.y / cellSize).Floor, ((r.x + r.w) / cellSize).Floor, ((r.y + r.h) / cellSize).Floor);
    if NonNegative(r) then
      FloorDivMonotone(r.x, r.x + r.w, cellSize);
      FloorDivMonotone(r.y, r.y + r.h, cellSize);
      cr
    else cr
  }

  predicate InRange(c: Cell, cr: CellRange) {
    cr.minCx <= c.0 <= cr.maxCx && cr.minCy <= c.1 <= cr.maxCy
  }

  /** The cell ranges of two rectangles intersect. */
  predicate SharesCell(a: Rect, b: Rect, cellSize: real)
    requires cellSize > 0.0
  {
    var ra, rb := RangeOf(a, cellSize), RangeOf(b, cellSize);
    ra.minCx <= rb.maxCx && rb.minCx <= ra.maxCx && ra.minCy <= rb.maxCy && rb.minCy <= ra.maxCy
  }

  /** Rectangles whose interiors intersect share a cell, so the hash never misses
    * a true overlap. */
  lemma OverlapSharesCell(a: Rect, b: Rect, cellSize: real)
    requires cellSize > 0.0
    requires AabbOverlap(a, b, 0.0)
    ensures SharesCell(a, b, cellSize)
  {
    FloorDivMonotone(a.x, b.x + b.w, cellSize);
    FloorDivMonotone(b.x, a.x + a.w, cellSize);
    FloorDivMonotone(a.y, b.y + b.h, cellSize);
    FloorDivMonotone(b.y, a.y + a.h, cellSize);
  }

  function Bucket(h: Hash, c: Cell): seq<Rect> {
    if c in h then h[c] else []
  }

  /** Cell c holds r exactly when r is placed and touches c. */
  predicate FiledUnder(h: Hash, placed: seq<Rect>, cellSize: real, c: Cell, r: Rect)
    requires cellSize > 0.0
  {
    r in Bucket(h, c) <==> r in placed && InRange(c, RangeOf(r, cellSize))
  }

  /** The hash files each placed rectangle under exactly the cells it touches. */
  ghost predicate HashOf(h: Hash, placed: seq<Rect>, cellSize: real)
    requires cellSize > 0.0
  {
    forall c: Cell, r: Rect :: FiledUnder(h, placed, cellSize, c, r)
  }

  /** `hashInsert`: add the rectangle to the bucket of every cell it touches. */
  method HashInsert(h: Hash, rect: Rect, cellSize: real) returns (h': Hash)
    requires cellSize > 0.0 && NonNegative(rect)
    ensures forall c: Cell :: Bucket(h', c) == if InRange(c, RangeOf(rect, cellSize)) then Bucket(h, c) + [rect] else Bucket(h, c)
  {
    var cr := RangeOf(rect, cellSize);
    h' := h;
    var cx := cr.minCx;
    while cx <= cr.maxCx
      invariant cr.minCx <= cx <= cr.maxCx + 1
      invariant forall c: Cell :: Bucket(h', c) == if InRange(c, cr) && c.0 < cx then Bucket(h, c) + [rect] else Bucket(h, c)
    {
      var cy := cr.minCy;
      while cy <= cr.maxCy
        invariant cr.minCy <= cy <= cr.maxCy + 1
        invariant forall c: Cell :: Bucket(h', c) == (if InRange(c, cr) && (c.0 < cx || (c.0 == cx && c.1 < cy)) then Bucket(h, c) + [rect] else Bucket(h, c))
      {
        var bucket := Bucket(h', (cx, cy));
        h' := h'[(cx, cy) := bucket + [rect]];
        cy := cy + 1;
      }
      cx := cx + 1;
    }
  }

  /** Inserting a placed rectangle keeps the hash in step with the placed list. */
  lemma InsertKeepsHash(h: Hash, h': Hash, placed: seq<Rect>, rect: Rect, cellSize: real)
    requires cellSize > 0.0
    requires HashOf(h, placed, cellSize)
    requires forall c: Cell :: Bucket(h', c) == if InRange(c, RangeOf(rect, cellSize)) then Bucket(h, c) + [rect] else Bucket(h, c)
    ensures HashOf(h', placed + [rect], cellSize)
  {
    forall c: Cell, r: Rect
      ensures FiledUnder(h', placed + [rect], cellSize, c, r)
    {
      assert FiledUnder(h, placed, cellSize, c, r);
      assert r in placed + [rect] <==> r in placed || r == rect;
    }
  }

  /** `hashInsert` of a newly placed card, which keeps the hash in step with the placed list. */
  method InsertPlaced(h: Hash, ghost placed: seq<Rect>, rect: Rect, cellSize: real) returns (h': Hash)
    requires cellSize > 0.0 && NonNegative(rect)
    requires HashOf(h, placed, cellSize)
    ensures HashOf(h', placed + [rect], cellSize)
  {
    h' := HashInsert(h, rect, cellSize);
    InsertKeepsHash(h, h', placed, rect, cellSize);
  }

  /** The buckets of column cx from row minCy up to (not including) cy, in visiting order. */
  function ColumnUpTo(h: Hash, cx: int, minCy: int, cy: int): seq<Rect>
    decreases cy - minCy
  {
    if cy <= minCy then [] else ColumnUpTo(h, cx, minCy, cy - 1) + Bucket(h, (cx, cy - 1))
  }

  /** The buckets of the columns of `cr` before cx, in visiting order. */
  function ColumnsUpTo(h: Hash, cr: CellRange, cx: int): seq<Rect>
    decreases cx - cr.minCx
  {
    if cx <= cr.minCx then [] else ColumnsUpTo(h, cr, cx - 1) + ColumnUpTo(h, cx - 1, cr.minCy, cr.maxCy + 1)
  }

  /** What `hashQuery` gathers for a rectangle (with repeats; a set drops them in
    * the source, which does not matter to the `some` that consumes it). */
  function Query(h: Hash, cand: Rect, cellSize: real): seq<Rect>
    requires cellSize > 0.0
  {
    var cr := RangeOf(cand, cellSize);
    ColumnsUpTo(h, cr, cr.maxCx + 1)
  }

  /** `hashQuery`: visit every cell the candidate touches and gather its bucket. */
  method HashQuery(h: Hash, cand: Rect, cellSize: real) returns (neighbors: seq<Rect>)
    requires cellSize > 0.0 && NonNegative(cand)
    ensures neighbors == Query(h, cand, cellSize)
  {
    var cr := RangeOf(cand, cellSize);
    neighbors := [];
    var cx := cr.minCx;
    while cx <= cr.maxCx
      invariant cr.minCx <= cx <= cr.maxCx + 1
      invariant neighbors == ColumnsUpTo(h, cr, cx)
    {
      var cy := cr.minCy;
      while cy <= cr.maxCy
        invariant cr.minCy <= cy <= cr.maxCy + 1
        invariant neighbors == ColumnsUpTo(h, cr, cx) + ColumnUpTo(h, cx, cr.minCy, cy)
      {
        AppendAssoc(ColumnsUpTo(h, cr, cx), ColumnUpTo(h, cx, cr.minCy, cy), Bucket(h, (cx, cy)));
        neighbors := neighbors + Bucket(h, (cx, cy));
        cy := cy + 1;
      }
      assert neighbors == ColumnsUpTo(h, cr, cx + 1);
      cx := cx + 1;
    }
  }

  lemma AppendAssoc(a: seq<Rect>, b: seq<Rect>, c: seq<Rect>)
    ensures a + b + c == a + (b + c)
  {
  }

  lemma {:induction false} ColumnUpToMembers(h: Hash, cx: int, minCy: int, cy: int, r: Rect)
    ensures r in ColumnUpTo(h, cx, minCy, cy) <==> exists y :: minCy <= y < cy && r in Bucket(h, (cx, y))
    decreases cy - minCy
  {
    if cy > minCy {
      ColumnUpToMembers(h, cx, minCy, cy - 1, r);
      if r in Bucket(h, (cx, cy - 1)) {
        assert minCy <= cy - 1 < cy;
      }
    }
  }

  lemma {:induction false} ColumnsUpToMembers(h: Hash, cr: CellRange, cx: int, r: Rect)
    ensures r in ColumnsUpTo(h, cr, cx) <==> exists x, y :: cr.minCx <= x < cx && cr.minCy <= y <= cr.maxCy && r in Bucket(h, (x, y))
    decreases cx - cr.minCx
  {
    if cx > cr.minCx {
      ColumnsUpToMembers(h, cr, cx - 1, r);
      ColumnUpToMembers(h, cx - 1, cr.minCy, cr.maxCy + 1, r);
      if exists x, y :: cr.minCx <= x < cx && cr.minCy <= y <= cr.maxCy && r in Bucket(h, (x, y)) {
        var x, y :| cr.minCx <= x < cx && cr.minCy <= y <= cr.maxCy && r in Bucket(h, (x, y));
        if x == cx - 1 {
          assert cr.minCy <= y < cr.maxCy + 1;
        }
      }
    }
  }

  /** The query returns exactly the placed rectangles that share a cell with the
    * candidate. */
  lemma QueryFindsSharers(h: Hash, placed: seq<Rect>, cand: Rect, cellSize: real, r: Rect)
    requires cellSize > 0.0
    requires HashOf(h, placed, cellSize)
    requires NonNegative(cand) && AllNonNegative(placed)
    ensures r in Query(h, cand, cellSize) <==> r in placed && SharesCell(r, cand, cellSize)
  {
    var cr, rr := RangeOf(cand, cellSize), RangeOf(r, cellSize);
    ColumnsUpToMembers(h, cr, cr.maxCx + 1, r);
    if r in placed && SharesCell(r, cand, cellSize) {
      var c: Cell := (if rr.minCx < cr.minCx then cr.minCx else rr.minCx, if rr.minCy < cr.minCy then cr.minCy else rr.minCy);
      assert InRange(c, rr);
      assert FiledUnder(h, placed, cellSize, c, r);
      assert r in Bucket(h, c);
    }
    if r in Query(h, cand, cellSize) {
      var x, y :| cr.minCx <= x < cr.maxCx + 1 && cr.minCy <= y <= cr.maxCy && r in Bucket(h, (x, y));
      assert FiledUnder(h, placed, cellSize, (x, y), r);
    }
  }

  // ---------------------------------------------------------------------------
  // Placement, as a specification
  // ---------------------------------------------------------------------------

  predicate NonNegativeSizes(sizes: map<string, Size>) {
    forall id :: id in sizes ==> sizes[id].w >= 0.0 && sizes[id].h >= 0.0
  }

  predicate ZeroSize(s: Size) {
    s.w == 0.0 && s.h == 0.0
  }

  /** The ids that take part in layout, in iteration order. */
  function ValidIds(order: seq<string>, sizes: map<string, Size>): (ids: seq<string>)
    requires forall id :: id in order ==> id in sizes
    ensures forall id :: id in ids <==> id in order && !ZeroSize(sizes[id])
  {
    if |order| == 0 then []
    else
      var id := order[|order| - 1];
      var rest := ValidIds(order[..|order| - 1], sizes);
      assert forall x :: x in order <==> x in order[..|order| - 1] || x == id;
      if ZeroSize(sizes[id]) then rest else rest + [id]
  }

  /** How many cards are excluded for being 0 by 0. */
  function ZeroCount(order: seq<string>, sizes: map<string, Size>): nat
    requires forall id :: id in order ==> id in sizes
  {
    if |order| == 0 then 0
    else ZeroCount(order[..|order| - 1], sizes) + if ZeroSize(sizes[order[|order| - 1]]) then 1 else 0
  }

  function SumW(ids: seq<string>, sizes: map<string, Size>): (total: real)
    requires forall i :: 0 <= i < |ids| ==> ids[i] in sizes
    requires NonNegativeSizes(sizes)
    ensures total >= 0.0
  {
    if |ids| == 0 then 0.0 else SumW(ids[..|ids| - 1], sizes) + sizes[ids[|ids| - 1]].w
  }

  function SumH(ids: seq<string>, sizes: map<string, Size>): (total: real)
    requires forall i :: 0 <= i < |ids| ==> ids[i] in sizes
    requires NonNegativeSizes(sizes)
    ensures total >= 0.0
  {
    if |ids| == 0 then 0.0 else SumH(ids[..|ids| - 1], sizes) + sizes[ids[|ids| - 1]].h
  }

  /** The sorted ids that take part in layout. */
  function SortedValidIds(order: seq<string>, sizes: map<string, Size>): (ids: seq<string>)
    requires forall id :: id in order ==> id in sizes
    ensures Sorted(ids)
    ensures forall id :: id in ids <==> id in order && !ZeroSize(sizes[id])
    ensures multiset(ids) == multiset(ValidIds(order, sizes))
  {
    var v := ValidIds(order, sizes);
    var ids := SortIds(v);
    assert forall x :: x in ids <==> x in multiset(ids);
    assert forall x :: x in v <==> x in multiset(v);
    ids
  }

  /** What the layout derives from the cards once: average size, usable width,
    * hash cell size, epsilon and the fallback grid's column count. */
  datatype Params = Params(avgW: real, avgH: real, usableW: real, cellSize: real, eps: real, cols: nat)

  predicate ValidParams(p: Params) {
    p.cellSize > 0.0 && p.cols >= 1
  }

  function ParamsFor(ids: seq<string>, sizes: map<string, Size>, viewW: real, eps: real): (p: Params)
    requires |ids| > 0
    requires forall i :: 0 <= i < |ids| ==> ids[i] in sizes
    requires NonNegativeSizes(sizes)
    ensures ValidParams(p)
    ensures p.cellSize >= Gap && p.usableW >= p.cellSize && p.cols * p.cols >= |ids|
  {
    var avgW := SumW(ids, sizes) / |ids| as real;
    var avgH := SumH(ids, sizes) / |ids| as real;
    var usableW := if viewW - Pad * 2.0 > avgW + Gap then viewW - Pad * 2.0 else avgW + Gap;
    Params(avgW, avgH, usableW, avgW + Gap, eps, GridCols(|ids|))
  }

  /** The row cursor: where the next card starts, the tallest card of the row,
    * and the row number. */
  datatype Cursor = Cursor(x: real, y: real, rowMaxH: real, rowIndex: nat)

  /** Everything the placement loop has built so far; `placed` is what the hash holds. */
  datatype Placement = Placement(cur: Cursor, placed: seq<Rect>, positions: map<string, Position3D>)

  /** Start a new row when the card would cross the usable width, unless the row is empty. */
  function RowStart(cur: Cursor, cardW: real, p: Params): Cursor {
    if cur.x + cardW > Pad + p.usableW && cur.x > Pad then Cursor(Pad, cur.y + cur.rowMaxH + Gap, 0.0, cur.rowIndex + 1)
    else cur
  }

  /** Odd rows are shifted right by half a gap. */
  function Stagger(rowIndex: nat): real {
    if rowIndex % 2 == 1 then Gap * 0.5 else 0.0
  }

  /** The hash reports a collision: a placed card in a shared cell overlaps the candidate. */
  predicate Collides(placed: seq<Rect>, cand: Rect, p: Params)
    requires ValidParams(p)
  {
    exists r :: r in placed && SharesCell(r, cand, p.cellSize) && AabbOverlap(cand, r, p.eps)
  }

  /** One nudge: move right by the card width and a gap; past the usable width,
    * go back to the row start and down by the average height and a gap. The
    * nudging loop updates its candidate with this function. */
  function NudgeStep(cand: Rect, staggerX: real, p: Params): (r: Rect)
    ensures r.w == cand.w && r.h == cand.h
  {
    var moved := cand.(x := cand.x + cand.w + Gap);
    if moved.x + cand.w > Pad + p.usableW + Gap then moved.(x := Pad + staggerX, y := moved.y + p.avgH + Gap)
    else moved
  }

  /** The nudging loop from `attempts` on: the final candidate and the attempts used. */
  function Nudge(cand: Rect, attempts: nat, staggerX: real, placed: seq<Rect>, p: Params): (r: (Rect, nat))
    requires ValidParams(p) && attempts <= MaxNudges
    ensures attempts <= r.1 <= MaxNudges
    ensures r.0.w == cand.w && r.0.h == cand.h
    decreases MaxNudges - attempts
  {
    if attempts == MaxNudges || !Collides(placed, cand, p) then (cand, attempts)
    else Nudge(NudgeStep(cand, staggerX, p), attempts + 1, staggerX, placed, p)
  }

  /** The fallback slot of card `idx`: a grid of 280 by 320 cells from (40, 40). */
  function GridSlot(idx: nat, cols: nat, w: real, h: real): Rect
    requires cols >= 1
  {
    Rect(Pad + (idx % cols) as real * (CardDefaultW + Gap), Pad + (idx / cols) as real * (CardDefaultH + Gap), w, h)
  }

  /** `validIds.indexOf(id)`. */
  function IndexOf(ids: seq<string>, id: string): (i: nat)
    requires id in ids
    ensures i < |ids| && ids[i] == id
    ensures forall j :: 0 <= j < i ==> ids[j] != id
  {
    if ids[0] == id then 0 else 1 + IndexOf(ids[1..], id)
  }

  /** Place card k. */
  function PlaceCard(st: Placement, ids: seq<string>, k: nat, sizes: map<string, Size>, p: Params): Placement
    requires k < |ids| && ids[k] in sizes && ValidParams(p)
  {
    var id := ids[k];
    var size := sizes[id];
    var cur := RowStart(st.cur, size.w, p);
    var staggerX := Stagger(cur.rowIndex);
    var nudged := Nudge(Rect(cur.x + staggerX, cur.y, size.w, size.h), 0, staggerX, st.placed, p);
    var rect := if nudged.1 >= MaxNudges then GridSlot(IndexOf(ids, id), p.cols, size.w, size.h) else nudged.0;
    Placement(Cursor(rect.x + size.w + Gap, cur.y, if cur.rowMaxH > size.h then cur.rowMaxH else size.h, cur.rowIndex),
              st.placed + [rect], st.positions[id := Position3D(rect.x, rect.y, 0.0)])
  }

  /** `PlaceCard` spelled out for a given outcome of the nudging. */
  lemma PlaceCardUnfold(st: Placement, ids: seq<string>, k: nat, sizes: map<string, Size>, p: Params,
                         cur: Cursor, staggerX: real, nudged: (Rect, nat), rect: Rect)
    requires k < |ids| && ids[k] in sizes && ValidParams(p)
    requires cur == RowStart(st.cur, sizes[ids[k]].w, p)
    requires staggerX == Stagger(cur.rowIndex)
    requires nudged == Nudge(Rect(cur.x + staggerX, cur.y, sizes[ids[k]].w, sizes[ids[k]].h), 0, staggerX, st.placed, p)
    requires rect == if nudged.1 >= MaxNudges then GridSlot(IndexOf(ids, ids[k]), p.cols, sizes[ids[k]].w, sizes[ids[k]].h) else nudged.0
    ensures var size := sizes[ids[k]];
      PlaceCard(st, ids, k, sizes, p) ==
        Placement(Cursor(rect.x + size.w + Gap, cur.y, if cur.rowMaxH > size.h then cur.rowMaxH else size.h, cur.rowIndex),
                  st.placed + [rect], st.positions[ids[k] := Position3D(rect.x, rect.y, 0.0)])
  {
  }

  /** The state after the first k cards. */
  function PlaceUpTo(ids: seq<string>, sizes: map<string, Size>, p: Params, k: nat): Placement
    requires k <= |ids| && ValidParams(p)
    requires forall i :: 0 <= i < |ids| ==> ids[i] in sizes
  {
    if k == 0 then Placement(Cursor(Pad, Pad, 0.0, 0), [], map[])
    else PlaceCard(PlaceUpTo(ids, sizes, p, k - 1), ids, k - 1, sizes, p)
  }

  /** What `autoArrange` returns: the positions and the number of excluded cards. */
  function AutoArrangeResult(order: seq<string>, sizes: map<string, Size>, viewW: real, eps: real): (map<string, Position3D>, nat)
    requires forall id :: id in order ==> id in sizes
    requires NonNegativeSizes(sizes)
  {
    var ids := SortedValidIds(order, sizes);
    if |ids| == 0 then (map[], ZeroCount(order, sizes))
    else (PlaceUpTo(ids, sizes, ParamsFor(ids, sizes, viewW, eps), |ids|).positions, ZeroCount(order, sizes))
  }

  // ---------------------------------------------------------------------------
  // The loops of `autoArrange`
  // ---------------------------------------------------------------------------

  /** `autoArrange(cardSizes, viewW, viewH)`: `order` is the Map's iteration order;
    * `viewH` is not used by the source either. */
  method AutoArrange(order: seq<string>, sizes: map<string, Size>, viewW: real, viewH: real, eps: real)
    returns (positions: map<string, Position3D>, zeroSizeCount: nat)
    requires KeyOrder(order, sizes)
    requires NonNegativeSizes(sizes)
    ensures (positions, zeroSizeCount) == AutoArrangeResult(order, sizes, viewW, eps)
  {
    var validIds;
    validIds, zeroSizeCount := FilterZeroSize(order, sizes);
    validIds := SortedValidIds(order, sizes);
    if |validIds| == 0 {
      return map[], zeroSizeCount;
    }
    var totalW, totalH := SumSizes(validIds, sizes);
    var avgW := totalW / |validIds| as real;
    var avgH := totalH / |validIds| as real;
    var cellSize := avgW + Gap;
    var usableW := if viewW - Pad * 2.0 > avgW + Gap then viewW - Pad * 2.0 else avgW + Gap;
    var cols := GridCols(|validIds|);
    var p := Params(avgW, avgH, usableW, cellSize, eps, cols);
    assert p == ParamsFor(validIds, sizes, viewW, eps);
    positions := PlaceAll(validIds, sizes, p);
  }

  /** The first loop of `autoArrange`: keep the cards that are not 0 by 0, count the others. */
  method FilterZeroSize(order: seq<string>, sizes: map<string, Size>) returns (validIds: seq<string>, zeroSizeCount: nat)
    requires forall id :: id in order ==> id in sizes
    ensures validIds == ValidIds(order, sizes)
    ensures zeroSizeCount == ZeroCount(order, sizes)
  {
    validIds := [];
    zeroSizeCount := 0;
    var k := 0;
    while k < |order|
      invariant k <= |order|
      invariant validIds == ValidIds(order[..k], sizes)
      invariant zeroSizeCount == ZeroCount(order[..k], sizes)
    {
      var id := order[k];
      var size := sizes[id];
      FilterStep(order, sizes, k);
      if size.w == 0.0 && size.h == 0.0 {
        zeroSizeCount := zeroSizeCount + 1;
      } else {
        validIds := validIds + [id];
      }
      k := k + 1;
    }
    assert order[..k] == order;
  }

  lemma FilterStep(order: seq<string>, sizes: map<string, Size>, k: nat)
    requires k < |order| && forall id :: id in order ==> id in sizes
    ensures ValidIds(order[..k + 1], sizes) == ValidIds(order[..k], sizes) + if ZeroSize(sizes[order[k]]) then [] else [order[k]]
    ensures ZeroCount(order[..k + 1], sizes) == ZeroCount(order[..k], sizes) + if ZeroSize(sizes[order[k]]) then 1 else 0
  {
    assert order[..k + 1][..k] == order[..k];
  }

  /** The loop that totals the widths and heights for the averages. */
  method SumSizes(ids: seq<string>, sizes: map<string, Size>) returns (totalW: real, totalH: real)
    requires forall i :: 0 <= i < |ids| ==> ids[i] in sizes
    requires NonNegativeSizes(sizes)
    ensures totalW == SumW(ids, sizes) && totalH == SumH(ids, sizes)
  {
    totalW, totalH := 0.0, 0.0;
    var k := 0;
    while k < |ids|
      invariant k <= |ids|
      invariant totalW == SumW(ids[..k], sizes) && totalH == SumH(ids[..k], sizes)
    {
      assert ids[..k + 1][..k] == ids[..k];
      var size := sizes[ids[k]];
      totalW := totalW + size.w;
      totalH := totalH + size.h;
      k := k + 1;
    }
    assert ids[..k] == ids;
  }

  /** The main loop of `autoArrange`: place the sorted cards one after another. */
  method PlaceAll(ids: seq<string>, sizes: map<string, Size>, p: Params) returns (positions: map<string, Position3D>)
    requires forall i :: 0 <= i < |ids| ==> ids[i] in sizes
    requires NonNegativeSizes(sizes) && ValidParams(p)
    ensures positions == PlaceUpTo(ids, sizes, p, |ids|).positions
  {
    var cursorX, cursorY, rowMaxH, rowIndex := Pad, Pad, 0.0, 0;
    var hash: Hash := map[];
    ghost var placed: seq<Rect> := [];
    positions := map[];
    var k := 0;
    while k < |ids|
      invariant k <= |ids|
      invariant Placement(Cursor(cursorX, cursorY, rowMaxH, rowIndex), placed, positions) == PlaceUpTo(ids, sizes, p, k)
      invariant HashOf(hash, placed, p.cellSize)
      invariant AllNonNegative(placed)
    {
      var rect;
      cursorX, cursorY, rowMaxH, rowIndex, rect, hash, positions :=
        PlaceOne(ids, k, sizes, p, cursorX, cursorY, rowMaxH, rowIndex, hash, placed, positions);
      placed := placed + [rect];
      k := k + 1;
    }
  }

  /** The body of the main loop for card k: row wrap, stagger, nudging, grid
    * fallback, hash insertion and cursor advance. */
  method PlaceOne(ids: seq<string>, k: nat, sizes: map<string, Size>, p: Params,
                  cursorX: real, cursorY: real, rowMaxH: real, rowIndex: nat, hash: Hash, ghost placed: seq<Rect>,
                  positions: map<string, Position3D>)
    returns (cursorX': real, cursorY': real, rowMaxH': real, rowIndex': nat, rect: Rect, hash': Hash,
             positions': map<string, Position3D>)
    requires k < |ids| && ids[k] in sizes
    requires NonNegativeSizes(sizes) && ValidParams(p)
    requires HashOf(hash, placed, p.cellSize) && AllNonNegative(placed)
    ensures PlaceCard(Placement(Cursor(cursorX, cursorY, rowMaxH, rowIndex), placed, positions), ids, k, sizes, p)
         == Placement(Cursor(cursorX', cursorY', rowMaxH', rowIndex'), placed + [rect], positions')
    ensures HashOf(hash', placed + [rect], p.cellSize) && AllNonNegative(placed + [rect])
  {
    var id := ids[k];
    var size := sizes[id];
    var cardW, cardH := size.w, size.h;
    cursorX', cursorY', rowMaxH', rowIndex' := cursorX, cursorY, rowMaxH, rowIndex;
    if cursorX' + cardW > Pad + p.usableW && cursorX' > Pad {
      cursorX' := Pad;
      cursorY' := cursorY' + rowMaxH' + Gap;
      rowMaxH' := 0.0;
      rowIndex' := rowIndex' + 1;
    }
    ghost var cur := RowStart(Cursor(cursorX, cursorY, rowMaxH, rowIndex), cardW, p);
    assert cur == Cursor(cursorX', cursorY', rowMaxH', rowIndex');
    var staggerX := if rowIndex' % 2 == 1 then Gap * 0.5 else 0.0;
    assert staggerX == Stagger(cur.rowIndex);
    var start := Rect(cursorX' + staggerX, cursorY', cardW, cardH);
    assert start == Rect(cur.x + staggerX, cur.y, sizes[ids[k]].w, sizes[ids[k]].h);
    var attempts;
    rect, attempts := NudgeLoop(start, staggerX, hash, placed, p);
    ghost var nudged := (rect, attempts);
    assert nudged == Nudge(Rect(cur.x + staggerX, cur.y, sizes[ids[k]].w, sizes[ids[k]].h), 0, staggerX, placed, p);
    if attempts >= MaxNudges {
      rect := GridSlot(IndexOf(ids, id), p.cols, cardW, cardH);
    }
    assert NonNegative(rect);
    hash' := InsertPlaced(hash, placed, rect, p.cellSize);
    PlaceCardUnfold(Placement(Cursor(cursorX, cursorY, rowMaxH, rowIndex), placed, positions), ids, k, sizes, p, cur, staggerX, nudged, rect);
    positions' := positions[id := Position3D(rect.x, rect.y, 0.0)];
    cursorX' := rect.x + cardW + Gap;
    rowMaxH' := if rowMaxH' > cardH then rowMaxH' else cardH;
    assert Cursor(cursorX', cursorY', rowMaxH', rowIndex')
        == Cursor(rect.x + size.w + Gap, cur.y, if cur.rowMaxH > size.h then cur.rowMaxH else size.h, cur.rowIndex);
    AllNonNegativeAppend(placed, rect);
  }

  lemma AllNonNegativeAppend(placed: seq<Rect>, rect: Rect)
    requires AllNonNegative(placed) && NonNegative(rect)
    ensures AllNonNegative(placed + [rect])
  {
  }

  /** The `some` over the hash query decides exactly `Collides`. */
  lemma QueryDecidesCollision(hash: Hash, placed: seq<Rect>, cand: Rect, p: Params, neighbors: seq<Rect>)
    requires ValidParams(p) && HashOf(hash, placed, p.cellSize)
    requires AllNonNegative(placed) && NonNegative(cand)
    requires neighbors == Query(hash, cand, p.cellSize)
    ensures (exists n :: n in neighbors && AabbOverlap(cand, n, p.eps)) <==> Collides(placed, cand, p)
  {
    forall r: Rect
      ensures r in neighbors <==> r in placed && SharesCell(r, cand, p.cellSize)
    {
      QueryFindsSharers(hash, placed, cand, p.cellSize, r);
    }
  }

  /** The overlap test of one nudging round: query the hash, then `some` over the neighbours. */
  method Overlapping(hash: Hash, candidate: Rect, ghost placed: seq<Rect>, p: Params) returns (overlapping: bool)
    requires ValidParams(p) && HashOf(hash, placed, p.cellSize)
    requires AllNonNegative(placed) && NonNegative(candidate)
    ensures overlapping == Collides(placed, candidate, p)
  {
    var neighbors := HashQuery(hash, candidate, p.cellSize);
    overlapping := exists n :: n in neighbors && AabbOverlap(candidate, n, p.eps);
    QueryDecidesCollision(hash, placed, candidate, p, neighbors);
  }

  /** The nudging loop: while the hash reports an overlap, nudge, at most 50 times. */
  method NudgeLoop(start: Rect, staggerX: real, hash: Hash, ghost placed: seq<Rect>, p: Params)
    returns (candidate: Rect, attempts: nat)
    requires ValidParams(p) && HashOf(hash, placed, p.cellSize)
    requires AllNonNegative(placed) && NonNegative(start)
    ensures (candidate, attempts) == Nudge(start, 0, staggerX, placed, p)
  {
    candidate := start;
    attempts := 0;
    while attempts < MaxNudges
      invariant attempts <= MaxNudges
      invariant Nudge(candidate, attempts, staggerX, placed, p) == Nudge(start, 0, staggerX, placed, p)
      invariant NonNegative(candidate)
    {
      var overlapping := Overlapping(hash, candidate, placed, p);
      NudgeUnfold(candidate, attempts, staggerX, placed, p);
      if !overlapping {
        break;
      }
      candidate := NudgeStep(candidate, staggerX, p);
      attempts := attempts + 1;
    }
    NudgeUnfold(candidate, attempts, staggerX, placed, p);
  }

  /** One step of `Nudge`. */
  lemma NudgeUnfold(cand: Rect, attempts: nat, staggerX: real, placed: seq<Rect>, p: Params)
    requires ValidParams(p) && attempts <= MaxNudges
    ensures attempts == MaxNudges || !Collides(placed, cand, p) ==> Nudge(cand, attempts, staggerX, placed, p) == (cand, attempts)
    ensures attempts < MaxNudges && Collides(placed, cand, p) ==>
      Nudge(cand, attempts, staggerX, placed, p) == Nudge(NudgeStep(cand, staggerX, p), attempts + 1, staggerX, placed, p)
  {
  }

  // ---------------------------------------------------------------------------
  // Properties
  // ---------------------------------------------------------------------------

  /** After k cards: k rectangles are placed, exactly the first k ids have
    * positions, and every position lies in the plane z = 0. */
  lemma PlaceUpToShape(ids: seq<string>, sizes: map<string, Size>, p: Params, k: nat)
    requires k <= |ids| && ValidParams(p)
    requires forall i :: 0 <= i < |ids| ==> ids[i] in sizes
    ensures |PlaceUpTo(ids, sizes, p, k).placed| == k
    ensures forall id :: id in PlaceUpTo(ids, sizes, p, k).positions <==> id in ids[..k]
    ensures forall id :: id in PlaceUpTo(ids, sizes, p, k).positions ==> PlaceUpTo(ids, sizes, p, k).positions[id].z == 0.0
  {
    PlacedCount(ids, sizes, p, k);
    PositionKeys(ids, sizes, p, k);
    PositionsFlat(ids, sizes, p, k);
  }

  lemma {:induction false} PlacedCount(ids: seq<string>, sizes: map<string, Size>, p: Params, k: nat)
    requires k <= |ids| && ValidParams(p)
    requires forall i :: 0 <= i < |ids| ==> ids[i] in sizes
    ensures |PlaceUpTo(ids, sizes, p, k).placed| == k
  {
    if k > 0 {
      PlacedCount(ids, sizes, p, k - 1);
      PlaceCardShape(PlaceUpTo(ids, sizes, p, k - 1), ids, k - 1, sizes, p);
    }
  }

  lemma {:induction false} PositionKeys(ids: seq<string>, sizes: map<string, Size>, p: Params, k: nat)
    requires k <= |ids| && ValidParams(p)
    requires forall i :: 0 <= i < |ids| ==> ids[i] in sizes
    ensures PlaceUpTo(ids, sizes, p, k).positions.Keys == set i | 0 <= i < k :: ids[i]
  {
    if k > 0 {
      PositionKeys(ids, sizes, p, k - 1);
      PlaceCardShape(PlaceUpTo(ids, sizes, p, k - 1), ids, k - 1, sizes, p);
      assert (set i | 0 <= i < k :: ids[i]) == (set i | 0 <= i < k - 1 :: ids[i]) + {ids[k - 1]};
    }
  }

  lemma {:induction false} PositionsFlat(ids: seq<string>, sizes: map<string, Size>, p: Params, k: nat)
    requires k <= |ids| && ValidParams(p)
    requires forall i :: 0 <= i < |ids| ==> ids[i] in sizes
    ensures forall id :: id in PlaceUpTo(ids, sizes, p, k).positions ==> PlaceUpTo(ids, sizes, p, k).positions[id].z == 0.0
  {
    if k > 0 {
      PositionsFlat(ids, sizes, p, k - 1);
      PlaceCardShape(PlaceUpTo(ids, sizes, p, k - 1), ids, k - 1, sizes, p);
    }
  }

  /** Placing one card adds one rectangle and gives exactly that card a new position, with z = 0. */
  lemma PlaceCardShape(st: Placement, ids: seq<string>, k: nat, sizes: map<string, Size>, p: Params)
    requires k < |ids| && ids[k] in sizes && ValidParams(p)
    ensures var st' := PlaceCard(st, ids, k, sizes, p);
      && |st'.placed| == |st.placed| + 1
      && st'.positions.Keys == st.positions.Keys + {ids[k]}
      && st'.positions[ids[k]].z == 0.0
      && forall id :: id in st.positions && id != ids[k] ==> st'.positions[id] == st.positions[id]
  {
  }

  /** Every card that is not 0 by 0 gets a position with z = 0, and no other id does. */
  lemma AutoArrangePlacesEveryMeasuredCard(order: seq<string>, sizes: map<string, Size>, viewW: real, eps: real)
    requires forall id :: id in order ==> id in sizes
    requires NonNegativeSizes(sizes)
    ensures var positions := AutoArrangeResult(order, sizes, viewW, eps).0;
      && (forall id :: id in positions <==> id in order && !ZeroSize(sizes[id]))
      && (forall id :: id in positions ==> positions[id].z == 0.0)
  {
    var ids := SortedValidIds(order, sizes);
    var positions := AutoArrangeResult(order, sizes, viewW, eps).0;
    if |ids| > 0 {
      var p := ParamsFor(ids, sizes, viewW, eps);
      assert positions == PlaceUpTo(ids, sizes, p, |ids|).positions;
      PlaceUpToShape(ids, sizes, p, |ids|);
      assert ids[..|ids|] == ids;
      forall id ensures id in positions <==> id in order && !ZeroSize(sizes[id]) {
        assert id in positions <==> id in ids;
      }
    } else {
      assert positions == map[];
    }
  }

  /** Every card is either laid out or counted as 0 by 0. */
  lemma {:induction false} ZeroCountAccounts(order: seq<string>, sizes: map<string, Size>)
    requires forall id :: id in order ==> id in sizes
    ensures ZeroCount(order, sizes) + |ValidIds(order, sizes)| == |order|
  {
    if |order| > 0 {
      ZeroCountAccounts(order[..|order| - 1], sizes);
    }
  }

  predicate Distinct(s: seq<string>) {
    forall i, j :: 0 <= i < j < |s| ==> s[i] != s[j]
  }

  lemma {:induction false} DistinctMultiset(s: seq<string>, x: string)
    requires Distinct(s)
    ensures multiset(s)[x] == if x in s then 1 else 0
  {
    if |s| > 0 {
      var init := s[..|s| - 1];
      assert s == init + [s[|s| - 1]];
      assert Distinct(init);
      DistinctMultiset(init, x);
      assert s[|s| - 1] !in init;
    }
  }

  lemma {:induction false} ValidIdsMultiset(order: seq<string>, sizes: map<string, Size>, x: string)
    requires forall id :: id in order ==> id in sizes
    ensures multiset(ValidIds(order, sizes))[x] == if x in sizes && !ZeroSize(sizes[x]) then multiset(order)[x] else 0
  {
    if |order| > 0 {
      var init := order[..|order| - 1];
      assert order == init + [order[|order| - 1]];
      ValidIdsMultiset(init, sizes, x);
    }
  }

  lemma SameKeysSameValidIds(o1: seq<string>, o2: seq<string>, sizes: map<string, Size>)
    requires KeyOrder(o1, sizes) && KeyOrder(o2, sizes)
    ensures multiset(ValidIds(o1, sizes)) == multiset(ValidIds(o2, sizes))
    ensures |o1| == |o2|
  {
    forall x ensures multiset(o1)[x] == multiset(o2)[x] {
      DistinctMultiset(o1, x);
      DistinctMultiset(o2, x);
    }
    assert multiset(o1) == multiset(o2);
    assert |o1| == |multiset(o1)| == |multiset(o2)| == |o2|;
    forall x ensures multiset(ValidIds(o1, sizes))[x] == multiset(ValidIds(o2, sizes))[x] {
      ValidIdsMultiset(o1, sizes, x);
      ValidIdsMultiset(o2, sizes, x);
    }
  }

  /** The layout depends only on the sizes, not on the order the Map was filled
    * in: the ids are sorted before placement. */
  lemma AutoArrangeOrderIndependent(o1: seq<string>, o2: seq<string>, sizes: map<string, Size>, viewW: real, eps: real)
    requires KeyOrder(o1, sizes) && KeyOrder(o2, sizes)
    requires NonNegativeSizes(sizes)
    ensures AutoArrangeResult(o1, sizes, viewW, eps) == AutoArrangeResult(o2, sizes, viewW, eps)
  {
    SameKeysSameInputs(o1, o2, sizes);
  }

  lemma SameKeysSameInputs(o1: seq<string>, o2: seq<string>, sizes: map<string, Size>)
    requires KeyOrder(o1, sizes) && KeyOrder(o2, sizes)
    ensures SortedValidIds(o1, sizes) == SortedValidIds(o2, sizes)
    ensures ZeroCount(o1, sizes) == ZeroCount(o2, sizes)
  {
    var v1, v2 := ValidIds(o1, sizes), ValidIds(o2, sizes);
    SameKeysSameValidIds(o1, o2, sizes);
    SortedUnique(SortedValidIds(o1, sizes), SortedValidIds(o2, sizes));
    assert |v1| == |multiset(v1)| == |multiset(v2)| == |v2|;
    ZeroCountAccounts(o1, sizes);
    ZeroCountAccounts(o2, sizes);
  }

  /** A candidate the nudging accepts before its 50 attempts run out overlaps no
    * placed card: the hash finds every true overlap. */
  lemma {:induction false} NudgedCandidateIsClear(cand: Rect, attempts: nat, staggerX: real, placed: seq<Rect>, p: Params)
    requires ValidParams(p) && attempts <= MaxNudges && p.eps >= 0.0
    ensures var r := Nudge(cand, attempts, staggerX, placed, p);
      r.1 < MaxNudges ==> forall q :: q in placed ==> !AabbOverlap(r.0, q, 0.0)
    decreases MaxNudges - attempts
  {
    if attempts < MaxNudges {
      if Collides(placed, cand, p) {
        NudgedCandidateIsClear(NudgeStep(cand, staggerX, p), attempts + 1, staggerX, placed, p);
      } else {
        forall q | q in placed ensures !AabbOverlap(cand, q, 0.0) {
          if AabbOverlap(cand, q, 0.0) {
            OverlapSymmetric(cand, q, 0.0);
            OverlapSharesCell(q, cand, p.cellSize);
            OverlapMonotoneInEpsilon(cand, q, 0.0, p.eps);
            assert false;
          }
        }
      }
    }
  }

  /** Card k lands at its rectangle with z = 0, and that rectangle is either its
    * fallback grid slot or clear of every card placed before it. */
  lemma PlacedCardOutcome(ids: seq<string>, sizes: map<string, Size>, p: Params, k: nat)
    requires k < |ids| && ValidParams(p) && p.eps >= 0.0
    requires forall i :: 0 <= i < |ids| ==> ids[i] in sizes
    ensures var before, after := PlaceUpTo(ids, sizes, p, k), PlaceUpTo(ids, sizes, p, k + 1);
      var size := sizes[ids[k]];
      && |after.placed| == k + 1
      && after.placed[..k] == before.placed
      && ids[k] in after.positions
      && after.positions[ids[k]] == Position3D(after.placed[k].x, after.placed[k].y, 0.0)
      && (|| after.placed[k] == GridSlot(IndexOf(ids, ids[k]), p.cols, size.w, size.h)
          || forall q :: q in before.placed ==> !AabbOverlap(after.placed[k], q, 0.0))
  {
    var before := PlaceUpTo(ids, sizes, p, k);
    var size := sizes[ids[k]];
    var cur := RowStart(before.cur, size.w, p);
    var staggerX := Stagger(cur.rowIndex);
    var nudged := Nudge(Rect(cur.x + staggerX, cur.y, size.w, size.h), 0, staggerX, before.placed, p);
    var rect := if nudged.1 >= MaxNudges then GridSlot(IndexOf(ids, ids[k]), p.cols, size.w, size.h) else nudged.0;
    PlaceCardUnfold(before, ids, k, sizes, p, cur, staggerX, nudged, rect);
    NudgedCandidateIsClear(Rect(cur.x + staggerX, cur.y, size.w, size.h), 0, staggerX, before.placed, p);
    var after := PlaceUpTo(ids, sizes, p, k + 1);
    assert after == PlaceCard(before, ids, k, sizes, p);
    assert after.placed == before.placed + [rect];
    PlaceUpToShape(ids, sizes, p, k);
    assert after.placed[..k] == before.placed;
  }
}
