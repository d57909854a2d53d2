/**
 * The framework-free grid arrangement of the tunnel view: card i goes to
 * column i mod cols and row i div cols of a square-ish grid, and a separate
 * counter reports how many pairs of equally sized cards overlap.
 */
module TunnelArrange {
  import opened Wrappers
  import opened TunnelLayout

  /** The optional settings of `arrangeGridNonOverlap`; None is an absent or null field. */
  datatype GridOptions = GridOptions(gapX: Option<real>, gapY: Option<real>, offsetX: Option<real>, offsetY: Option<real>)

  const DefaultGapX: real := 280.0
  const DefaultGapY: real := 320.0
  const DefaultOffset: real := 80.0
  const DefaultCardSize: Size := Size(240.0, 320.0)

  /** The grid after `??` has filled in the defaults. */
  datatype Grid = Grid(gapX: real, gapY: real, offsetX: real, offsetY: real, cols: nat)

  /** `cols = max(ceil(sqrt(cardIds.length || 1)), 1)`; an empty list counts as one card. */
  function GridOf(n: nat, opts: GridOptions): (g: Grid)
    ensures g.cols >= 1
    ensures g.cols * g.cols >= n
    ensures n <= 1 ==> g.cols == 1
  {
    Grid(opts.gapX.GetOr(DefaultGapX), opts.gapY.GetOr(DefaultGapY),
         opts.offsetX.GetOr(DefaultOffset), opts.offsetY.GetOr(DefaultOffset),
         GridCols(if n == 0 then 1 else n))
  }

  /** The position of the i-th card. */
  function Slot(g: Grid, i: nat): Position3D
    requires g.cols >= 1
  {
    Position3D(g.offsetX + (i % g.cols) as real * g.gapX, g.offsetY + (i / g.cols) as real * g.gapY, 0.0)
  }

  /** The positions after the first k cards have been placed; a repeated id is
    * overwritten by its later occurrence. */
  function GridUpTo(ids: seq<string>, g: Grid, k: nat): map<string, Position3D>
    requires g.cols >= 1 && k <= |ids|
  {
    if k == 0 then map[] else GridUpTo(ids, g, k - 1)[ids[k - 1] := Slot(g, k - 1)]
  }

  /** What `arrangeGridNonOverlap` returns. */
  function ArrangeGrid(ids: seq<string>, opts: GridOptions): map<string, Position3D> {
    GridUpTo(ids, GridOf(|ids|, opts), |ids|)
  }

  /** `arrangeGridNonOverlap`. */
  method ArrangeGridNonOverlap(cardIds: seq<string>, opts: GridOptions) returns (positions: map<string, Position3D>)
    ensures positions == ArrangeGrid(cardIds, opts)
  {
    var g := GridOf(|cardIds|, opts);
    positions := map[];
    var i: nat := 0;
    while i < |cardIds|
      invariant i <= |cardIds|
      invariant positions == GridUpTo(cardIds, g, i)
    {
      var col := i % g.cols;
      var row := i / g.cols;
      var pos := Position3D(g.offsetX + col as real * g.gapX, g.offsetY + row as real * g.gapY, 0.0);
      assert pos.x == Slot(g, i).x && pos.y == Slot(g, i).y;
      positions := positions[cardIds[i] := pos];
      i := i + 1;
    }
  }

  /** The keys placed so far are exactly the ids seen so far. */
  lemma {:induction false} GridUpToKeys(ids: seq<string>, g: Grid, k: nat)
    requires g.cols >= 1 && k <= |ids|
    ensures forall id :: id in GridUpTo(ids, g, k) <==> id in ids[..k]
  {
    if k > 0 {
      GridUpToKeys(ids, g, k - 1);
      assert ids[..k] == ids[..k - 1] + [ids[k - 1]];
    }
  }

  /** Every placed id sits at the slot of one of its occurrences. */
  lemma {:induction false} GridUpToEntry(ids: seq<string>, g: Grid, k: nat, id: string) returns (i: nat)
    requires g.cols >= 1 && k <= |ids|
    requires id in GridUpTo(ids, g, k)
    ensures i < k && ids[i] == id && GridUpTo(ids, g, k)[id] == Slot(g, i)
  {
    if ids[k - 1] == id {
      i := k - 1;
    } else {
      i := GridUpToEntry(ids, g, k - 1, id);
    }
  }

  /** An id that does not occur again later keeps the slot of its position. */
  lemma {:induction false} GridUpToLast(ids: seq<string>, g: Grid, k: nat, i: nat)
    requires g.cols >= 1 && i < k <= |ids|
    requires forall j :: i < j < k ==> ids[j] != ids[i]
    ensures ids[i] in GridUpTo(ids, g, k) && GridUpTo(ids, g, k)[ids[i]] == Slot(g, i)
  {
    if i < k - 1 {
      GridUpToLast(ids, g, k - 1, i);
    }
  }

  /** Every id gets a position, with z = 0, and nothing else does. */
  lemma ArrangeGridKeys(ids: seq<string>, opts: GridOptions)
    ensures forall id :: id in ArrangeGrid(ids, opts) <==> id in ids
    ensures forall id :: id in ArrangeGrid(ids, opts) ==> ArrangeGrid(ids, opts)[id].z == 0.0
  {
    var g := GridOf(|ids|, opts);
    GridUpToKeys(ids, g, |ids|);
    assert ids[..|ids|] == ids;
    forall id | id in ArrangeGrid(ids, opts) ensures ArrangeGrid(ids, opts)[id].z == 0.0 {
      var i := GridUpToEntry(ids, g, |ids|, id);
    }
  }

  /** Card i sits in column i mod cols and row i div cols (for an id that is not
    * repeated later in the list). */
  lemma ArrangeGridSlot(ids: seq<string>, opts: GridOptions, i: nat)
    requires i < |ids|
    requires forall j :: i < j < |ids| ==> ids[j] != ids[i]
    ensures ids[i] in ArrangeGrid(ids, opts)
    ensures var g := GridOf(|ids|, opts);
      ArrangeGrid(ids, opts)[ids[i]] ==
        Position3D(g.offsetX + (i % g.cols) as real * g.gapX, g.offsetY + (i / g.cols) as real * g.gapY, 0.0)
  {
    GridUpToLast(ids, GridOf(|ids|, opts), |ids|, i);
  }

  // ---------------------------------------------------------------------------
  // Overlap counting
  // ---------------------------------------------------------------------------

  /** The rectangles of the cards, all of the same size, in key order. */
  function RectsOf(order: seq<string>, positions: map<string, Position3D>, size: Size): (rs: seq<Rect>)
    requires forall id :: id in order ==> id in positions
    ensures |rs| == |order|
    ensures forall i :: 0 <= i < |rs| ==> rs[i] == Rect(positions[order[i]].x, positions[order[i]].y, size.w, size.h)
  {
    if |order| == 0 then []
    else [Rect(positions[order[0]].x, positions[order[0]].y, size.w, size.h)] + RectsOf(order[1..], positions, size)
  }

  /** `countOverlapPairs` of the grid helpers: every pair of keys i < j is checked
    * once, without epsilon, with one size for every card (240 by 320 unless given). */
  method CountOverlapPairs(order: seq<string>, positions: map<string, Position3D>, size: Option<Size>) returns (pairs: nat)
    requires KeyOrder(order, positions)
    ensures pairs == PairCount(RectsOf(order, positions, size.GetOr(DefaultCardSize)), 0.0)
  {
    var sz := size.GetOr(DefaultCardSize);
    ghost var rs := RectsOf(order, positions, sz);
    pairs := 0;
    var i := 0;
    while i < |order|
      invariant i <= |order|
      invariant pairs + PairCount(rs[i..], 0.0) == PairCount(rs, 0.0)
    {
      assert rs[i..][1..] == rs[i + 1..];
      var found := CountHitsAfter(order, positions, sz, i);
      pairs := pairs + found;
      i := i + 1;
    }
  }

  /** The inner loop of `countOverlapPairs`: how many later keys overlap key i. */
  method CountHitsAfter(order: seq<string>, positions: map<string, Position3D>, sz: Size, i: nat) returns (found: nat)
    requires forall id :: id in order ==> id in positions
    requires i < |order|
    ensures var rs := RectsOf(order, positions, sz); found == OverlapsWith(rs[i], rs[i + 1..], 0.0)
  {
    ghost var rs := RectsOf(order, positions, sz);
    var a := positions[order[i]];
    assert rs[i] == Rect(a.x, a.y, sz.w, sz.h);
    var j := i + 1;
    found := 0;
    while j < |order|
      invariant i + 1 <= j <= |order|
      invariant found + OverlapsWith(rs[i], rs[j..], 0.0) == OverlapsWith(rs[i], rs[i + 1..], 0.0)
    {
      assert rs[j..][1..] == rs[j + 1..];
      var b := positions[order[j]];
      assert rs[j] == Rect(b.x, b.y, sz.w, sz.h);
      var hit := a.x < b.x + sz.w && a.x + sz.w > b.x && a.y < b.y + sz.h && a.y + sz.h > b.y;
      if hit {
        found := found + 1;
      }
      j := j + 1;
    }
  }

  /** Two cells k >= 1 steps apart along an axis are at least one gap apart. */
  lemma CellsApart(lo: int, hi: int, gap: real, offset: real, p: real, q: real)
    requires lo < hi && gap >= 0.0
    requires p == offset + lo as real * gap && q == offset + hi as real * gap
    ensures q - p >= gap
  {
    assert q - p == (hi - lo) as real * gap;
  }

  /** Different card indices fall in different cells. */
  lemma DifferentCells(i: nat, j: nat, cols: nat)
    requires cols >= 1 && i != j
    ensures i % cols != j % cols || i / cols != j / cols
  {
    assert i == (i / cols) * cols + i % cols && j == (j / cols) * cols + j % cols;
  }

  /** Cards in two different cells of a grid whose gaps are at least the card
    * size do not overlap. */
  lemma CellsDisjoint(g: Grid, ci: int, ri: int, cj: int, rj: int, size: Size)
    requires ci != cj || ri != rj
    requires 0.0 <= size.w <= g.gapX && 0.0 <= size.h <= g.gapY
    ensures !AabbOverlap(Rect(g.offsetX + ci as real * g.gapX, g.offsetY + ri as real * g.gapY, size.w, size.h),
                         Rect(g.offsetX + cj as real * g.gapX, g.offsetY + rj as real * g.gapY, size.w, size.h), 0.0)
  {
    var a := Rect(g.offsetX + ci as real * g.gapX, g.offsetY + ri as real * g.gapY, size.w, size.h);
    var b := Rect(g.offsetX + cj as real * g.gapX, g.offsetY + rj as real * g.gapY, size.w, size.h);
    if ci < cj {
      CellsApart(ci, cj, g.gapX, g.offsetX, a.x, b.x);
    } else if cj < ci {
      CellsApart(cj, ci, g.gapX, g.offsetX, b.x, a.x);
    } else if ri < rj {
      CellsApart(ri, rj, g.gapY, g.offsetY, a.y, b.y);
    } else {
      CellsApart(rj, ri, g.gapY, g.offsetY, b.y, a.y);
    }
    SeparatedDoNotOverlap(a, b, 0.0);
  }

  /** Two different slots of a grid whose gaps are at least the card size do not
    * overlap. */
  lemma SlotsDisjoint(g: Grid, i: nat, j: nat, size: Size)
    requires g.cols >= 1 && i != j
    requires 0.0 <= size.w <= g.gapX && 0.0 <= size.h <= g.gapY
    ensures var a, b := Slot(g, i), Slot(g, j);
      !AabbOverlap(Rect(a.x, a.y, size.w, size.h), Rect(b.x, b.y, size.w, size.h), 0.0)
  {
    DifferentCells(i, j, g.cols);
    CellsDisjoint(g, i % g.cols, i / g.cols, j % g.cols, j / g.cols, size);
  }

  /** With gaps at least the card size (as the defaults 280 by 320 are for cards of
    * 240 by 320), no two cards of the arrangement overlap, whatever order the keys
    * are enumerated in. */
  lemma ArrangedGridHasNoOverlaps(ids: seq<string>, opts: GridOptions, order: seq<string>, size: Option<Size>)
    requires var g, s := GridOf(|ids|, opts), size.GetOr(DefaultCardSize);
      0.0 <= s.w <= g.gapX && 0.0 <= s.h <= g.gapY
    requires KeyOrder(order, ArrangeGrid(ids, opts))
    ensures PairCount(RectsOf(order, ArrangeGrid(ids, opts), size.GetOr(DefaultCardSize)), 0.0) == 0
  {
    var g, s := GridOf(|ids|, opts), size.GetOr(DefaultCardSize);
    var positions := ArrangeGrid(ids, opts);
    var rs := RectsOf(order, positions, s);
    forall p, q | 0 <= p < q < |rs| ensures !AabbOverlap(rs[p], rs[q], 0.0) {
      var ip := GridUpToEntry(ids, g, |ids|, order[p]);
      var iq := GridUpToEntry(ids, g, |ids|, order[q]);
      SlotsDisjoint(g, ip, iq, s);
    }
    PairCountZeroIff(rs, 0.0);
  }

  /** The default arrangement has no overlapping pair under the default card size. */
  lemma DefaultGridHasNoOverlaps(ids: seq<string>, order: seq<string>)
    requires KeyOrder(order, ArrangeGrid(ids, GridOptions(None, None, None, None)))
    ensures PairCount(RectsOf(order, ArrangeGrid(ids, GridOptions(None, None, None, None)), DefaultCardSize), 0.0) == 0
  {
    ArrangedGridHasNoOverlaps(ids, GridOptions(None, None, None, None), order, None);
  }
}
