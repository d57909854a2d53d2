/**
 * Geometry of the tunnel view: the camera conversions between screen and world
 * coordinates, the epsilon-padded axis-aligned overlap test, and the count of
 * overlapping card pairs. Coordinates are reals; the browser's device pixel
 * ratio is a parameter.
 */
module TunnelLayout {
  import opened Wrappers

  const CardDefaultW: real := 240.0
  const CardDefaultH: real := 280.0
  const Gap: real := 40.0

  datatype Rect = Rect(x: real, y: real, w: real, h: real)
  datatype Size = Size(w: real, h: real)
  datatype Position3D = Position3D(x: real, y: real, z: real)
  datatype Point = Point(x: real, y: real)

  /** Pan offset and zoom factor: screen = world * zoom + pan. */
  datatype Camera2D = Camera2D(x: real, y: real, zoom: real)

  // ---------------------------------------------------------------------------
  // Coordinate conversion
  // ---------------------------------------------------------------------------

  /** `worldToScreen`. */
  function WorldToScreen(wx: real, wy: real, cam: Camera2D): (p: Point)
    ensures cam.zoom == 1.0 ==> p == Point(wx + cam.x, wy + cam.y)
  {
    Point(wx * cam.zoom + cam.x, wy * cam.zoom + cam.y)
  }

  /** `screenToWorld`; a zero zoom, where JavaScript divides by zero, gives None. */
  function ScreenToWorld(sx: real, sy: real, cam: Camera2D): (p: Option<Point>)
    ensures p.Some? <==> cam.zoom != 0.0
    ensures p.Some? ==> p.value.x * cam.zoom + cam.x == sx && p.value.y * cam.zoom + cam.y == sy
  {
    if cam.zoom == 0.0 then None
    else Some(Point((sx - cam.x) / cam.zoom, (sy - cam.y) / cam.zoom))
  }

  /** A screen point converted to the world and back is the same point. */
  lemma ScreenWorldRoundTrip(sx: real, sy: real, cam: Camera2D)
    requires cam.zoom != 0.0
    ensures var w := ScreenToWorld(sx, sy, cam).value; WorldToScreen(w.x, w.y, cam) == Point(sx, sy)
  {
  }

  /** A world point converted to the screen and back is the same point. */
  lemma WorldScreenRoundTrip(wx: real, wy: real, cam: Camera2D)
    requires cam.zoom != 0.0
    ensures var s := WorldToScreen(wx, wy, cam); ScreenToWorld(s.x, s.y, cam) == Some(Point(wx, wy))
  {
    var s := WorldToScreen(wx, wy, cam);
    assert (s.x - cam.x) / cam.zoom == wx by {
      assert s.x - cam.x == wx * cam.zoom;
    }
    assert (s.y - cam.y) / cam.zoom == wy by {
      assert s.y - cam.y == wy * cam.zoom;
    }
  }

  /** `getEpsilon`: `max(1, 0.5 / devicePixelRatio)`, with a ratio of 1 outside a browser. */
  function GetEpsilon(devicePixelRatio: Option<real>): (eps: real)
    requires devicePixelRatio.Some? ==> devicePixelRatio.value > 0.0
    ensures eps >= 1.0
    ensures eps == 1.0 <==> devicePixelRatio.None? || devicePixelRatio.value >= 0.5
  {
    var dpr := devicePixelRatio.GetOr(1.0);
    var e := 0.5 / dpr;
    assert e > 1.0 <==> dpr < 0.5 by {
      assert e * dpr == 0.5;
    }
    if e > 1.0 then e else 1.0
  }

  // ---------------------------------------------------------------------------
  // Overlap
  // ---------------------------------------------------------------------------

  /** `aabbOverlap`: the rectangles, each widened by `eps` on its right and bottom
    * edge, intersect in their interiors. */
  predicate AabbOverlap(a: Rect, b: Rect, eps: real) {
    && a.x < b.x + b.w + eps
    && a.x + a.w + eps > b.x
    && a.y < b.y + b.h + eps
    && a.y + a.h + eps > b.y
  }

  /** The test does not depend on the order of its arguments. */
  lemma OverlapSymmetric(a: Rect, b: Rect, eps: real)
    ensures AabbOverlap(a, b, eps) <==> AabbOverlap(b, a, eps)
  {
  }

  /** With no epsilon, rectangles that only touch along an edge do not overlap. */
  lemma TouchingDoNotOverlap(a: Rect, b: Rect)
    requires a.x + a.w == b.x || b.x + b.w == a.x || a.y + a.h == b.y || b.y + b.h == a.y
    ensures !AabbOverlap(a, b, 0.0)
  {
  }

  /** Raising epsilon can only add overlaps. */
  lemma OverlapMonotoneInEpsilon(a: Rect, b: Rect, e1: real, e2: real)
    requires e1 <= e2
    requires AabbOverlap(a, b, e1)
    ensures AabbOverlap(a, b, e2)
  {
  }

  /** Rectangles further apart than epsilon, horizontally or vertically, do not overlap. */
  lemma SeparatedDoNotOverlap(a: Rect, b: Rect, eps: real)
    requires a.x + a.w + eps <= b.x || b.x + b.w + eps <= a.x || a.y + a.h + eps <= b.y || b.y + b.h + eps <= a.y
    ensures !AabbOverlap(a, b, eps)
  {
  }

  // ---------------------------------------------------------------------------
  // Overlap counting
  // ---------------------------------------------------------------------------

  /** `order` enumerates the keys of `m` once each, as `Object.entries` does. */
  predicate KeyOrder<V>(order: seq<string>, m: map<string, V>) {
    && (forall i, j :: 0 <= i < j < |order| ==> order[i] != order[j])
    && (forall k :: k in m ==> k in order)
    && (forall k :: k in order ==> k in m)
  }

  /** A size that excludes a card from layout: missing, or 0 by 0. */
  predicate Skipped(size: Option<Size>) {
    size.None? || (size.value.w == 0.0 && size.value.h == 0.0)
  }

  function SizeOf(sizes: map<string, Size>, id: string): Option<Size> {
    if id in sizes then Some(sizes[id]) else None
  }

  /** The rectangles `countOverlapPairs` builds, in enumeration order. */
  function Collect(order: seq<string>, positions: map<string, Position3D>, sizes: map<string, Size>): (rs: seq<Rect>)
    requires forall id :: id in order ==> id in positions
    ensures forall i :: 0 <= i < |rs| ==> rs[i].w != 0.0 || rs[i].h != 0.0
  {
    if |order| == 0 then []
    else
      var id := order[|order| - 1];
      var rest := Collect(order[..|order| - 1], positions, sizes);
      if Skipped(SizeOf(sizes, id)) then rest
      else rest + [Rect(positions[id].x, positions[id].y, sizes[id].w, sizes[id].h)]
  }

  /** How many ids `countOverlapPairs` skips. */
  function SkippedCount(order: seq<string>, sizes: map<string, Size>): nat {
    if |order| == 0 then 0
    else SkippedCount(order[..|order| - 1], sizes) + if Skipped(SizeOf(sizes, order[|order| - 1])) then 1 else 0
  }

  /** Every id is either measured into a rectangle or counted as skipped. */
  lemma {:induction false} CollectAccountsForEveryId(order: seq<string>, positions: map<string, Position3D>, sizes: map<string, Size>)
    requires forall id :: id in order ==> id in positions
    ensures |Collect(order, positions, sizes)| + SkippedCount(order, sizes) == |order|
  {
    if |order| > 0 {
      CollectAccountsForEveryId(order[..|order| - 1], positions, sizes);
    }
  }

  /** How many rectangles of `rest` overlap `r`. */
  function OverlapsWith(r: Rect, rest: seq<Rect>, eps: real): nat {
    if |rest| == 0 then 0
    else (if AabbOverlap(r, rest[0], eps) then 1 else 0) + OverlapsWith(r, rest[1..], eps)
  }

  /** The number of index pairs i < j whose rectangles overlap. */
  function PairCount(rs: seq<Rect>, eps: real): nat {
    if |rs| == 0 then 0 else OverlapsWith(rs[0], rs[1..], eps) + PairCount(rs[1..], eps)
  }

  predicate NoOverlapWith(r: Rect, rest: seq<Rect>, eps: real) {
    forall j :: 0 <= j < |rest| ==> !AabbOverlap(r, rest[j], eps)
  }

  predicate PairwiseDisjoint(rs: seq<Rect>, eps: real) {
    forall i, j :: 0 <= i < j < |rs| ==> !AabbOverlap(rs[i], rs[j], eps)
  }

  lemma {:induction false} OverlapsWithZero(r: Rect, rest: seq<Rect>, eps: real)
    ensures OverlapsWith(r, rest, eps) == 0 <==> NoOverlapWith(r, rest, eps)
    decreases |rest|
  {
    if |rest| > 0 {
      OverlapsWithZero(r, rest[1..], eps);
      if NoOverlapWith(r, rest[1..], eps) && !AabbOverlap(r, rest[0], eps) {
        forall j | 0 <= j < |rest| ensures !AabbOverlap(r, rest[j], eps) {
          if j > 0 { assert rest[j] == rest[1..][j - 1]; }
        }
      }
      if NoOverlapWith(r, rest, eps) {
        forall j | 0 <= j < |rest| - 1 ensures !AabbOverlap(r, rest[1..][j], eps) {
          assert rest[1..][j] == rest[j + 1];
        }
      }
    }
  }

  /** No pair is counted exactly when no two rectangles overlap. */
  lemma {:induction false} PairCountZeroIff(rs: seq<Rect>, eps: real)
    ensures PairCount(rs, eps) == 0 <==> PairwiseDisjoint(rs, eps)
    decreases |rs|
  {
    if |rs| > 0 {
      PairCountZeroIff(rs[1..], eps);
      OverlapsWithZero(rs[0], rs[1..], eps);
      if PairwiseDisjoint(rs, eps) {
        forall j | 0 <= j < |rs| - 1 ensures !AabbOverlap(rs[0], rs[1..][j], eps) {
          assert rs[1..][j] == rs[j + 1];
        }
        forall i, j | 0 <= i < j < |rs| - 1 ensures !AabbOverlap(rs[1..][i], rs[1..][j], eps) {
          assert rs[1..][i] == rs[i + 1] && rs[1..][j] == rs[j + 1];
        }
      }
      if PairCount(rs, eps) == 0 {
        forall i, j | 0 <= i < j < |rs| ensures !AabbOverlap(rs[i], rs[j], eps) {
          if i == 0 {
            assert rs[j] == rs[1..][j - 1];
          } else {
            assert rs[i] == rs[1..][i - 1] && rs[j] == rs[1..][j - 1];
          }
        }
      }
    }
  }

  lemma {:induction false} OverlapsWithBound(r: Rect, rest: seq<Rect>, eps: real)
    ensures OverlapsWith(r, rest, eps) <= |rest|
    decreases |rest|
  {
    if |rest| > 0 { OverlapsWithBound(r, rest[1..], eps); }
  }

  /** At most every one of the n(n-1)/2 pairs overlaps. */
  lemma {:induction false} PairCountBound(rs: seq<Rect>, eps: real)
    ensures 2 * PairCount(rs, eps) <= |rs| * (|rs| - 1)
    decreases |rs|
  {
    if |rs| > 0 {
      var m := |rs| - 1;
      PairCountBound(rs[1..], eps);
      OverlapsWithBound(rs[0], rs[1..], eps);
      assert PairCount(rs, eps) == OverlapsWith(rs[0], rs[1..], eps) + PairCount(rs[1..], eps);
      assert m * (m - 1) + 2 * m == (m + 1) * m;
    }
  }

  /** `countOverlapPairs`: build the rectangles of the measured cards, then test
    * every pair i < j once. */
  method CountOverlapPairs(order: seq<string>, positions: map<string, Position3D>, sizes: map<string, Size>, eps: real)
    returns (overlapPairs: nat, zeroSizeCount: nat)
    requires KeyOrder(order, positions)
    ensures overlapPairs == PairCount(Collect(order, positions, sizes), eps)
    ensures zeroSizeCount == SkippedCount(order, sizes)
  {
    var rects: seq<Rect> := [];
    zeroSizeCount := 0;
    var k := 0;
    while k < |order|
      invariant k <= |order|
      invariant rects == Collect(order[..k], positions, sizes)
      invariant zeroSizeCount == SkippedCount(order[..k], sizes)
    {
      assert order[..k + 1][..k] == order[..k];
      var id := order[k];
      var size := SizeOf(sizes, id);
      if Skipped(size) {
        zeroSizeCount := zeroSizeCount + 1;
      } else {
        rects := rects + [Rect(positions[id].x, positions[id].y, size.value.w, size.value.h)];
      }
      k := k + 1;
    }
    assert order[..k] == order;
    overlapPairs := CountPairs(rects, eps);
  }

  /** The nested loops of `countOverlapPairs` over the collected rectangles. */
  method CountPairs(rects: seq<Rect>, eps: real) returns (overlapPairs: nat)
    ensures overlapPairs == PairCount(rects, eps)
  {
    overlapPairs := 0;
    var i := 0;
    while i < |rects|
      invariant i <= |rects|
      invariant overlapPairs + PairCount(rects[i..], eps) == PairCount(rects, eps)
    {
      assert rects[i..][1..] == rects[i + 1..];
      var j := i + 1;
      var found := 0;
      while j < |rects|
        invariant i + 1 <= j <= |rects|
        invariant found + OverlapsWith(rects[i], rects[j..], eps) == OverlapsWith(rects[i], rects[i + 1..], eps)
      {
        assert rects[j..][1..] == rects[j + 1..];
        if AabbOverlap(rects[i], rects[j], eps) {
          found := found + 1;
        }
        j := j + 1;
      }
      overlapPairs := overlapPairs + found;
      i := i + 1;
    }
  }

  // ---------------------------------------------------------------------------
  // Grid column count
  // ---------------------------------------------------------------------------

  /** `Math.ceil(Math.sqrt(n))` for a whole number n: the least k with k * k >= n. */
  function CeilSqrt(n: nat): (k: nat)
    ensures k * k >= n
    ensures k > 0 ==> (k - 1) * (k - 1) < n
  {
    CeilSqrtFrom(n, 0)
  }

  function CeilSqrtFrom(n: nat, k: nat): (r: nat)
    requires k == 0 || (k - 1) * (k - 1) < n
    ensures r * r >= n
    ensures r > 0 ==> (r - 1) * (r - 1) < n
    decreases n - k
  {
    if k * k >= n then k
    else
      assert k <= k * k;
      CeilSqrtFrom(n, k + 1)
  }

  /** The square root is exact on squares. */
  lemma CeilSqrtOfSquare(k: nat)
    ensures CeilSqrt(k * k) == k
  {
    var r := CeilSqrt(k * k);
    if r < k {
      assert r * r < k * k by { MulStrict(r, k); }
    } else if r > k {
      assert k * k <= (r - 1) * (r - 1) by { MulMono(k, r - 1); }
    }
  }

  lemma MulStrict(a: nat, b: nat)
    requires a < b
    ensures a * a < b * b
  {
  }

  lemma MulMono(a: nat, b: nat)
    requires a <= b
    ensures a * a <= b * b
  {
  }

  /** `Math.max(Math.ceil(Math.sqrt(n)), 1)`: enough columns that cols * cols >= n. */
  function GridCols(n: nat): (cols: nat)
    ensures cols >= 1 && cols * cols >= n
  {
    var c := CeilSqrt(n);
    if c > 1 then c else 1
  }
}
