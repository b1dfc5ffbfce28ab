/**
 * `findClearSpace` of the showcase plug-in (auto-exec/code.js): where to put a
 * new `width × height` frame on the canvas, given the boxes already there.
 *
 * The obstacle list, which the plug-in collects from the visible children of
 * the current page, is an explicit input here. Four strategies are tried in a
 * fixed order and the first that succeeds wins: the empty canvas, the first
 * usable vertical gap between y-sorted neighbours, above the topmost box, and
 * an unchecked fallback to the right of the box with the largest left edge.
 */
module Placement {
  import opened Geometry
  import StableSort

  /** Clearance kept around a proposed frame. */
  const Padding: real := 100.0
  /** A frame placed above all content must start strictly below this `y`. */
  const Ceiling: real := -3000.0
  /** Both coordinates of the placement on an empty canvas. */
  const Origin: real := 100.0

  datatype Zone = EmptyCanvas | VerticalGap | Above | Right

  /** The `{x, y, zone}` result. */
  datatype Placement = Placement(x: real, y: real, zone: Zone)

  datatype Axis = ByX | ByY

  function Key(r: Rect, axis: Axis): real {
    match axis
    case ByX => r.x
    case ByY => r.y
  }

  /** The sort key of every area, in input order. */
  function Keys(areas: seq<Rect>, axis: Axis): seq<real>
  {
    if areas == [] then [] else [Key(areas[0], axis)] + Keys(areas[1..], axis)
  }

  lemma {:induction false} KeysAt(areas: seq<Rect>, axis: Axis)
    ensures |Keys(areas, axis)| == |areas|
    ensures forall i :: 0 <= i < |areas| ==> Keys(areas, axis)[i] == Key(areas[i], axis)
  {
    if areas != [] {
      KeysAt(areas[1..], axis);
    }
  }

  /** The areas at the positions listed in `o`, in that order; positions outside `areas` are skipped. */
  function Pick(areas: seq<Rect>, o: seq<nat>): seq<Rect>
  {
    if o == [] then []
    else (if o[0] < |areas| then [areas[o[0]]] else []) + Pick(areas, o[1..])
  }

  lemma {:induction false} PickAt(areas: seq<Rect>, o: seq<nat>)
    requires forall k :: 0 <= k < |o| ==> o[k] < |areas|
    ensures |Pick(areas, o)| == |o|
    ensures forall k :: 0 <= k < |o| ==> Pick(areas, o)[k] == areas[o[k]]
  {
    if o != [] {
      PickAt(areas, o[1..]);
    }
  }

  /**
   * `[...occupiedAreas].sort((a, b) => a.x - b.x)` (or by `y`): the areas
   * rearranged by the stable sort permutation of their keys.
   */
  function SortedBy(areas: seq<Rect>, axis: Axis): (s: seq<Rect>)
    ensures |s| == |areas|
  {
    var ks := Keys(areas, axis);
    KeysAt(areas, axis);
    StableSort.SortOrderIsStableSort(ks);
    PickAt(areas, StableSort.SortOrder(ks));
    Pick(areas, StableSort.SortOrder(ks))
  }

  /**
   * The sorted list holds the areas in ascending key order, ties in input
   * order, each input position exactly once.
   */
  lemma SortedByIsStableSort(areas: seq<Rect>, axis: Axis)
    ensures var o := StableSort.SortOrder(Keys(areas, axis));
      && StableSort.IsPermutationOfRange(o, |areas|)
      && (forall k :: 0 <= k < |areas| ==> SortedBy(areas, axis)[k] == areas[o[k]])
      && (forall a, b :: 0 <= a < b < |areas| ==>
            Key(areas[o[a]], axis) < Key(areas[o[b]], axis) ||
            (Key(areas[o[a]], axis) == Key(areas[o[b]], axis) && o[a] < o[b]))
  {
    var ks := Keys(areas, axis);
    KeysAt(areas, axis);
    StableSort.SortOrderIsStableSort(ks);
    var o := StableSort.SortOrder(ks);
    PickAt(areas, o);
    forall a, b | 0 <= a < b < |areas|
      ensures Key(areas[o[a]], axis) < Key(areas[o[b]], axis) ||
              (Key(areas[o[a]], axis) == Key(areas[o[b]], axis) && o[a] < o[b])
    {
      assert StableSort.Precedes(ks, o[a], o[b]);
    }
  }

  /** `occupiedAreas.some(area => checkCollision(proposedBounds, area))`. */
  function HitsAny(p: Rect, areas: seq<Rect>): (r: bool)
    ensures r ==> areas != []
    ensures forall k :: 0 <= k < |areas| && CheckCollision(Some(p), Some(areas[k])) ==> r
    decreases |areas|
  {
    if areas == [] then false
    else
      assert forall k :: 1 <= k < |areas| ==> areas[k] == areas[1..][k - 1];
      CheckCollision(Some(p), Some(areas[0])) || HitsAny(p, areas[1..])
  }

  /** A proposal passes the check exactly when it collides with no area at all. */
  lemma {:induction false} HitsAnyIffSomeCollision(p: Rect, areas: seq<Rect>)
    ensures HitsAny(p, areas) <==> exists k :: 0 <= k < |areas| && CheckCollision(Some(p), Some(areas[k]))
    decreases |areas|
  {
    if areas != [] {
      HitsAnyIffSomeCollision(p, areas[1..]);
      assert forall k :: 1 <= k < |areas| ==> areas[k] == areas[1..][k - 1];
    }
  }

  /** The gap between `current` and `next`, net of padding on both sides, is at least `height` tall. */
  predicate GapFits(current: Rect, next: Rect, height: real) {
    (next.y - Padding) - (current.Bottom() + Padding) >= height
  }

  /** The frame proposed in the gap below `current`: left-aligned, one padding below it. */
  function GapProposal(current: Rect, width: real, height: real): Rect {
    Rect(current.x, current.Bottom() + Padding, width, height)
  }

  /** The gap after position `i` of the y-sorted areas is tall enough and its proposal is clear. */
  predicate GapUsable(ys: seq<Rect>, areas: seq<Rect>, width: real, height: real, i: int)
    requires 0 <= i < |ys| - 1
  {
    GapFits(ys[i], ys[i + 1], height) && !HitsAny(GapProposal(ys[i], width, height), areas)
  }

  /** No gap in the y-sorted areas is usable. */
  predicate NoUsableGap(areas: seq<Rect>, width: real, height: real) {
    var ys := SortedBy(areas, ByY);
    forall i :: 0 <= i < |ys| - 1 ==> !GapUsable(ys, areas, width, height, i)
  }

  /** The frame proposed above `top`: left-aligned, its bottom one padding above it. */
  function AboveProposal(top: Rect, width: real, height: real): Rect {
    Rect(top.x, top.y - height - Padding, width, height)
  }

  /** The proposal above `top` starts below the ceiling and is clear. */
  predicate AboveUsable(top: Rect, areas: seq<Rect>, width: real, height: real) {
    var p := AboveProposal(top, width, height);
    p.y > Ceiling && !HitsAny(p, areas)
  }

  /**
   * Chooses the placement. Every zone other than `Right` is clear of every
   * area; `VerticalGap` is the first usable gap from the top; `Above` is used
   * only when no gap is; `Right` only when neither is.
   */
  method FindClearSpace(areas: seq<Rect>, width: real, height: real) returns (p: Placement)
    ensures areas == [] <==> p.zone == EmptyCanvas
    ensures areas == [] ==> p == Placement(Origin, Origin, EmptyCanvas)
    ensures p.zone != Right ==> !HitsAny(Rect(p.x, p.y, width, height), areas)
    ensures var ys := SortedBy(areas, ByY);
      p.zone == VerticalGap <==> exists i :: 0 <= i < |ys| - 1 && GapUsable(ys, areas, width, height, i)
    ensures var ys := SortedBy(areas, ByY);
      p.zone == VerticalGap ==>
        exists i :: 0 <= i < |ys| - 1 && GapUsable(ys, areas, width, height, i) &&
          (forall j :: 0 <= j < i ==> !GapUsable(ys, areas, width, height, j)) &&
          p.x == ys[i].x && p.y == ys[i].Bottom() + Padding
    ensures var ys := SortedBy(areas, ByY);
      p.zone == Above <==> areas != [] && NoUsableGap(areas, width, height) && AboveUsable(ys[0], areas, width, height)
    ensures var ys := SortedBy(areas, ByY);
      p.zone == Above ==> areas != [] && p.x == ys[0].x && p.y == ys[0].y - height - Padding
    ensures var xs := SortedBy(areas, ByX);
      p.zone == Right ==> areas != [] && p.x == xs[|xs| - 1].Right() + Padding && p.y == xs[|xs| - 1].y
  {
    if |areas| == 0 {
      return Placement(Origin, Origin, EmptyCanvas);
    }
    var proposed := Rect(0.0, 0.0, width, height);
    var xs := SortedBy(areas, ByX);
    var ys := SortedBy(areas, ByY);
    var i := 0;
    while i < |ys| - 1
      invariant 0 <= i <= |ys| - 1
      invariant forall j :: 0 <= j < i ==> !GapUsable(ys, areas, width, height, j)
      invariant proposed.width == width && proposed.height == height
    {
      var current, next := ys[i], ys[i + 1];
      var gapStart := current.Bottom() + Padding;
      var gapEnd := next.y - Padding;
      if gapEnd - gapStart >= height {
        proposed := proposed.(x := current.x, y := gapStart);
        var hasCollision := HitsAny(proposed, areas);
        if !hasCollision {
          assert GapUsable(ys, areas, width, height, i);
          assert !NoUsableGap(areas, width, height);
          return Placement(proposed.x, proposed.y, VerticalGap);
        }
      }
      i := i + 1;
    }
    assert NoUsableGap(areas, width, height);
    var topmost := ys[0];
    proposed := proposed.(y := topmost.y - height - Padding, x := topmost.x);
    if proposed.y > Ceiling {
      var hasCollision := HitsAny(proposed, areas);
      if !hasCollision {
        return Placement(proposed.x, proposed.y, Above);
      }
    }
    var rightmost := xs[|xs| - 1];
    proposed := proposed.(x := rightmost.Right() + Padding, y := rightmost.y);
    return Placement(proposed.x, proposed.y, Right);
  }

  /**
   * The topmost area, the first of the y-sorted list, has the least `y`, and
   * among areas with that `y` it is the earliest in the input.
   */
  lemma TopmostIsEarliestHighest(areas: seq<Rect>)
    requires areas != []
    ensures exists k :: (0 <= k < |areas| && SortedBy(areas, ByY)[0] == areas[k] &&
      (forall j :: 0 <= j < |areas| ==> areas[k].y <= areas[j].y) &&
      (forall j :: 0 <= j < k ==> areas[k].y < areas[j].y))
  {
    var ks := Keys(areas, ByY);
    KeysAt(areas, ByY);
    StableSort.FirstIsEarliestLeast(ks);
    SortedByIsStableSort(areas, ByY);
    var k := StableSort.SortOrder(ks)[0];
    assert SortedBy(areas, ByY)[0] == areas[k];
  }

  /**
   * The "rightmost" area, the last of the x-sorted list, has the greatest left
   * edge, and among areas with that left edge it is the latest in the input.
   */
  lemma RightmostIsLatestGreatestLeft(areas: seq<Rect>)
    requires areas != []
    ensures exists k :: (0 <= k < |areas| && SortedBy(areas, ByX)[|areas| - 1] == areas[k] &&
      (forall j :: 0 <= j < |areas| ==> areas[j].x <= areas[k].x) &&
      (forall j :: k < j < |areas| ==> areas[j].x < areas[k].x))
  {
    var ks := Keys(areas, ByX);
    KeysAt(areas, ByX);
    StableSort.LastIsLatestGreatest(ks);
    SortedByIsStableSort(areas, ByX);
    var k := StableSort.SortOrder(ks)[|areas| - 1];
    assert SortedBy(areas, ByX)[|areas| - 1] == areas[k];
  }

  /** Two areas already in key order, ties included, stay in that order. */
  lemma SortedPairKeepsOrder(a: Rect, b: Rect, axis: Axis)
    requires Key(a, axis) <= Key(b, axis)
    ensures SortedBy([a, b], axis) == [a, b]
  {
    var ks := Keys([a, b], axis);
    KeysAt([a, b], axis);
    assert ks == [Key(a, axis), Key(b, axis)];
    assert StableSort.Order(ks, 1) == [0];
    assert StableSort.Order(ks, 2) == [0, 1];
    PickAt([a, b], [0, 1]);
  }

  /**
   * Two stacked boxes, the second starting exactly `height` plus twice the
   * padding below the first: the gap between them is the first usable one,
   * and `FindClearSpace` puts the frame one padding below the first box.
   */
  lemma StackedPairLeavesGap(a: Rect, b: Rect, width: real, height: real)
    requires WellFormed(a) && height >= 0.0
    requires b.y == a.Bottom() + height + 2.0 * Padding
    ensures SortedBy([a, b], ByY) == [a, b]
    ensures GapUsable([a, b], [a, b], width, height, 0)
    ensures GapProposal(a, width, height).y == a.Bottom() + Padding
  {
    SortedPairKeepsOrder(a, b, ByY);
    var g := GapProposal(a, width, height);
    HitsAnyIffSomeCollision(g, [a, b]);
    assert !CheckCollision(Some(g), Some([a, b][0]));
    assert !CheckCollision(Some(g), Some([a, b][1]));
  }

  /**
   * The fallback need not clear the content: a wide box starting left of a
   * narrow one is not the "rightmost", and the frame placed right of the
   * narrow box overlaps the wide one. Here no gap is usable, the proposal
   * above reaches the ceiling, and `FindClearSpace` returns the `Right` zone
   * at a position that collides with the first box.
   */
  lemma RightFallbackCanCollide()
    ensures var wide, narrow := Rect(0.0, -2500.0, 1000.0, 100.0), Rect(10.0, -2500.0, 10.0, 100.0);
      var areas, width, height := [wide, narrow], 850.0, 400.0;
      var xs := SortedBy(areas, ByX);
      && NoUsableGap(areas, width, height)
      && !AboveUsable(SortedBy(areas, ByY)[0], areas, width, height)
      && xs[|xs| - 1] == narrow
      && narrow.Right() < wide.Right()
      && CheckCollision(Some(Rect(xs[|xs| - 1].Right() + Padding, xs[|xs| - 1].y, width, height)), Some(wide))
  {
    var wide, narrow := Rect(0.0, -2500.0, 1000.0, 100.0), Rect(10.0, -2500.0, 10.0, 100.0);
    var areas := [wide, narrow];
    SortedPairKeepsOrder(wide, narrow, ByX);
    SortedPairKeepsOrder(wide, narrow, ByY);
    var g := GapProposal(wide, 850.0, 400.0);
    assert !GapFits(wide, narrow, 400.0);
  }
}
