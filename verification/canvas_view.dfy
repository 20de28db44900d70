/** The web canvas view (OutfitBoard.web.js): what it hands back to the
    controller when a drag or a transform ends, the transformer's bound-box
    guard, and which items it draws in which order. */
module CanvasView {
  import opened Base
  import opened Items
  import opened Geometry

  /** The Konva group's attributes when a transform ends. */
  datatype Node = Node(x: real, y: real, rotation: real, scaleX: real, scaleY: real)

  /** Every item is at least 50 by 50. */
  predicate AboveFloor(it: Item) {
    it.width >= MinSize && it.height >= MinSize
  }

  predicate AllAboveFloor(items: seq<Item>) {
    forall i :: 0 <= i < |items| ==> AboveFloor(items[i])
  }

  /** The transform-end size as written: the stored size times the node's
      scale, floored at 50 on each side. The node's scale still includes the
      item's own drawn scale. */
  function TransformEndSize(it: Item, n: Node): (r: Size)
    ensures r.width >= MinSize && r.height >= MinSize
    ensures it.width * n.scaleX >= MinSize ==> r.width == it.width * n.scaleX
    ensures it.height * n.scaleY >= MinSize ==> r.height == it.height * n.scaleY
    ensures it.width * n.scaleX < MinSize ==> r.width == MinSize
    ensures it.height * n.scaleY < MinSize ==> r.height == MinSize
  {
    Size(Max(MinSize, it.width * n.scaleX), Max(MinSize, it.height * n.scaleY))
  }

  /** The `updatedItem` the group reports on transform end: position and
      rotation from the node, the floored size, everything else from the item
      as it was drawn. */
  function Transformed(it: Item, n: Node): (r: Item)
    ensures AboveFloor(r)
    ensures Size(r.width, r.height) == TransformEndSize(it, n)
    ensures r.x == n.x && r.y == n.y && r.rotation == n.rotation
    ensures r.(x := it.x, y := it.y, rotation := it.rotation, width := it.width, height := it.height) == it
  {
    var s := TransformEndSize(it, n);
    it.(x := n.x, y := n.y, rotation := n.rotation, width := s.width, height := s.height)
  }

  /** The `updatedItem` the group reports on drag end: the item as drawn with
      the node's new position. */
  function Dragged(it: Item, x: real, y: real): (r: Item)
    ensures r.x == x && r.y == y
    ensures r.(x := it.x, y := it.y) == it
  {
    it.(x := x, y := y)
  }

  /** handleTransformEnd: only x, y, rotation, width and height are forwarded
      to `onUpdateItem`. */
  function Forwarded(u: Item): (p: Patch)
    ensures p.x == Some(u.x) && p.y == Some(u.y) && p.rotation == Some(u.rotation)
    ensures p.width == Some(u.width) && p.height == Some(u.height)
    ensures p.opacity.None? && p.zIndex.None? && p.visible.None? && p.flipped.None?
    ensures p.scaleX.None? && p.scaleY.None?
  {
    NoChange.(x := Some(u.x), y := Some(u.y), rotation := Some(u.rotation),
              width := Some(u.width), height := Some(u.height))
  }

  /** The five forwarded fields are all the view can change: applying the
      forwarded patch to an item that agrees with `u` elsewhere yields `u`. */
  lemma ForwardedRoundTrip(it: Item, u: Item)
    requires u.(x := it.x, y := it.y, rotation := it.rotation, width := it.width, height := it.height) == it
    ensures Merge(it, Forwarded(u)) == u
  {
  }

  /** A transform end as it reaches the controller's updateItem. */
  function TransformEnd(items: seq<Item>, it: Item, n: Node): (r: seq<Item>)
    ensures |r| == |items| && Ids(r) == Ids(items)
    ensures forall i :: 0 <= i < |items| ==>
              if items[i].id == it.id
              then r[i].x == n.x && r[i].y == n.y && r[i].rotation == n.rotation
                   && AboveFloor(r[i])
                   && r[i].width == TransformEndSize(it, n).width
                   && r[i].height == TransformEndSize(it, n).height
                   && r[i].(x := items[i].x, y := items[i].y, rotation := items[i].rotation,
                            width := items[i].width, height := items[i].height) == items[i]
              else r[i] == items[i]
  {
    UpdateKeepsIds(items, it.id, Forwarded(Transformed(it, n)));
    UpdateItem(items, it.id, Forwarded(Transformed(it, n)))
  }

  /** A drag end as it reaches updateItem: rotation and size are resent from
      the drawn item, so they change only if the drawn copy was stale. */
  function DragEnd(items: seq<Item>, it: Item, x: real, y: real): (r: seq<Item>)
    ensures |r| == |items| && Ids(r) == Ids(items)
    ensures forall i :: 0 <= i < |items| ==>
              if items[i].id == it.id
              then r[i] == items[i].(x := x, y := y, rotation := it.rotation,
                                     width := it.width, height := it.height)
              else r[i] == items[i]
  {
    UpdateKeepsIds(items, it.id, Forwarded(Dragged(it, x, y)));
    UpdateItem(items, it.id, Forwarded(Dragged(it, x, y)))
  }

  /** Dragging the item as drawn from the current list moves it and changes
      nothing else. */
  lemma DragEndMovesOnly(items: seq<Item>, k: nat, x: real, y: real)
    requires k < |items| && UniqueIds(items)
    ensures DragEnd(items, items[k], x, y) == items[k := items[k].(x := x, y := y)]
  {
    var r := DragEnd(items, items[k], x, y);
    forall i | 0 <= i < |items|
      ensures r[i] == items[k := items[k].(x := x, y := y)][i]
    {
      if items[i].id == items[k].id {
        assert i == k;
      }
    }
  }

  /** The size floor is an invariant of transform ends. */
  lemma TransformEndKeepsFloor(items: seq<Item>, it: Item, n: Node)
    requires AllAboveFloor(items)
    ensures AllAboveFloor(TransformEnd(items, it, n))
  {
  }

  /** A node that reports a mirrored scale, as a flipped item's group does
      (drawn with `scaleX` -1), collapses that side to 50 even when the user
      did not resize: a 200 by 200 item comes back 50 by 200. */
  lemma MirroredTransformCollapsesSide()
    ensures var it := Placed("a", "u", 50.0, 200.0, 1).(flipped := true, scaleX := -1.0);
            TransformEndSize(it, Node(50.0, 50.0, 0.0, -1.0, 1.0)) == Size(50.0, 200.0)
  {
  }

  /** The intended transform-end size: the stored size times the magnitude of
      the node's scale, floored at 50, so the mirror does not shrink the item. */
  function IntendedTransformEndSize(it: Item, n: Node): (r: Size)
    ensures r.width >= MinSize && r.height >= MinSize
    ensures it.width * Abs(n.scaleX) >= MinSize ==> r.width == it.width * Abs(n.scaleX)
    ensures it.height * Abs(n.scaleY) >= MinSize ==> r.height == it.height * Abs(n.scaleY)
  {
    Size(Max(MinSize, it.width * Abs(n.scaleX)), Max(MinSize, it.height * Abs(n.scaleY)))
  }

  /** With the intended size, a transform that leaves the node's scale at plus
      or minus one keeps a floor-respecting item's size, mirrored or not. */
  lemma IntendedTransformKeepsUntouchedSize(it: Item, n: Node)
    requires AboveFloor(it) && Abs(n.scaleX) == 1.0 && Abs(n.scaleY) == 1.0
    ensures IntendedTransformEndSize(it, n) == Size(it.width, it.height)
  {
    assert it.width * Abs(n.scaleX) == it.width;
    assert it.height * Abs(n.scaleY) == it.height;
  }

  /** The intended size does not depend on the sign of either scale. */
  lemma IntendedSizeIgnoresMirror(it: Item, n: Node)
    ensures IntendedTransformEndSize(it, n)
            == IntendedTransformEndSize(it, n.(scaleX := -n.scaleX, scaleY := -n.scaleY))
  {
  }

  /** The transformer's on-screen box. */
  datatype Box = Box(x: real, y: real, width: real, height: real, rotation: real)

  predicate BoxAboveFloor(b: Box) {
    Abs(b.width) >= MinSize && Abs(b.height) >= MinSize
  }

  /** boundBoxFunc: a proposed box with either side under 50 in magnitude is
      refused and the previous box kept. */
  function BoundBox(oldBox: Box, newBox: Box): (r: Box)
    ensures BoxAboveFloor(newBox) ==> r == newBox
    ensures !BoxAboveFloor(newBox) ==> r == oldBox
  {
    if Abs(newBox.width) < MinSize || Abs(newBox.height) < MinSize then oldBox else newBox
  }

  /** Starting from a box above the floor, any sequence of proposals keeps the
      box above the floor. */
  function BoundBoxAll(start: Box, proposals: seq<Box>): Box
    decreases |proposals|
  {
    if proposals == [] then start
    else BoundBoxAll(BoundBox(start, proposals[0]), proposals[1..])
  }

  lemma {:induction false} BoundBoxKeepsFloor(start: Box, proposals: seq<Box>)
    requires BoxAboveFloor(start)
    ensures BoxAboveFloor(BoundBoxAll(start, proposals))
    decreases |proposals|
  {
    if proposals != [] {
      BoundBoxKeepsFloor(BoundBox(start, proposals[0]), proposals[1..]);
    }
  }

  /** Ascending zIndex order. */
  predicate SortedByZ(s: seq<Item>) {
    forall i, j :: 0 <= i < j < |s| ==> s[i].zIndex <= s[j].zIndex
  }

  /** The items of `s` with zIndex `z`, in order. */
  function WithZ(s: seq<Item>, z: int): seq<Item> {
    if s == [] then []
    else (if s[0].zIndex == z then [s[0]] else []) + WithZ(s[1..], z)
  }

  /** Places `x` before the first element whose zIndex is not smaller. */
  function Insert(x: Item, t: seq<Item>): (r: seq<Item>)
    ensures |r| == |t| + 1
    ensures r[0] == x || (t != [] && r[0] == t[0])
  {
    if t == [] then [x]
    else if x.zIndex <= t[0].zIndex then [x] + t
    else [t[0]] + Insert(x, t[1..])
  }

  /** Insertion adds `x` and loses nothing. */
  lemma {:induction false} InsertPermutes(x: Item, t: seq<Item>)
    ensures multiset(Insert(x, t)) == multiset(t) + multiset{x}
    decreases |t|
  {
    if t != [] && x.zIndex > t[0].zIndex {
      InsertPermutes(x, t[1..]);
      assert t == [t[0]] + t[1..];
      assert Insert(x, t) == [t[0]] + Insert(x, t[1..]);
    }
  }

  /** Inserting into an ascending sequence keeps it ascending. */
  lemma {:induction false} InsertSorted(x: Item, t: seq<Item>)
    requires SortedByZ(t)
    ensures SortedByZ(Insert(x, t))
  {
    if t != [] && x.zIndex > t[0].zIndex {
      var rest := Insert(x, t[1..]);
      InsertSorted(x, t[1..]);
      assert t[0].zIndex <= rest[0].zIndex;
      assert forall j :: 0 < j < |rest| ==> rest[0].zIndex <= rest[j].zIndex;
      assert Insert(x, t) == [t[0]] + rest;
    }
  }

  /** `[...items].sort((a, b) => a.zIndex - b.zIndex)`: ascending by zIndex,
      a permutation of the items. */
  function SortByZ(s: seq<Item>): (r: seq<Item>)
    ensures SortedByZ(r)
    ensures |r| == |s| && multiset(r) == multiset(s)
  {
    if s == [] then []
    else
      assert s == [s[0]] + s[1..];
      InsertSorted(s[0], SortByZ(s[1..]));
      InsertPermutes(s[0], SortByZ(s[1..]));
      Insert(s[0], SortByZ(s[1..]))
  }

  lemma {:induction false} InsertWithZ(x: Item, t: seq<Item>, z: int)
    ensures WithZ(Insert(x, t), z) == (if x.zIndex == z then [x] else []) + WithZ(t, z)
    decreases |t|
  {
    if t != [] && x.zIndex > t[0].zIndex {
      var rest := Insert(x, t[1..]);
      InsertWithZ(x, t[1..], z);
      WithZSkipsHead(t[0], t[1..], rest, if x.zIndex == z then [x] else [], z);
      assert t == [t[0]] + t[1..];
    } else if t != [] {
      WithZCons(x, t, z);
    }
  }

  /** Putting the same head in front of two sequences keeps a relation
      between their zIndex-`z` items. */
  lemma WithZSkipsHead(a: Item, u: seq<Item>, v: seq<Item>, extra: seq<Item>, z: int)
    requires WithZ(v, z) == extra + WithZ(u, z)
    ensures WithZ([a] + v, z) == (if a.zIndex == z then [a] else []) + extra + WithZ(u, z)
    ensures WithZ([a] + u, z) == (if a.zIndex == z then [a] else []) + WithZ(u, z)
  {
    WithZCons(a, v, z);
    WithZCons(a, u, z);
  }

  lemma WithZCons(a: Item, u: seq<Item>, z: int)
    ensures WithZ([a] + u, z) == (if a.zIndex == z then [a] else []) + WithZ(u, z)
  {
    assert ([a] + u)[1..] == u;
  }

  /** The sort is stable: items with equal zIndex keep their relative order
      (the array sort of ECMAScript 2019 and later is stable). */
  lemma {:induction false} SortByZStable(s: seq<Item>, z: int)
    ensures WithZ(SortByZ(s), z) == WithZ(s, z)
  {
    if s != [] {
      SortByZStable(s[1..], z);
      InsertWithZ(s[0], SortByZ(s[1..]), z);
    }
  }

  /** The items drawn, in order: URLImage returns nothing for a hidden item or
      one whose image has not loaded (`loaded` is the set of sources whose
      image is available). */
  function Drawable(s: seq<Item>, loaded: set<string>): (r: seq<Item>)
    ensures forall e :: e in r <==> e in s && e.visible && e.src in loaded
    ensures SortedByZ(s) ==> SortedByZ(r)
  {
    if s == [] then []
    else if s[0].visible && s[0].src in loaded then [s[0]] + Drawable(s[1..], loaded)
    else Drawable(s[1..], loaded)
  }

  /** Drawing filters each part of a sequence on its own: the kept items
      keep their order and their multiplicity. */
  lemma {:induction false} DrawableConcat(a: seq<Item>, b: seq<Item>, loaded: set<string>)
    ensures Drawable(a + b, loaded) == Drawable(a, loaded) + Drawable(b, loaded)
    decreases |a|
  {
    if a == [] {
      assert a + b == b;
    } else {
      assert (a + b)[0] == a[0];
      assert (a + b)[1..] == a[1..] + b;
      DrawableConcat(a[1..], b, loaded);
    }
  }

  /** A visible, loaded item is drawn as many times as it occurs; any other
      item is not drawn at all. */
  lemma {:induction false} DrawableCount(s: seq<Item>, loaded: set<string>, e: Item)
    ensures multiset(Drawable(s, loaded))[e] ==
      if e.visible && e.src in loaded then multiset(s)[e] else 0
    decreases |s|
  {
    if s != [] {
      DrawableCount(s[1..], loaded, e);
      assert s == [s[0]] + s[1..];
    }
  }

  /** What the layer renders: visible, loaded items, bottom to top by zIndex. */
  function Rendered(items: seq<Item>, loaded: set<string>): (r: seq<Item>)
    ensures SortedByZ(r)
    ensures forall e :: e in r <==> e in items && e.visible && e.src in loaded
  {
    var sorted := SortByZ(items);
    assert forall e :: e in sorted <==> e in items by {
      forall e
        ensures e in sorted <==> e in items
      {
        assert e in sorted <==> e in multiset(sorted);
        assert e in items <==> e in multiset(items);
      }
    }
    Drawable(sorted, loaded)
  }

  /** The layer draws every visible, loaded item exactly as often as the
      board holds it, and nothing else. */
  lemma RenderedCount(items: seq<Item>, loaded: set<string>, e: Item)
    ensures multiset(Rendered(items, loaded))[e] ==
      if e.visible && e.src in loaded then multiset(items)[e] else 0
  {
    DrawableCount(SortByZ(items), loaded, e);
  }

  /** Filtering by visibility and filtering by zIndex commute. */
  lemma {:induction false} DrawableWithZ(s: seq<Item>, loaded: set<string>, z: int)
    ensures WithZ(Drawable(s, loaded), z) == Drawable(WithZ(s, z), loaded)
    decreases |s|
  {
    if s != [] {
      DrawableWithZ(s[1..], loaded, z);
      var head := if s[0].zIndex == z then [s[0]] else [];
      DrawableConcat(head, WithZ(s[1..], z), loaded);
      if s[0].visible && s[0].src in loaded {
        WithZCons(s[0], Drawable(s[1..], loaded), z);
      }
    }
  }

  /** Items sharing a zIndex are drawn in board order. */
  lemma RenderedKeepsTies(items: seq<Item>, loaded: set<string>, z: int)
    ensures WithZ(Rendered(items, loaded), z) == Drawable(WithZ(items, z), loaded)
  {
    DrawableWithZ(SortByZ(items), loaded, z);
    SortByZStable(items, z);
  }

  /** Hiding an item removes it from what is drawn. */
  lemma HiddenNotRendered(items: seq<Item>, loaded: set<string>, k: nat)
    requires k < |items| && !items[k].visible
    ensures items[k] !in Rendered(items, loaded)
  {
  }
}
