/** The single-file board controller (src/): a pointer session held in three
    boolean flags (dragging, resizing, rotating), the moves that drive the
    selected item through the geometry rules, the toolbar's z-order and delete
    commands, and the auto-import of the `inputImages` prop. */
module Session {
  import opened Base
  import opened Items
  import opened Store
  import opened Geometry

  datatype Pt = Pt(x: real, y: real)

  /** Pointer position and item size captured when a resize began. */
  datatype ResizeStart = ResizeStart(x: real, y: real, width: real, height: real)

  /** Pointer angle minus item rotation, and the pivot, captured when a
      rotation began. */
  datatype RotationStart = RotationStart(angle: real, centerX: real, centerY: real)

  datatype Board = Board(
    doc: Doc,
    isDragging: bool,
    isResizing: bool,
    isRotating: bool,
    dragOffset: Pt,
    resizeStart: ResizeStart,
    rotationStart: RotationStart)

  const Initial: Board :=
    Board(Doc([], None), false, false, false, Pt(0.0, 0.0),
          ResizeStart(0.0, 0.0, 0.0, 0.0), RotationStart(0.0, 0.0, 0.0))

  /** Which handle the pointer went down on. */
  datatype Mode = DragMode | ResizeMode | RotateMode

  /** The session a move acts on. The flags are tested in this order, so when
      more than one is set dragging wins, then resizing. */
  datatype SessionState = Idle | Dragging | Resizing | Rotating

  function SessionOf(b: Board): SessionState {
    if b.isDragging then Dragging
    else if b.isResizing then Resizing
    else if b.isRotating then Rotating
    else Idle
  }

  function FlagCount(b: Board): nat {
    (if b.isDragging then 1 else 0) + (if b.isResizing then 1 else 0)
    + (if b.isRotating then 1 else 0)
  }

  /** handlePointerDown: selects the item and raises the flag for `mode`,
      recording what later moves need. The other flags and the items are left
      as they are. `angle` is the pointer's angle about the item's centre in
      degrees (`Math.atan2` is not modelled, so the caller supplies it). */
  function PointerDown(b: Board, item: Item, mode: Mode, p: Pt, angle: real): (r: Board)
    ensures r.doc == Doc(b.doc.items, Some(item.id))
    ensures mode.DragMode? ==> r.isDragging && r.dragOffset == Pt(p.x - item.x, p.y - item.y)
    ensures mode.ResizeMode? ==>
              r.isResizing && r.resizeStart == ResizeStart(p.x, p.y, item.width, item.height)
    ensures mode.RotateMode? ==>
              r.isRotating
              && r.rotationStart.centerX == item.x + item.width / 2.0
              && r.rotationStart.centerY == item.y + item.height / 2.0
              && angle - r.rotationStart.angle == item.rotation
    ensures !mode.DragMode? ==> r.isDragging == b.isDragging && r.dragOffset == b.dragOffset
    ensures !mode.ResizeMode? ==> r.isResizing == b.isResizing && r.resizeStart == b.resizeStart
    ensures !mode.RotateMode? ==> r.isRotating == b.isRotating && r.rotationStart == b.rotationStart
    ensures FlagCount(r) <= FlagCount(b) + 1
  {
    var selected := b.doc.(selected := Some(item.id));
    match mode
    case DragMode =>
      b.(doc := selected, isDragging := true, dragOffset := Pt(p.x - item.x, p.y - item.y))
    case ResizeMode =>
      b.(doc := selected, isResizing := true,
         resizeStart := ResizeStart(p.x, p.y, item.width, item.height))
    case RotateMode =>
      var cx := item.x + item.width / 2.0;
      var cy := item.y + item.height / 2.0;
      b.(doc := selected, isRotating := true,
         rotationStart := RotationStart(RotationOffset(angle, item.rotation), cx, cy))
  }

  /** From an idle board a pointer-down starts exactly the session it asked for. */
  lemma PointerDownFromIdle(b: Board, item: Item, mode: Mode, p: Pt, angle: real)
    requires SessionOf(b) == Idle
    ensures var r := PointerDown(b, item, mode, p, angle);
            FlagCount(r) == 1
            && SessionOf(r) == (match mode
                                case DragMode => Dragging
                                case ResizeMode => Resizing
                                case RotateMode => Rotating)
  {
  }

  /** pointerDown does not lower the other flags: a resize pointer-down during
      a drag leaves two flags up, and moves keep dragging. */
  lemma OverlappingSessions(item: Item, p: Pt, q: Pt, angle: real)
    ensures var b := PointerDown(PointerDown(Initial, item, DragMode, p, angle),
                                 item, ResizeMode, q, angle);
            FlagCount(b) == 2 && SessionOf(b) == Dragging
  {
  }

  /** handlePointerUp: every flag drops; nothing else changes. */
  function PointerUp(b: Board): (r: Board)
    ensures SessionOf(r) == Idle && FlagCount(r) == 0
    ensures r.doc == b.doc && r.dragOffset == b.dragOffset
    ensures r.resizeStart == b.resizeStart && r.rotationStart == b.rotationStart
  {
    b.(isDragging := false, isResizing := false, isRotating := false)
  }

  /** A pointer-down on the empty board clears the selection. */
  function BackgroundPointerDown(b: Board): (r: Board)
    ensures r.doc == Doc(b.doc.items, None)
    ensures r == b.(doc := r.doc)
  {
    b.(doc := b.doc.(selected := None))
  }

  function MovePatch(x: real, y: real): Patch {
    NoChange.(x := Some(x), y := Some(y))
  }

  function SizePatch(s: Size): Patch {
    NoChange.(width := Some(s.width), height := Some(s.height))
  }

  function RotationPatch(rotation: real): Patch {
    NoChange.(rotation := Some(rotation))
  }

  /** The resize branch divides by the captured width and height; a zero there
      is a JavaScript infinity, which reals cannot express. */
  predicate ResizeReady(b: Board) {
    SessionOf(b) == Resizing ==> b.resizeStart.width != 0.0 && b.resizeStart.height != 0.0
  }

  /** Where the first item with the selected id sits, when the selection is set
      and such an item exists. */
  function Target(b: Board): Option<nat> {
    if HasSelection(b.doc.selected) then FindIndex(b.doc.items, b.doc.selected.value) else None
  }

  /** The drag branch: every item with the selected id moves to the snapped,
      board-clamped pointer position (computed from the first such item). */
  function DragItems(c: Config, items: seq<Item>, k: nat, offset: Pt, p: Pt): (r: seq<Item>)
    requires ValidConfig(c) && k < |items|
    ensures |r| == |items|
    ensures forall i :: 0 <= i < |items| && items[i].id != items[k].id ==> r[i] == items[i]
    ensures forall i :: 0 <= i < |items| && items[i].id == items[k].id ==>
              r[i] == items[i].(x := r[i].x, y := r[i].y)
              && r[i].x == DragAxis(c, p.x, offset.x, c.boardWidth - items[k].width)
              && r[i].y == DragAxis(c, p.y, offset.y, c.boardHeight - items[k].height)
  {
    var it := items[k];
    var nx := DragAxis(c, p.x, offset.x, c.boardWidth - it.width);
    var ny := DragAxis(c, p.y, offset.y, c.boardHeight - it.height);
    UpdateItem(items, it.id, MovePatch(nx, ny))
  }

  /** The resize branch: every item with the selected id takes the
      aspect-locked, snapped, edge-capped size. */
  function ResizeItems(c: Config, items: seq<Item>, k: nat, rs: ResizeStart, p: Pt): (r: seq<Item>)
    requires ValidConfig(c) && k < |items| && rs.width != 0.0 && rs.height != 0.0
    ensures |r| == |items|
    ensures forall i :: 0 <= i < |items| && items[i].id != items[k].id ==> r[i] == items[i]
    ensures forall i :: 0 <= i < |items| && items[i].id == items[k].id ==>
              r[i] == items[i].(width := r[i].width, height := r[i].height)
              && Size(r[i].width, r[i].height) == ResizeTo(c, items[k].x, items[k].y, rs.width, rs.height, p.x - rs.x)
  {
    var it := items[k];
    var s := ResizeTo(c, it.x, it.y, rs.width, rs.height, p.x - rs.x);
    UpdateItem(items, it.id, SizePatch(s))
  }

  /** A rotate move's result for the raw angle `raw`: `raw` itself with the
      grid off, a multiple of 15 degrees with it on. */
  predicate RotationFor(c: Config, rotation: real, raw: real) {
    (!c.gridEnabled ==> rotation == raw) && (c.gridEnabled ==> IsMultipleOf(rotation, RotationStep))
  }

  /** The rotate branch: every item with the selected id takes the pointer
      angle minus the recorded offset, snapped to 15 degrees with the grid on. */
  function RotateItems(c: Config, items: seq<Item>, k: nat, rs: RotationStart, angle: real): (r: seq<Item>)
    requires k < |items|
    ensures |r| == |items|
    ensures forall i :: 0 <= i < |items| && items[i].id != items[k].id ==> r[i] == items[i]
    ensures forall i :: 0 <= i < |items| && items[i].id == items[k].id ==>
              r[i] == items[i].(rotation := r[i].rotation)
              && r[i].rotation == RotateTo(c, angle, rs.angle)
  {
    var rot := RotateTo(c, angle, rs.angle);
    UpdateItem(items, items[k].id, RotationPatch(rot))
  }

  /** handlePointerMove: with no selection, a stale id or no active session
      nothing changes. Otherwise every item carrying the selected id gets the
      fields of the active session recomputed from the first such item:
      position (snapped, then kept on the board), size (aspect-locked, snapped,
      then capped at the board edge) or rotation (pointer angle minus the
      recorded offset, snapped to 15 degrees when the grid is on). `angle` is
      the pointer's angle about the recorded pivot. */
  function PointerMove(c: Config, b: Board, p: Pt, angle: real): (r: Board)
    requires ValidConfig(c) && ResizeReady(b)
    ensures r == b.(doc := r.doc) && r.doc.selected == b.doc.selected
    ensures |r.doc.items| == |b.doc.items|
    ensures Target(b).None? || SessionOf(b) == Idle ==> r == b
    ensures forall i :: 0 <= i < |b.doc.items| && !(Target(b).Some? && b.doc.items[i].id == b.doc.selected.value) ==>
              r.doc.items[i] == b.doc.items[i]
  {
    match Target(b)
    case None => b
    case Some(k) =>
      var items := b.doc.items;
      match SessionOf(b)
      case Idle => b
      case Dragging => b.(doc := b.doc.(items := DragItems(c, items, k, b.dragOffset, p)))
      case Resizing => b.(doc := b.doc.(items := ResizeItems(c, items, k, b.resizeStart, p)))
      case Rotating => b.(doc := b.doc.(items := RotateItems(c, items, k, b.rotationStart, angle)))
  }

  /** A drag move puts every item with the selected id at the snapped
      pointer-minus-offset, kept on the board, and changes only its position. */
  lemma PointerMoveDrags(c: Config, b: Board, p: Pt, angle: real)
    requires ValidConfig(c) && Target(b).Some? && SessionOf(b) == Dragging
    ensures var r := PointerMove(c, b, p, angle);
            var it := b.doc.items[Target(b).value];
            forall i :: 0 <= i < |b.doc.items| && b.doc.items[i].id == it.id ==>
              var n := r.doc.items[i];
              n == b.doc.items[i].(x := n.x, y := n.y)
              && n.x == DragAxis(c, p.x, b.dragOffset.x, c.boardWidth - it.width)
              && n.y == DragAxis(c, p.y, b.dragOffset.y, c.boardHeight - it.height)
              && 0.0 <= n.x <= Max(0.0, c.boardWidth - it.width)
              && 0.0 <= n.y <= Max(0.0, c.boardHeight - it.height)
  {
    var moved := DragItems(c, b.doc.items, Target(b).value, b.dragOffset, p);
    assert PointerMove(c, b, p, angle).doc.items == moved;
  }

  /** A resize move gives every item with the selected id the aspect-locked,
      snapped, edge-capped size for the horizontal pointer travel since
      pointer-down, keeps its right and bottom edges on the board and changes
      only its size. */
  lemma PointerMoveResizes(c: Config, b: Board, p: Pt, angle: real)
    requires ValidConfig(c) && ResizeReady(b) && Target(b).Some? && SessionOf(b) == Resizing
    ensures var r := PointerMove(c, b, p, angle);
            var it := b.doc.items[Target(b).value];
            var rs := b.resizeStart;
            forall i :: 0 <= i < |b.doc.items| && b.doc.items[i].id == it.id ==>
              var n := r.doc.items[i];
              n == b.doc.items[i].(width := n.width, height := n.height)
              && Size(n.width, n.height) == ResizeTo(c, it.x, it.y, rs.width, rs.height, p.x - rs.x)
              && it.x + n.width <= c.boardWidth && it.y + n.height <= c.boardHeight
  {
    var resized := ResizeItems(c, b.doc.items, Target(b).value, b.resizeStart, p);
    assert PointerMove(c, b, p, angle).doc.items == resized;
  }

  /** A rotate move sets the rotation of every item with the selected id to
      the pointer angle minus the recorded offset (rounded to the nearest
      multiple of 15 degrees with the grid on) and changes nothing else. */
  lemma PointerMoveRotates(c: Config, b: Board, p: Pt, angle: real)
    requires ValidConfig(c) && Target(b).Some? && SessionOf(b) == Rotating
    ensures |PointerMove(c, b, p, angle).doc.items| == |b.doc.items|
    ensures var r := PointerMove(c, b, p, angle);
            var it := b.doc.items[Target(b).value];
            var rs := b.rotationStart;
            forall i :: 0 <= i < |b.doc.items| && b.doc.items[i].id == it.id ==>
              var n := r.doc.items[i];
              n == b.doc.items[i].(rotation := n.rotation)
              && n.rotation == RotateTo(c, angle, rs.angle)
              && RotationFor(c, n.rotation, angle - rs.angle)
  {
    var k := Target(b).value;
    var turned := RotateItems(c, b.doc.items, k, b.rotationStart, angle);
    assert PointerMove(c, b, p, angle).doc.items == turned;
  }

  /** Once the pointer is up, moves do nothing. */
  lemma MoveAfterUpIsNoop(c: Config, b: Board, p: Pt, angle: real)
    requires ValidConfig(c)
    ensures PointerMove(c, PointerUp(b), p, angle) == PointerUp(b)
  {
  }

  /** A rotation session whose pointer comes back to where it went down, with
      the grid off, leaves the item's rotation as it was. */
  lemma RotateSessionRoundTrip(c: Config, b: Board, item: Item, p: Pt, angle: real)
    requires ValidConfig(c) && !c.gridEnabled && SessionOf(b) == Idle
    requires UniqueIds(b.doc.items) && item.id != [] && Find(b.doc.items, item.id) == Some(item)
    ensures var down := PointerDown(b, item, RotateMode, p, angle);
            PointerMove(c, down, p, angle).doc.items == b.doc.items
  {
    var down := PointerDown(b, item, RotateMode, p, angle);
    var k := FindIndex(b.doc.items, item.id).value;
    var rs := down.rotationStart;
    assert Target(down) == Some(k);
    assert SessionOf(down) == Rotating;
    assert angle - rs.angle == item.rotation;
    PointerMoveRotates(c, down, p, angle);
    var moved := PointerMove(c, down, p, angle);
    forall i | 0 <= i < |b.doc.items|
      ensures moved.doc.items[i] == b.doc.items[i]
    {
      if i != k {
        assert b.doc.items[i].id != item.id;
      }
    }
  }

  /** A drag whose pointer has not moved, with the grid off, leaves an item
      that lies on the board where it was. */
  lemma DragSessionStill(c: Config, b: Board, item: Item, p: Pt, angle: real)
    requires ValidConfig(c) && !c.gridEnabled && SessionOf(b) == Idle
    requires item.id != [] && Find(b.doc.items, item.id) == Some(item)
    requires 0.0 <= item.x <= c.boardWidth - item.width
    requires 0.0 <= item.y <= c.boardHeight - item.height
    ensures var down := PointerDown(b, item, DragMode, p, angle);
            var moved := PointerMove(c, down, p, angle);
            var k := FindIndex(b.doc.items, item.id).value;
            moved.doc.items[k] == item
  {
    var down := PointerDown(b, item, DragMode, p, angle);
    var k := FindIndex(b.doc.items, item.id).value;
    assert Target(down) == Some(k);
    assert p.x - (p.x - item.x) == item.x;
    assert p.y - (p.y - item.y) == item.y;
  }

  /** handleDelete, handleBringForward and handleSendBackward act on the
      shared document. */
  function DeleteSelected(b: Board): (r: Board)
    ensures r == b.(doc := Delete(b.doc))
    ensures HasSelection(b.doc.selected) ==> b.doc.selected.value !in Ids(r.doc.items)
  {
    b.(doc := Delete(b.doc))
  }

  /** Item size the single-file controller gives imported images. */
  const ImportSize: real := 120.0

  /** The item created for entry `index` of the prop when no item has that
      source yet. */
  function ImportedItem(id: string, img: string, index: nat, count: nat): Item {
    Placed(id, img, 50.0 + 60.0 * index as real, ImportSize, count + index + 1)
  }

  /** Where the first item with source `src` sits. */
  function FindSrcIndex(items: seq<Item>, src: string): (r: Option<nat>)
    ensures r.Some? ==> r.value < |items| && items[r.value].src == src
    ensures r.Some? ==> forall j :: 0 <= j < r.value ==> items[j].src != src
    ensures r.None? <==> src !in Srcs(items)
  {
    if items == [] then None
    else if items[0].src == src then Some(0)
    else match FindSrcIndex(items[1..], src)
      case None => None
      case Some(k) => Some(k + 1)
  }

  /** `items.find(item => item.src === img)`: the first item with that source. */
  function FindBySrc(items: seq<Item>, src: string): (r: Option<Item>)
    ensures r.Some? ==> r.value in items && r.value.src == src
    ensures r.None? <==> src !in Srcs(items)
  {
    if items == [] then None
    else if items[0].src == src then Some(items[0])
    else FindBySrc(items[1..], src)
  }

  /** The item found is the one at the first index holding that source. */
  lemma {:induction false} FindBySrcIsFirst(items: seq<Item>, src: string)
    ensures FindBySrc(items, src).Some? <==> FindSrcIndex(items, src).Some?
    ensures FindSrcIndex(items, src).Some? ==>
      FindBySrc(items, src).value == items[FindSrcIndex(items, src).value]
    decreases |items|
  {
    if items != [] && items[0].src != src {
      FindBySrcIsFirst(items[1..], src);
    }
  }

  /** The `newItems` entry for source `src` at `index`: the first item that
      already has the source, otherwise a new item. */
  function Candidate(items: seq<Item>, src: string, id: string, index: nat): (c: Item)
    ensures src in Srcs(items) ==> c in items && c.src == src
    ensures src !in Srcs(items) ==> c == ImportedItem(id, src, index, |items|)
  {
    match FindBySrc(items, src)
    case Some(e) => e
    case None => ImportedItem(id, src, index, |items|)
  }

  /** The `newItems` list the merge effect builds from entries `0..n` of the
      prop, one candidate per entry, in order. */
  function Candidates(items: seq<Item>, images: seq<string>, ids: seq<string>, n: nat): (r: seq<Item>)
    requires |ids| == |images| && n <= |images|
    ensures |r| == n
    ensures forall j :: 0 <= j < n ==> r[j] == Candidate(items, images[j], ids[j], j)
  {
    if n == 0 then []
    else
      Candidates(items, images, ids, n - 1) + [Candidate(items, images[n - 1], ids[n - 1], n - 1)]
  }

  /** The merge step of the effect: each candidate is appended unless an item
      with its id is already in the growing list. */
  function AppendNewIds(merged: seq<Item>, cands: seq<Item>): (r: seq<Item>)
    ensures |merged| <= |r| <= |merged| + |cands|
    ensures r[..|merged|] == merged
    ensures forall k :: |merged| <= k < |r| ==> r[k] in cands && r[k].id !in Ids(merged)
    decreases |cands|
  {
    if cands == [] then merged
    else if cands[0].id in Ids(merged) then AppendNewIds(merged, cands[1..])
    else
      var next := merged + [cands[0]];
      var r := AppendNewIds(next, cands[1..]);
      assert r[..|merged|] == next[..|merged|] == merged;
      forall k | |merged| < k < |r|
        ensures r[k] in cands && r[k].id !in Ids(merged)
      {
        assert r[k] in cands[1..] && r[k].id !in Ids(next);
        assert Ids(next) == Ids(merged) + [cands[0].id];
      }
      assert r[|merged|] == r[..|next|][|merged|] == cands[0];
      r
  }

  /** The merge step never introduces a duplicate id. */
  lemma {:induction false} AppendNewIdsUnique(merged: seq<Item>, cands: seq<Item>)
    ensures UniqueIds(merged) ==> UniqueIds(AppendNewIds(merged, cands))
    decreases |cands|
  {
    if cands != [] && UniqueIds(merged) {
      if cands[0].id in Ids(merged) {
        AppendNewIdsUnique(merged, cands[1..]);
      } else {
        var next := merged + [cands[0]];
        forall i | 0 <= i < |merged| ensures merged[i].id != cands[0].id {
          assert Ids(merged)[i] == merged[i].id;
        }
        AppendNewIdsUnique(next, cands[1..]);
      }
    }
  }

  /** `s[i]`'s id is among the ids of `s`. */
  lemma IdAt(s: seq<Item>, i: nat)
    requires i < |s|
    ensures s[i].id in Ids(s)
  {
    assert Ids(s)[i] == s[i].id;
  }

  /** Every candidate's id is present after the merge step: either it was
      already taken, or the candidate was appended. */
  lemma {:induction false} AppendNewIdsCovers(merged: seq<Item>, cands: seq<Item>)
    ensures forall j :: 0 <= j < |cands| ==> cands[j].id in Ids(AppendNewIds(merged, cands))
    decreases |cands|
  {
    if cands != [] {
      var r := AppendNewIds(merged, cands);
      var rest := cands[1..];
      if cands[0].id in Ids(merged) {
        assert r == AppendNewIds(merged, rest);
        AppendNewIdsCovers(merged, rest);
        var m :| 0 <= m < |merged| && Ids(merged)[m] == cands[0].id;
        assert r[m] == r[..|merged|][m] == merged[m];
        IdAt(r, m);
      } else {
        var next := merged + [cands[0]];
        assert r == AppendNewIds(next, rest);
        AppendNewIdsCovers(next, rest);
        assert r[|merged|] == r[..|next|][|merged|] == cands[0];
        IdAt(r, |merged|);
      }
      forall j | 1 <= j < |cands| ensures cands[j].id in Ids(r) {
        assert cands[j] == rest[j - 1];
      }
    }
  }

  /** A candidate whose id is neither taken nor shared with an earlier
      candidate is appended itself. */
  lemma {:induction false} AppendNewIdsKeeps(merged: seq<Item>, cands: seq<Item>, j: nat)
    requires j < |cands| && cands[j].id !in Ids(merged)
    requires forall i :: 0 <= i < j ==> cands[i].id != cands[j].id
    ensures cands[j] in AppendNewIds(merged, cands)
    decreases |cands|
  {
    var rest := cands[1..];
    if cands[0].id in Ids(merged) {
      assert AppendNewIds(merged, cands) == AppendNewIds(merged, rest);
      AppendNewIdsKeeps(merged, rest, j - 1);
    } else {
      var next := merged + [cands[0]];
      var r := AppendNewIds(next, rest);
      assert AppendNewIds(merged, cands) == r;
      if j == 0 {
        assert r[|merged|] == r[..|next|][|merged|] == cands[0];
      } else {
        assert Ids(next) == Ids(merged) + [cands[0].id];
        AppendNewIdsKeeps(next, rest, j - 1);
      }
    }
  }

  /** `s` is `t` with some elements left out: the elements of `s` occur in
      `t` in the same order. */
  predicate IsSubsequence(s: seq<Item>, t: seq<Item>)
    decreases |t|
  {
    s == [] || (t != [] && ((s[0] == t[0] && IsSubsequence(s[1..], t[1..])) || IsSubsequence(s, t[1..])))
  }

  /** The merge step appends candidates in candidate order, each at most once
      per occurrence. */
  lemma {:induction false} AppendNewIdsInOrder(merged: seq<Item>, cands: seq<Item>)
    ensures IsSubsequence(AppendNewIds(merged, cands)[|merged|..], cands)
    decreases |cands|
  {
    var r := AppendNewIds(merged, cands);
    if cands == [] {
      assert r[|merged|..] == [];
    } else {
      var rest := cands[1..];
      if cands[0].id in Ids(merged) {
        assert r == AppendNewIds(merged, rest);
        AppendNewIdsInOrder(merged, rest);
      } else {
        var next := merged + [cands[0]];
        assert r == AppendNewIds(next, rest);
        AppendNewIdsInOrder(next, rest);
        var t := r[|merged|..];
        assert t[0] == r[..|next|][|merged|] == cands[0];
        assert t[1..] == r[|next|..];
      }
    }
  }

  /** Among the candidates whose id is not in `merged`, zIndex rises. */
  predicate FreshRising(merged: seq<Item>, cands: seq<Item>) {
    forall a, b :: 0 <= a < b < |cands| && cands[a].id !in Ids(merged) && cands[b].id !in Ids(merged) ==>
      cands[a].zIndex < cands[b].zIndex
  }

  /** Dropping the first candidate, and possibly taking its id, keeps the
      rising order of the rest. */
  lemma FreshRisingRest(merged: seq<Item>, extra: seq<Item>, cands: seq<Item>)
    requires cands != [] && FreshRising(merged, cands)
    requires Ids(merged + extra) == Ids(merged) + Ids(extra)
    ensures FreshRising(merged + extra, cands[1..])
  {
    var rest := cands[1..];
    forall a, b | 0 <= a < b < |rest| && rest[a].id !in Ids(merged + extra) && rest[b].id !in Ids(merged + extra)
      ensures rest[a].zIndex < rest[b].zIndex
    {
      assert rest[a] == cands[a + 1] && rest[b] == cands[b + 1];
    }
  }

  /** When the candidates with a new id have rising zIndex values, so do the
      appended items. */
  lemma {:induction false} AppendNewIdsAscending(merged: seq<Item>, cands: seq<Item>)
    requires FreshRising(merged, cands)
    ensures Ascending(AppendNewIds(merged, cands)[|merged|..])
    decreases |cands|, 1
  {
    if cands == [] {
      assert AppendNewIds(merged, cands)[|merged|..] == [];
    } else if cands[0].id in Ids(merged) {
      SkippedAscending(merged, cands);
    } else {
      TakenAscending(merged, cands);
    }
  }

  /** The first candidate's id is taken: the rest decides. */
  lemma {:induction false} SkippedAscending(merged: seq<Item>, cands: seq<Item>)
    requires cands != [] && cands[0].id in Ids(merged) && FreshRising(merged, cands)
    ensures Ascending(AppendNewIds(merged, cands)[|merged|..])
    decreases |cands|, 0
  {
    assert merged + [] == merged;
    assert Ids([]) == [];
    FreshRisingRest(merged, [], cands);
    assert AppendNewIds(merged, cands) == AppendNewIds(merged, cands[1..]);
    AppendNewIdsAscending(merged, cands[1..]);
  }

  /** The first candidate is appended, below everything appended after it. */
  lemma {:induction false} TakenAscending(merged: seq<Item>, cands: seq<Item>)
    requires cands != [] && cands[0].id !in Ids(merged) && FreshRising(merged, cands)
    ensures Ascending(AppendNewIds(merged, cands)[|merged|..])
    decreases |cands|, 0
  {
    var next := merged + [cands[0]];
    var t := AppendNewIds(next, cands[1..])[|next|..];
    assert Ids(next) == Ids(merged) + Ids([cands[0]]);
    FreshRisingRest(merged, [cands[0]], cands);
    AppendNewIdsAscending(next, cands[1..]);
    AppendedAbove(merged, cands);
    ConsAscending(cands[0], t);
    TakenSuffix(merged, cands);
  }

  /** What is appended when the first candidate is taken: that candidate,
      then what the rest appends. */
  lemma TakenSuffix(merged: seq<Item>, cands: seq<Item>)
    requires cands != [] && cands[0].id !in Ids(merged)
    ensures var next := merged + [cands[0]];
            AppendNewIds(merged, cands)[|merged|..] == [cands[0]] + AppendNewIds(next, cands[1..])[|next|..]
  {
    TakenStep(merged, cands);
    LastOfPrefix(merged + [cands[0]], AppendNewIds(merged + [cands[0]], cands[1..]));
  }

  /** Taking the first candidate is continuing from the list it joined. */
  lemma TakenStep(merged: seq<Item>, cands: seq<Item>)
    requires cands != [] && cands[0].id !in Ids(merged)
    ensures AppendNewIds(merged, cands) == AppendNewIds(merged + [cands[0]], cands[1..])
  {
  }

  /** A list extending `p` continues, from `p`'s last element on, with that
      element and then the rest of the list. */
  lemma LastOfPrefix(p: seq<Item>, t: seq<Item>)
    requires p != [] && |p| <= |t| && t[..|p|] == p
    ensures t[|p| - 1..] == [p[|p| - 1]] + t[|p|..]
  {
    assert t[|p| - 1] == t[..|p|][|p| - 1];
  }

  /** When the first candidate is appended, everything appended after it has
      a higher zIndex. */
  lemma AppendedAbove(merged: seq<Item>, cands: seq<Item>)
    requires cands != [] && cands[0].id !in Ids(merged) && FreshRising(merged, cands)
    ensures var next := merged + [cands[0]];
            var t := AppendNewIds(next, cands[1..])[|next|..];
            forall k :: 0 <= k < |t| ==> cands[0].zIndex < t[k].zIndex
  {
    var next := merged + [cands[0]];
    var rest := cands[1..];
    var r := AppendNewIds(next, rest);
    assert Ids(next) == Ids(merged) + [cands[0].id];
    forall k | |next| <= k < |r|
      ensures cands[0].zIndex < r[k].zIndex
    {
      var j :| 0 <= j < |rest| && rest[j] == r[k];
      assert cands[j + 1] == r[k];
    }
  }

  /** The `inputImages` effect as React runs it. `newItems` is built against
      `seen`, the items the effect closed over when it was scheduled (the
      existing item for a source found there, else a new item), and merged by
      id into `prev`, the list the state updater receives. The prefix `prev`
      stays; each appended item has a new id and a source from the prop, and
      is either an item of `seen` or has a source `seen` lacks. */
  function MergeEffect(seen: seq<Item>, prev: seq<Item>, images: seq<string>, ids: seq<string>): (r: seq<Item>)
    requires |ids| == |images|
    ensures images == [] ==> r == prev
    ensures |prev| <= |r| && r[..|prev|] == prev
    ensures forall k :: |prev| <= k < |r| ==>
              r[k].id !in Ids(prev) && r[k].src in images && (r[k] in seen || r[k].src !in Srcs(seen))
    ensures IsSubsequence(r[|prev|..], Candidates(seen, images, ids, |images|))
    ensures UniqueIds(prev) ==> UniqueIds(r)
  {
    if images == [] then
      assert prev[|prev|..] == [];
      prev
    else
      var cands := Candidates(seen, images, ids, |images|);
      var r := AppendNewIds(prev, cands);
      AppendNewIdsUnique(prev, cands);
      AppendNewIdsInOrder(prev, cands);
      forall k | |prev| <= k < |r|
        ensures r[k].src in images && (r[k] in seen || r[k].src !in Srcs(seen))
      {
        var j :| 0 <= j < |cands| && cands[j] == r[k];
      }
      r
  }

  /** On mount both effects run in one commit: the snapshot effect queues the
      parsed items, and the image effect, which closed over the empty initial
      list, finds no source on the board and appends to the snapshot. An image
      that is both in the snapshot and in the prop ends up on the board twice. */
  lemma MountEffectCanDuplicateSource()
    ensures var it := Placed("p", "a", 50.0, ImportSize, 1);
            var r := MergeEffect([], [it], ["a"], ["n"]);
            |r| == 2 && r[0].src == r[1].src == "a"
  {
    var it := Placed("p", "a", 50.0, ImportSize, 1);
    var cands := Candidates([], ["a"], ["n"], 1);
    assert Srcs([]) == [];
    assert cands == [ImportedItem("n", "a", 0, 0)];
    assert Ids([it]) == ["p"];
    var next := [it] + [cands[0]];
    assert AppendNewIds([it], cands) == AppendNewIds(next, []);
  }

  /** The `inputImages` effect: for a non-empty list, every entry whose source
      no item has yet gets a new 120 by 120 item (id from the caller, position
      50 + 60 * index, zIndex count + index + 1) unless its id is already
      taken. Earlier items stay, unchanged and in order, and no appended item
      shares a source with them. Entries in one batch are not checked against
      each other. */
  function MergeInputImages(items: seq<Item>, images: seq<string>, ids: seq<string>): (r: seq<Item>)
    requires |ids| == |images|
    ensures images == [] ==> r == items
    ensures |items| <= |r| && r[..|items|] == items
    ensures forall k :: |items| <= k < |r| ==>
              r[k].src !in Srcs(items) && r[k].src in images && r[k].id !in Ids(items)
    ensures UniqueIds(items) ==> UniqueIds(r)
    ensures Ascending(r[|items|..])
  {
    MergeInputImagesAscending(items, images, ids);
    MergeEffect(items, items, images, ids)
  }

  /** A candidate whose id is new is a freshly made item: a source already on
      the board maps to an item of the board, whose id is not new. */
  lemma FreshCandidateIsImport(items: seq<Item>, images: seq<string>, ids: seq<string>, j: nat)
    requires |ids| == |images| && j < |images|
    ensures var c := Candidates(items, images, ids, |images|)[j];
            c.id !in Ids(items) ==> c == ImportedItem(ids[j], images[j], j, |items|)
  {
    assert Candidates(items, images, ids, |images|)[j] == Candidate(items, images[j], ids[j], j);
    FreshCandidateIsNew(items, images[j], ids[j], j);
  }

  /** The same for one candidate. */
  lemma FreshCandidateIsNew(items: seq<Item>, src: string, id: string, index: nat)
    ensures var c := Candidate(items, src, id, index);
            c.id !in Ids(items) ==> c == ImportedItem(id, src, index, |items|)
  {
    if src in Srcs(items) {
      var c := Candidate(items, src, id, index);
      var m :| 0 <= m < |items| && items[m] == c;
      IdAt(items, m);
    }
  }

  /** The new candidates' zIndex values, count + index + 1, rise with the
      entry index. */
  lemma CandidatesFreshRising(items: seq<Item>, images: seq<string>, ids: seq<string>)
    requires |ids| == |images|
    ensures FreshRising(items, Candidates(items, images, ids, |images|))
  {
    var cands := Candidates(items, images, ids, |images|);
    forall a, b | 0 <= a < b < |cands| && cands[a].id !in Ids(items) && cands[b].id !in Ids(items)
      ensures cands[a].zIndex < cands[b].zIndex
    {
      FreshCandidateIsImport(items, images, ids, a);
      FreshCandidateIsImport(items, images, ids, b);
    }
  }

  /** The items the effect appends come in entry order, one per entry. */
  lemma MergeInputImagesAscending(items: seq<Item>, images: seq<string>, ids: seq<string>)
    requires |ids| == |images|
    ensures Ascending(MergeEffect(items, items, images, ids)[|items|..])
  {
    if images == [] {
      assert MergeEffect(items, items, images, ids)[|items|..] == [];
    } else {
      var cands := Candidates(items, images, ids, |images|);
      assert MergeEffect(items, items, images, ids) == AppendNewIds(items, cands);
      CandidatesFreshRising(items, images, ids);
      AppendNewIdsAscending(items, cands);
    }
  }

  /** Every item the effect appends is the new 120 by 120 item made for one
      of the entries: its id, position 50 + 60 * index and zIndex
      count + index + 1. */
  lemma MergeInputImagesAppendsImports(items: seq<Item>, images: seq<string>, ids: seq<string>)
    requires |ids| == |images|
    ensures var r := MergeInputImages(items, images, ids);
            forall k :: |items| <= k < |r| ==>
              exists j :: 0 <= j < |images| && r[k] == ImportedItem(ids[j], images[j], j, |items|)
  {
    var r := MergeInputImages(items, images, ids);
    if images != [] {
      var cands := Candidates(items, images, ids, |images|);
      assert r == AppendNewIds(items, cands);
      forall k | |items| <= k < |r|
        ensures exists j :: 0 <= j < |images| && r[k] == ImportedItem(ids[j], images[j], j, |items|)
      {
        var j :| 0 <= j < |cands| && cands[j] == r[k];
        FreshCandidateIsImport(items, images, ids, j);
      }
    }
  }

  /** With ids that are fresh and pairwise distinct, as the timestamped ids
      are, every source the prop names is on the board after the effect. */
  lemma MergeImportsEverySource(items: seq<Item>, images: seq<string>, ids: seq<string>)
    requires |ids| == |images|
    requires forall j :: 0 <= j < |ids| ==> ids[j] !in Ids(items)
    requires forall i, j :: 0 <= i < j < |ids| ==> ids[i] != ids[j]
    ensures forall j :: 0 <= j < |images| ==> images[j] in Srcs(MergeInputImages(items, images, ids))
  {
    var r := MergeInputImages(items, images, ids);
    if images != [] {
      var cands := Candidates(items, images, ids, |images|);
      assert r == AppendNewIds(items, cands);
      forall j | 0 <= j < |images|
        ensures images[j] in Srcs(r)
      {
        if images[j] in Srcs(items) {
          var m :| 0 <= m < |items| && Srcs(items)[m] == images[j];
          assert r[m] == r[..|items|][m] == items[m];
          assert Srcs(r)[m] == images[j];
        } else {
          NewSourceDistinctId(items, images, ids, j);
          AppendNewIdsKeeps(items, cands, j);
          var m :| 0 <= m < |r| && r[m] == cands[j];
          assert Srcs(r)[m] == images[j];
        }
      }
    }
  }

  /** With fresh, pairwise distinct ids, the candidate for a source the board
      lacks carries an id no earlier candidate carries. */
  lemma NewSourceDistinctId(items: seq<Item>, images: seq<string>, ids: seq<string>, j: nat)
    requires |ids| == |images| && j < |images|
    requires forall j :: 0 <= j < |ids| ==> ids[j] !in Ids(items)
    requires forall i, j :: 0 <= i < j < |ids| ==> ids[i] != ids[j]
    requires images[j] !in Srcs(items)
    ensures var cands := Candidates(items, images, ids, |images|);
      cands[j].id !in Ids(items) && forall i :: 0 <= i < j ==> cands[i].id != cands[j].id
  {
    var cands := Candidates(items, images, ids, |images|);
    forall i | 0 <= i < j
      ensures cands[i].id != cands[j].id
    {
      if images[i] in Srcs(items) {
        var m :| 0 <= m < |items| && items[m] == cands[i];
        IdAt(items, m);
      }
    }
  }

  /** Every entry of the prop names a source the board holds. */
  predicate AllImported(items: seq<Item>, images: seq<string>) {
    forall j :: 0 <= j < |images| ==> images[j] in Srcs(items)
  }

  /** Once all sources are on the board the effect adds nothing. */
  lemma {:induction false} MergeAllPresentAddsNothing(items: seq<Item>, images: seq<string>, ids: seq<string>)
    requires |ids| == |images| && AllImported(items, images)
    ensures MergeInputImages(items, images, ids) == items
  {
    if images != [] {
      var cands := Candidates(items, images, ids, |images|);
      assert MergeInputImages(items, images, ids) == AppendNewIds(items, cands);
      forall j | 0 <= j < |cands|
        ensures cands[j].id in Ids(items)
      {
        var m :| 0 <= m < |items| && items[m] == cands[j];
        assert Ids(items)[m] == cands[j].id;
      }
      AppendKnownIds(items, cands);
    }
  }

  lemma {:induction false} AppendKnownIds(merged: seq<Item>, cands: seq<Item>)
    requires forall j :: 0 <= j < |cands| ==> cands[j].id in Ids(merged)
    ensures AppendNewIds(merged, cands) == merged
    decreases |cands|
  {
    if cands != [] {
      AppendKnownIds(merged, cands[1..]);
    }
  }

  /** Two entries with the same new source in one batch both become items. */
  lemma SameBatchNotDeduplicated()
    ensures |MergeInputImages([], ["a", "a"], ["i0", "i1"])| == 2
  {
    var cands := Candidates([], ["a", "a"], ["i0", "i1"], 2);
    assert cands[0].id == "i0" && cands[1].id == "i1";
    var step := [] + [cands[0]];
    assert Ids(step) == ["i0"];
    assert AppendNewIds(step, cands[1..]) == step + [cands[1]];
  }
}
