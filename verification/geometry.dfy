/** The pointer-session arithmetic of the single-file board controller: grid
    snapping, the drag clamp, the aspect-locked resize with its 50-unit floor
    and board-edge cap, and rotation composed onto the item's rotation. */
module Geometry {
  import opened Base

  /** The board's configuration props. */
  datatype Config = Config(boardWidth: real, boardHeight: real, gridEnabled: bool, gridSize: real)

  /** Defaults of the single-file controller: a 350 by 450 board, grid off, size 20. */
  const DefaultConfig: Config := Config(350.0, 450.0, false, 20.0)

  /** The size floor used by resize and by the canvas view. */
  const MinSize: real := 50.0

  /** Rotation snaps to this many degrees (only when the grid is enabled). */
  const RotationStep: real := 15.0

  /** A grid size of zero would divide by zero inside snapToGrid. */
  predicate ValidConfig(c: Config) {
    c.gridEnabled ==> c.gridSize != 0.0
  }

  /** snapToGrid: identity with the grid off; otherwise the nearest multiple of
      the grid size (`Math.round(value / gridSize) * gridSize`). */
  function Snap(v: real, g: real, enabled: bool): (r: real)
    requires enabled ==> g != 0.0
    ensures !enabled ==> r == v
    ensures enabled ==> IsMultipleOf(r, g)
    ensures enabled ==> Abs(r - v) <= Abs(g) / 2.0
    ensures enabled ==> v / g - 0.5 < r / g <= v / g + 0.5
  {
    if !enabled then v
    else
      var k := Round(v / g);
      MultipleIsMultiple(k, g);
      NearestMultiple(v, g, k);
      k as real * g
  }

  lemma MultipleIsMultiple(k: int, g: real)
    requires g != 0.0
    ensures (k as real * g) / g == k as real
    ensures IsMultipleOf(k as real * g, g)
  {
  }

  /** Rounding v / g to k leaves k * g within half a grid step of v. */
  lemma NearestMultiple(v: real, g: real, k: int)
    requires g != 0.0
    requires v / g - 0.5 < k as real <= v / g + 0.5
    ensures Abs(k as real * g - v) <= Abs(g) / 2.0
  {
    var t := v / g;
    assert v == t * g;
    var e := k as real - t;
    assert -0.5 < e <= 0.5;
    assert k as real * g - v == e * g;
    if g > 0.0 {
      assert -0.5 * g <= e * g <= 0.5 * g;
    } else {
      assert 0.5 * g <= e * g <= -0.5 * g;
    }
  }

  /** Snapping twice is snapping once. */
  lemma SnapIdempotent(v: real, g: real, enabled: bool)
    requires enabled ==> g != 0.0
    ensures Snap(Snap(v, g, enabled), g, enabled) == Snap(v, g, enabled)
  {
    if enabled {
      var k := Round(v / g);
      assert Snap(v, g, enabled) == k as real * g;
      SnapOfMultiple(k, g);
    }
  }

  /** A multiple of the step is already on the grid. */
  lemma SnapOfMultiple(k: int, g: real)
    requires g != 0.0
    ensures Snap(k as real * g, g, true) == k as real * g
  {
    MultipleIsMultiple(k, g);
    assert Round(k as real) == k;
    assert Snap(k as real * g, g, true) == Round(k as real) as real * g;
  }

  /** A value exactly half a step between two multiples goes to the upper
      one, as `Math.round` rounds halves up: on a 20-unit grid 30 becomes 40
      and -30 becomes -20; 7.5 degrees becomes 15. */
  lemma SnapRoundsHalfUp()
    ensures Snap(30.0, 20.0, true) == 40.0
    ensures Snap(-30.0, 20.0, true) == -20.0
    ensures Snap(7.5, RotationStep, true) == 15.0
  {
    assert Round(30.0 / 20.0) == 2;
    assert Round(-30.0 / 20.0) == -1;
    assert Round(7.5 / RotationStep) == 1;
  }

  /** `Math.max(0, Math.min(v, limit))`. */
  function ClampToBoard(v: real, limit: real): (r: real)
    ensures 0.0 <= r <= Max(0.0, limit)
    ensures 0.0 <= v <= limit ==> r == v
    ensures v < 0.0 ==> r == 0.0
    ensures v > limit ==> r == Max(0.0, limit)
  {
    Max(0.0, Min(v, limit))
  }

  /** One axis of a drag move: the pointer minus the grab offset, snapped,
      then kept on the board (`limit` is board size minus item size). */
  function DragAxis(c: Config, pointer: real, offset: real, limit: real): (r: real)
    requires ValidConfig(c)
    ensures 0.0 <= r <= Max(0.0, limit)
    ensures var s := Snap(pointer - offset, c.gridSize, c.gridEnabled);
            (0.0 <= s <= limit ==> r == s)
            && (s < 0.0 ==> r == 0.0)
            && (s > limit ==> r == Max(0.0, limit))
  {
    ClampToBoard(Snap(pointer - offset, c.gridSize, c.gridEnabled), limit)
  }

  /** A 200 by 200 item on a 640 by 480 board dragged far past the corner
      stops at (440, 280). */
  lemma DragClampExample()
    ensures var c := Config(640.0, 480.0, false, 20.0);
            DragAxis(c, 1000.0, 0.0, 640.0 - 200.0) == 440.0
            && DragAxis(c, 1000.0, 0.0, 480.0 - 200.0) == 280.0
  {
  }

  /** A width/height pair. */
  datatype Size = Size(width: real, height: real)

  /** The aspect-locked resize before snapping and capping: the width follows
      the pointer (never below 50) and the height follows the start aspect
      ratio; when that height would drop under 50 the height is pinned at 50
      and the width recomputed from it. The vertical pointer delta plays no
      part. */
  function KeepAspect(startWidth: real, startHeight: real, deltaX: real): (r: Size)
    requires startWidth != 0.0 && startHeight != 0.0
    ensures startWidth > 0.0 && startHeight > 0.0 ==>
              r.width >= MinSize && r.height >= MinSize
              && r.width * startHeight == r.height * startWidth
    ensures startWidth > 0.0 && startHeight > 0.0 ==>
              var w := Max(MinSize, startWidth + deltaX);
              r.width >= w && (r.width == w || r.height == MinSize)
  {
    var aspect := startWidth / startHeight;
    var w := Max(MinSize, startWidth + deltaX);
    KeepAspectPositive(startWidth, startHeight, w);
    if w / aspect < MinSize then Size(MinSize * aspect, MinSize) else Size(w, w / aspect)
  }

  lemma KeepAspectPositive(sw: real, sh: real, w: real)
    requires sw != 0.0 && sh != 0.0
    ensures sw / sh != 0.0
    ensures var a := sw / sh;
            sw > 0.0 && sh > 0.0 && w >= MinSize ==>
              a > 0.0
              && (w / a < MinSize ==> MinSize * a >= MinSize && MinSize * a > w
                                      && (MinSize * a) * sh == MinSize * sw)
              && (w / a >= MinSize ==> w * sh == (w / a) * sw)
  {
    var a := sw / sh;
    assert a * sh == sw;
    if sw > 0.0 && sh > 0.0 && w >= MinSize {
      if w / a < MinSize {
        assert w < MinSize * a;
        assert MinSize * a >= MinSize;
      } else {
        assert (w / a) * a == w;
        assert (w / a) * sw == (w / a) * a * sh;
      }
    }
  }

  /** Start (200, 100), pointer 50 to the right: (250, 125). */
  lemma KeepAspectExample()
    ensures KeepAspect(200.0, 100.0, 50.0) == Size(250.0, 125.0)
  {
  }

  /** A resize move: KeepAspect, then both sides snapped, then each capped so
      the item's right and bottom edges stay on the board. */
  function ResizeTo(c: Config, x: real, y: real, startWidth: real, startHeight: real,
                    deltaX: real): (r: Size)
    requires ValidConfig(c) && startWidth != 0.0 && startHeight != 0.0
    ensures x + r.width <= c.boardWidth && y + r.height <= c.boardHeight
    ensures var k := KeepAspect(startWidth, startHeight, deltaX);
            var sw := Snap(k.width, c.gridSize, c.gridEnabled);
            var sh := Snap(k.height, c.gridSize, c.gridEnabled);
            (x + sw <= c.boardWidth ==> r.width == sw)
            && (y + sh <= c.boardHeight ==> r.height == sh)
            && (x + sw > c.boardWidth ==> r.width == c.boardWidth - x)
            && (y + sh > c.boardHeight ==> r.height == c.boardHeight - y)
  {
    var k := KeepAspect(startWidth, startHeight, deltaX);
    var w := Snap(k.width, c.gridSize, c.gridEnabled);
    var h := Snap(k.height, c.gridSize, c.gridEnabled);
    Size(Min(w, c.boardWidth - x), Min(h, c.boardHeight - y))
  }

  /** The 50-unit floor does not survive snapping: with a 40-unit grid a
      50 by 50 start becomes 40 by 40. */
  lemma ResizeSnapBreaksFloor()
    ensures ResizeTo(Config(640.0, 480.0, true, 40.0), 0.0, 0.0, 50.0, 50.0, 0.0)
            == Size(40.0, 40.0)
  {
    assert KeepAspect(50.0, 50.0, 0.0) == Size(50.0, 50.0);
    assert Round(50.0 / 40.0) == 1;
  }

  /** The rotation-start offset recorded on pointer-down: the pointer's angle
      about the item centre minus the item's current rotation. */
  function RotationOffset(startAngle: real, rotation: real): (offset: real)
    ensures startAngle - offset == rotation
  {
    startAngle - rotation
  }

  /** A rotate move: the pointer's angle minus the recorded offset, snapped to
      15 degrees only when the grid is enabled; never normalised to [0, 360). */
  function RotateTo(c: Config, angle: real, offset: real): (r: real)
    ensures !c.gridEnabled ==> r == angle - offset
    ensures c.gridEnabled ==> IsMultipleOf(r, RotationStep)
    ensures c.gridEnabled ==> Abs(r - (angle - offset)) <= RotationStep / 2.0
    ensures c.gridEnabled ==>
              (angle - offset) / RotationStep - 0.5 < r / RotationStep <= (angle - offset) / RotationStep + 0.5
  {
    Snap(angle - offset, RotationStep, c.gridEnabled)
  }

  /** With the grid off a rotation session adds the change in pointer angle to
      the rotation the item had when the session began; an unmoved pointer
      leaves it as it was. */
  lemma RotationComposes(c: Config, rotation0: real, angle0: real, angle: real)
    requires !c.gridEnabled
    ensures RotateTo(c, angle, RotationOffset(angle0, rotation0)) == rotation0 + (angle - angle0)
    ensures RotateTo(c, angle0, RotationOffset(angle0, rotation0)) == rotation0
  {
  }
}
