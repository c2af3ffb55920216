/** One drag update: clamp the floor point into the room, find the support height, and
    translate the selected object's whole stack onto it unless the change is noise. */
module Movement {
  import opened Geometry
  import opened Support

  /** The square room is 10 units wide, centred on the origin. */
  const RoomSize: real := 10.0
  /** A drag step is applied only if some component of the move exceeds this. */
  const MoveThreshold: real := 0.001

  /** The requested coordinate, clamped so that a box of this full extent stays inside the room. */
  function ClampToRoom(v: real, extent: real): real {
    Clamp(v, -(RoomSize / 2.0) + extent / 2.0, RoomSize / 2.0 - extent / 2.0)
  }

  /** The selected box's bounding box moved horizontally to the clamped point, at its current height. */
  function Probe(b: Box, cx: real, cz: real): Box {
    Translate(b, Vec3(cx - b.pos.x, 0.0, cz - b.pos.z))
  }

  /** The move the drag asks for: from the selected box's centre to (clampedX,
      highestY + height/2, clampedZ). */
  function DragDelta(boxes: seq<Box>, stack: set<int>, sel: int, ix: real, iz: real): Vec3
    requires 0 <= sel < |boxes|
  {
    var b := boxes[sel];
    var cx := ClampToRoom(ix, b.size.x);
    var cz := ClampToRoom(iz, b.size.z);
    var highestY := SupportHeight(boxes, stack, Probe(b, cx, cz));
    Vec3(cx - b.pos.x, highestY + b.size.y / 2.0 - b.pos.y, cz - b.pos.z)
  }

  predicate ExceedsThreshold(d: Vec3) {
    Abs(d.x) > MoveThreshold || Abs(d.y) > MoveThreshold || Abs(d.z) > MoveThreshold
  }

  /** moveEntireStack on positions: every member of `stack` moves by d, nothing else moves. */
  function TranslateStack(boxes: seq<Box>, stack: set<int>, d: Vec3): seq<Box> {
    seq(|boxes|, i requires 0 <= i < |boxes| => if i in stack then Translate(boxes[i], d) else boxes[i])
  }

  /** The arena after one pointer-move event with the given floor point. */
  function DragResult(boxes: seq<Box>, stack: set<int>, sel: int, ix: real, iz: real): seq<Box>
    requires 0 <= sel < |boxes|
  {
    var d := DragDelta(boxes, stack, sel, ix, iz);
    if ExceedsThreshold(d) then TranslateStack(boxes, stack, d) else boxes
  }

  /** Clamping with an extent no wider than the room keeps the box's extent inside the room. */
  lemma ClampKeepsExtentInRoom(v: real, extent: real)
    requires extent <= RoomSize
    ensures -(RoomSize / 2.0) <= ClampToRoom(v, extent) - extent / 2.0
    ensures ClampToRoom(v, extent) + extent / 2.0 <= RoomSize / 2.0
  {
    ClampInRange(v, -(RoomSize / 2.0) + extent / 2.0, RoomSize / 2.0 - extent / 2.0);
  }

  /** A box wider than the room is pinned to the left wall and sticks out on the right. */
  lemma ClampOfOversizedBox(v: real, extent: real)
    requires extent > RoomSize
    ensures ClampToRoom(v, extent) - extent / 2.0 == -(RoomSize / 2.0)
    ensures ClampToRoom(v, extent) + extent / 2.0 > RoomSize / 2.0
  {
    ClampEmptyRange(v, -(RoomSize / 2.0) + extent / 2.0, RoomSize / 2.0 - extent / 2.0);
  }

  /** Rigid translation: stack members move by exactly d, every other box is unchanged,
      sizes never change, and so offsets between stack members are preserved. */
  lemma TranslateStackIsRigid(boxes: seq<Box>, stack: set<int>, d: Vec3)
    ensures |TranslateStack(boxes, stack, d)| == |boxes|
    ensures forall i :: 0 <= i < |boxes| ==> TranslateStack(boxes, stack, d)[i].size == boxes[i].size
    ensures forall i :: 0 <= i < |boxes| && i !in stack ==> TranslateStack(boxes, stack, d)[i] == boxes[i]
    ensures forall i :: 0 <= i < |boxes| && i in stack ==>
              TranslateStack(boxes, stack, d)[i].pos ==
                Vec3(boxes[i].pos.x + d.x, boxes[i].pos.y + d.y, boxes[i].pos.z + d.z)
    ensures forall i, j :: 0 <= i < |boxes| && 0 <= j < |boxes| && i in stack && j in stack ==>
              var r := TranslateStack(boxes, stack, d);
              && r[i].pos.x - r[j].pos.x == boxes[i].pos.x - boxes[j].pos.x
              && r[i].pos.y - r[j].pos.y == boxes[i].pos.y - boxes[j].pos.y
              && r[i].pos.z - r[j].pos.z == boxes[i].pos.z - boxes[j].pos.z
  {
  }

  /** Below the noise threshold on every axis, a drag event changes nothing. */
  lemma SmallDragIsIgnored(boxes: seq<Box>, stack: set<int>, sel: int, ix: real, iz: real)
    requires 0 <= sel < |boxes|
    requires var d := DragDelta(boxes, stack, sel, ix, iz);
      Abs(d.x) <= MoveThreshold && Abs(d.y) <= MoveThreshold && Abs(d.z) <= MoveThreshold
    ensures DragResult(boxes, stack, sel, ix, iz) == boxes
  {
  }

  /** After an applied drag the selected box sits at the clamped point with its bottom on
      the support height, its footprint inside the room when it fits, and every stack
      member moved by the same delta. */
  lemma DragPlacesSelectedBox(boxes: seq<Box>, stack: set<int>, sel: int, ix: real, iz: real)
    requires 0 <= sel < |boxes| && sel in stack
    requires ExceedsThreshold(DragDelta(boxes, stack, sel, ix, iz))
    ensures var b := boxes[sel];
      var r := DragResult(boxes, stack, sel, ix, iz)[sel];
      var cx := ClampToRoom(ix, b.size.x);
      var cz := ClampToRoom(iz, b.size.z);
      && r.size == b.size
      && r.pos.x == cx && r.pos.z == cz
      && Bottom(r) == SupportHeight(boxes, stack, Probe(b, cx, cz))
      && Bottom(r) >= 0.0
      && (b.size.x <= RoomSize ==> -(RoomSize / 2.0) <= MinX(r) && MaxX(r) <= RoomSize / 2.0)
      && (b.size.z <= RoomSize ==> -(RoomSize / 2.0) <= MinZ(r) && MaxZ(r) <= RoomSize / 2.0)
    ensures var d := DragDelta(boxes, stack, sel, ix, iz);
      forall i :: 0 <= i < |boxes| && i in stack ==>
        DragResult(boxes, stack, sel, ix, iz)[i].pos ==
          Vec3(boxes[i].pos.x + d.x, boxes[i].pos.y + d.y, boxes[i].pos.z + d.z)
  {
    var b := boxes[sel];
    var cx := ClampToRoom(ix, b.size.x);
    var cz := ClampToRoom(iz, b.size.z);
    SupportHeightIsHighestTop(boxes, stack, Probe(b, cx, cz), |boxes|);
    if b.size.x <= RoomSize {
      ClampKeepsExtentInRoom(ix, b.size.x);
    }
    if b.size.z <= RoomSize {
      ClampKeepsExtentInRoom(iz, b.size.z);
    }
  }

  /** The support height of a drag does not depend on where the stack members are: moving
      them (and only them) leaves the target height unchanged. */
  lemma DragIgnoresOwnStack(b1: seq<Box>, b2: seq<Box>, stack: set<int>, probe: Box)
    requires |b1| == |b2|
    requires forall t :: 0 <= t < |b1| && t !in stack ==> b1[t] == b2[t]
    ensures SupportHeight(b1, stack, probe) == SupportHeight(b2, stack, probe)
  {
    SupportHeightOnlyReadsTargets(b1, b2, stack, probe, |b1|);
  }

  /** A unit cube centred at (x, y, z). */
  function UnitCube(x: real, y: real, z: real): Box {
    Box(Vec3(x, y, z), Vec3(1.0, 1.0, 1.0))
  }

  /** The probe keeps the selected box's current height, so where the selected box is
      when the event arrives matters. A unit cube resting on the floor at the origin
      supports a unit box dragged onto it from floor level: the support height is 1. */
  lemma DragFromFloorLevelLandsOnCube()
    ensures SupportHeight([UnitCube(0.0, 0.5, 0.0), UnitCube(3.0, 0.5, 0.0)], {1},
                          Probe(UnitCube(3.0, 0.5, 0.0), 0.0, 0.0)) == 1.0
  {
    var boxes := [UnitCube(0.0, 0.5, 0.0), UnitCube(3.0, 0.5, 0.0)];
    var probe := Probe(boxes[1], 0.0, 0.0);
    assert probe == boxes[0];
    assert IsTarget(boxes, {1}, probe, 0) && !IsTarget(boxes, {1}, probe, 1);
    assert SupportHeightUpTo(boxes, {1}, probe, 1) == 1.0;
  }

  /** The same box dragged from a height of 5.5: its probe does not reach the cube's Y
      range, and the support height is the floor. */
  lemma DragFromAboveMissesCube()
    ensures SupportHeight([UnitCube(0.0, 0.5, 0.0), UnitCube(3.0, 5.5, 0.0)], {1},
                          Probe(UnitCube(3.0, 5.5, 0.0), 0.0, 0.0)) == 0.0
  {
    var boxes := [UnitCube(0.0, 0.5, 0.0), UnitCube(3.0, 5.5, 0.0)];
    var probe := Probe(boxes[1], 0.0, 0.0);
    assert probe == UnitCube(0.0, 5.5, 0.0);
    assert !IsTarget(boxes, {1}, probe, 0) && !IsTarget(boxes, {1}, probe, 1);
    assert SupportHeightUpTo(boxes, {1}, probe, 1) == 0.0;
  }

  /** The move that drag asks for: down by 5 and across by 3, onto the floor. */
  lemma DragFromAboveDelta()
    ensures DragDelta([UnitCube(0.0, 0.5, 0.0), UnitCube(3.0, 5.5, 0.0)], {1}, 1, 0.0, 0.0)
              == Vec3(-3.0, -5.0, 0.0)
  {
    var boxes := [UnitCube(0.0, 0.5, 0.0), UnitCube(3.0, 5.5, 0.0)];
    var b := boxes[1];
    assert ClampToRoom(0.0, b.size.x) == 0.0 && ClampToRoom(0.0, b.size.z) == 0.0;
    DragFromAboveMissesCube();
    assert SupportHeight(boxes, {1}, Probe(b, 0.0, 0.0)) == 0.0;
  }

  /** So the box dragged from above is placed at the cube's own position, overlapping it:
      nothing in the drag prevents interpenetration. */
  lemma DragFromAboveInterpenetrates()
    ensures DragResult([UnitCube(0.0, 0.5, 0.0), UnitCube(3.0, 5.5, 0.0)], {1}, 1, 0.0, 0.0)[1]
              == UnitCube(0.0, 0.5, 0.0)
  {
    var boxes := [UnitCube(0.0, 0.5, 0.0), UnitCube(3.0, 5.5, 0.0)];
    DragFromAboveDelta();
    var d := Vec3(-3.0, -5.0, 0.0);
    assert ExceedsThreshold(d);
    assert TranslateStack(boxes, {1}, d)[1] == Translate(boxes[1], d);
  }
}
