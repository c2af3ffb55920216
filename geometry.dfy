/** Axis-aligned boxes: an object is a centre position and a full size per axis,
    its bounding box is position +/- size/2 (objects are never rotated). */
module Geometry {

  datatype Vec3 = Vec3(x: real, y: real, z: real)

  /** A piece of furniture: `pos` is the centre, `size` the full extent per axis. */
  datatype Box = Box(pos: Vec3, size: Vec3)

  function Abs(v: real): real { if v < 0.0 then -v else v }

  function MinX(b: Box): real { b.pos.x - b.size.x / 2.0 }
  function MaxX(b: Box): real { b.pos.x + b.size.x / 2.0 }
  function MinZ(b: Box): real { b.pos.z - b.size.z / 2.0 }
  function MaxZ(b: Box): real { b.pos.z + b.size.z / 2.0 }
  /** The bottom and top faces (`min.y`, `max.y` of the bounding box). */
  function Bottom(b: Box): real { b.pos.y - b.size.y / 2.0 }
  function Top(b: Box): real { b.pos.y + b.size.y / 2.0 }

  /** Box3.intersectsBox: closed intervals on all three axes, so touching faces intersect. */
  predicate Intersects(a: Box, b: Box) {
    !(MaxX(b) < MinX(a) || MinX(b) > MaxX(a) ||
      Top(b) < Bottom(a) || Bottom(b) > Top(a) ||
      MaxZ(b) < MinZ(a) || MinZ(b) > MaxZ(a))
  }

  /** The footprint test written out in the stacking rebuild: open intervals on X and Z,
      so boxes that only touch along an edge do not overlap. */
  predicate FootprintsOverlap(a: Box, b: Box) {
    MinX(a) < MaxX(b) && MaxX(a) > MinX(b) && MinZ(a) < MaxZ(b) && MaxZ(a) > MinZ(b)
  }

  /** `position.x += d.x` and so on: a rigid move that keeps the size. */
  function Translate(b: Box, d: Vec3): Box {
    Box(Vec3(b.pos.x + d.x, b.pos.y + d.y, b.pos.z + d.z), b.size)
  }

  /** THREE.MathUtils.clamp, that is max(lo, min(hi, v)). */
  function Clamp(v: real, lo: real, hi: real): real {
    var m := if hi < v then hi else v;
    if lo > m then lo else m
  }

  /** A clamp with an ordered range stays inside it and is the identity inside it. */
  lemma ClampInRange(v: real, lo: real, hi: real)
    requires lo <= hi
    ensures lo <= Clamp(v, lo, hi) <= hi
    ensures lo <= v <= hi ==> Clamp(v, lo, hi) == v
    ensures v < lo ==> Clamp(v, lo, hi) == lo
    ensures v > hi ==> Clamp(v, lo, hi) == hi
  {
  }

  /** With an empty range (lo > hi) the clamp always answers lo, whatever v is. */
  lemma ClampEmptyRange(v: real, lo: real, hi: real)
    requires lo > hi
    ensures Clamp(v, lo, hi) == lo
  {
  }
}
