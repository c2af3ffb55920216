/** The support height used while dragging: the highest top face among the boxes the
    translated selected box would intersect, the selected stack excepted, or the floor. */
module Support {
  import opened Geometry

  /** Box t is a collision target for `probe`: not in the selected stack, and
      Box3.intersectsBox holds between the probe and it. */
  predicate IsTarget(boxes: seq<Box>, stack: set<int>, probe: Box, t: int) {
    0 <= t < |boxes| && t !in stack && Intersects(probe, boxes[t])
  }

  /** `highestY` after visiting the first k boxes: starts at the floor (0) and is raised
      by a target top only when that top is strictly higher. */
  function SupportHeightUpTo(boxes: seq<Box>, stack: set<int>, probe: Box, k: nat): real
    requires k <= |boxes|
  {
    if k == 0 then 0.0
    else
      var h := SupportHeightUpTo(boxes, stack, probe, k - 1);
      if IsTarget(boxes, stack, probe, k - 1) && Top(boxes[k - 1]) > h then Top(boxes[k - 1]) else h
  }

  function SupportHeight(boxes: seq<Box>, stack: set<int>, probe: Box): real {
    SupportHeightUpTo(boxes, stack, probe, |boxes|)
  }

  /** The support height is the maximum of the floor (0) and the tops of all targets:
      at least 0, at least every target top, and either 0 or some target's top. */
  lemma {:induction false} SupportHeightIsHighestTop(boxes: seq<Box>, stack: set<int>, probe: Box, k: nat)
    requires k <= |boxes|
    ensures SupportHeightUpTo(boxes, stack, probe, k) >= 0.0
    ensures forall t :: 0 <= t < k && IsTarget(boxes, stack, probe, t) ==>
                          Top(boxes[t]) <= SupportHeightUpTo(boxes, stack, probe, k)
    ensures SupportHeightUpTo(boxes, stack, probe, k) == 0.0 ||
            exists t :: 0 <= t < k && IsTarget(boxes, stack, probe, t) &&
                        Top(boxes[t]) == SupportHeightUpTo(boxes, stack, probe, k)
  {
    if k > 0 {
      SupportHeightIsHighestTop(boxes, stack, probe, k - 1);
    }
  }

  /** Only targets matter: two arenas of the same length that agree on which boxes are
      targets, and on the tops of those targets, have the same support height. In
      particular members of the stack, and boxes the probe does not intersect, are
      never consulted, wherever they are. */
  lemma {:induction false} SupportHeightOnlyReadsTargets(b1: seq<Box>, b2: seq<Box>, stack: set<int>, probe: Box, k: nat)
    requires |b1| == |b2| && k <= |b1|
    requires forall t :: 0 <= t < |b1| ==>
               IsTarget(b1, stack, probe, t) == IsTarget(b2, stack, probe, t)
    requires forall t :: 0 <= t < |b1| && IsTarget(b1, stack, probe, t) ==> Top(b1[t]) == Top(b2[t])
    ensures SupportHeightUpTo(b1, stack, probe, k) == SupportHeightUpTo(b2, stack, probe, k)
  {
    if k > 0 {
      SupportHeightOnlyReadsTargets(b1, b2, stack, probe, k - 1);
    }
  }

  /** The collision loop of the drag handler: every box that is not in `stack` and that
      the probe intersects may raise `highestY` to its top. */
  method HighestSupport(boxes: seq<Box>, stack: set<int>, probe: Box) returns (highestY: real)
    ensures highestY == SupportHeight(boxes, stack, probe)
    ensures highestY >= 0.0
    ensures forall t :: IsTarget(boxes, stack, probe, t) ==> Top(boxes[t]) <= highestY
    ensures highestY == 0.0 || exists t :: IsTarget(boxes, stack, probe, t) && Top(boxes[t]) == highestY
  {
    highestY := 0.0;
    for i := 0 to |boxes|
      invariant highestY == SupportHeightUpTo(boxes, stack, probe, i)
    {
      if i !in stack {
        var target := boxes[i];
        if Intersects(probe, target) {
          var targetTopY := Top(target);
          if targetTopY > highestY {
            highestY := targetTopY;
          }
        }
      }
    }
    SupportHeightIsHighestTop(boxes, stack, probe, |boxes|);
  }
}
