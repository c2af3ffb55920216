/** The scene manager's placement engine: the furniture arena, the drag session (which
    object is selected, whether the camera controls are enabled) and the two stacking
    maps, rebuilt from scratch on pick and on release. */
module Scene {
  import opened Optional
  import opened Geometry
  import opened Support
  import opened Stacking
  import opened Movement

  class SceneManager {
    /** The furniture group's children, identified by their index. */
    var boxes: seq<Box>
    /** Idle when None, Dragging the given object when Some. */
    var selectedObject: Option<int>
    /** Whether the camera orbit controls react to the pointer. */
    var controlsEnabled: bool
    /** Child -> parent. */
    var objectRelationships: map<int, int>
    /** Parent -> the children resting on it, in the order they were attached. */
    var childObjects: map<int, seq<int>>
    /** Proof device for acyclicity: every child is deeper than its parent. */
    ghost var depth: map<int, nat>
    ghost var depthBound: nat

    ghost function Relations(): Graph
      reads this`objectRelationships, this`childObjects, this`depth, this`depthBound
    {
      Graph(objectRelationships, childObjects, depth, depthBound)
    }

    ghost predicate GraphValid()
      reads this`boxes, this`objectRelationships, this`childObjects, this`depth, this`depthBound
    {
      WellFormed(|boxes|, Relations())
    }

    /** The drag session: a selection is a real object, and the camera controls are
        enabled exactly when nothing is selected. */
    ghost predicate Valid()
      reads this
    {
      (selectedObject.Some? ==> 0 <= selectedObject.value < |boxes|) &&
      (controlsEnabled <==> selectedObject.None?) &&
      GraphValid()
    }

    /** The maps are exactly what a rebuild from the current positions yields. */
    ghost predicate InSync()
      reads this`boxes, this`objectRelationships, this`childObjects, this`depth, this`depthBound
    {
      Relations() == Rebuilt(boxes)
    }

    constructor (furniture: seq<Box>)
      ensures boxes == furniture && selectedObject.None? && controlsEnabled
      ensures Valid() && InSync()
    {
      boxes := furniture;
      selectedObject := None;
      controlsEnabled := true;
      objectRelationships := map[];
      childObjects := map[];
      depth := map[];
      depthBound := 1;
      new;
      UpdateObjectRelationships();
    }

    /** Pointer down: a pick that hits an object starts a drag, disables the camera
        controls and rebuilds the stacking maps; a miss changes nothing. */
    method OnPointerDown(pick: Option<int>)
      requires Valid()
      requires pick.Some? ==> 0 <= pick.value < |boxes|
      modifies this
      ensures Valid() && boxes == old(boxes)
      ensures pick.None? ==> unchanged(this)
      ensures pick.Some? ==> selectedObject == pick && !controlsEnabled && InSync()
    {
      if pick.Some? {
        controlsEnabled := false;
        selectedObject := pick;
        UpdateObjectRelationships();
      }
    }

    /** Pointer move while dragging: the selected object's stack is moved as one drag
        step (see DragResult); while idle nothing happens. The stacking maps are not
        touched. */
    method OnPointerMove(ix: real, iz: real)
      requires Valid()
      modifies this`boxes
      ensures Valid()
      ensures old(selectedObject).None? ==> boxes == old(boxes)
      ensures selectedObject.Some? ==>
                boxes == DragResult(old(boxes), StackOf(Relations(), selectedObject.value),
                                    selectedObject.value, ix, iz)
    {
      if selectedObject.Some? {
        var sel := selectedObject.value;
        var selectedObjectSize := boxes[sel].size;
        var halfRoomSize := RoomSize / 2.0;
        var px := Clamp(ix, -halfRoomSize + selectedObjectSize.x / 2.0, halfRoomSize - selectedObjectSize.x / 2.0);
        var pz := Clamp(iz, -halfRoomSize + selectedObjectSize.z / 2.0, halfRoomSize - selectedObjectSize.z / 2.0);

        var selectedObjectBBox := boxes[sel];
        var objectsInStack := GetObjectsInStack(sel);
        var tempBBox := Translate(selectedObjectBBox, Vec3(px - boxes[sel].pos.x, 0.0, pz - boxes[sel].pos.z));
        var highestY := HighestSupport(boxes, objectsInStack, tempBBox);

        var targetX := px;
        var targetZ := pz;
        var targetY := highestY + selectedObjectSize.y / 2.0;

        var deltaX := targetX - boxes[sel].pos.x;
        var deltaZ := targetZ - boxes[sel].pos.z;
        var deltaY := targetY - boxes[sel].pos.y;

        assert Vec3(deltaX, deltaY, deltaZ) == DragDelta(boxes, objectsInStack, sel, ix, iz);
        if Abs(deltaX) > MoveThreshold || Abs(deltaY) > MoveThreshold || Abs(deltaZ) > MoveThreshold {
          MoveEntireStack(sel, deltaX, deltaY, deltaZ);
        }
      }
    }

    /** Pointer up: the camera controls are always re-enabled; if a drag was in
        progress the stacking maps are rebuilt from the new positions and the
        selection is cleared. */
    method OnPointerUp()
      requires Valid()
      modifies this
      ensures Valid() && boxes == old(boxes)
      ensures selectedObject.None? && controlsEnabled
      ensures old(selectedObject).Some? ==> InSync()
      ensures old(selectedObject).None? ==> Relations() == old(Relations())
    {
      controlsEnabled := true;
      if selectedObject.Some? {
        UpdateObjectRelationships();
        selectedObject := None;
      }
    }

    /** The object together with everything resting on it, directly or not. */
    method GetObjectsInStack(root: int) returns (stackObjects: set<int>)
      requires GraphValid() && 0 <= root < |boxes|
      ensures stackObjects == StackOf(Relations(), root)
    {
      stackObjects := {root};
      stackObjects := AddChildren(root, stackObjects);
      StackUnfolds(|boxes|, Relations(), root);
    }

    /** Adds every child of obj, and recursively everything resting on it. */
    method AddChildren(obj: int, stackObjects: set<int>) returns (r: set<int>)
      requires GraphValid() && 0 <= obj < |boxes|
      ensures r == stackObjects + StacksOf(Relations(), childObjects[obj])
      decreases depthBound - depth[obj]
    {
      var children := if obj in childObjects then childObjects[obj] else [];
      r := stackObjects;
      for i := 0 to |children|
        invariant r == stackObjects + StacksOf(Relations(), children[..i])
      {
        var child := children[i];
        assert child in childObjects[obj];
        assert child in objectRelationships && objectRelationships[child] == obj;
        r := r + {child};
        r := AddChildren(child, r);
        StackUnfolds(|boxes|, Relations(), child);
        assert children[..i + 1][..i] == children[..i];
      }
      assert children[..|children|] == children;
    }

    /** Adds (deltaX, deltaY, deltaZ) to the position of every member of the root's stack. */
    method MoveEntireStack(rootObject: int, deltaX: real, deltaY: real, deltaZ: real)
      requires GraphValid() && 0 <= rootObject < |boxes|
      modifies this`boxes
      ensures GraphValid()
      ensures boxes == TranslateStack(old(boxes), StackOf(Relations(), rootObject), Vec3(deltaX, deltaY, deltaZ))
    {
      var stackObjects := GetObjectsInStack(rootObject);
      var d := Vec3(deltaX, deltaY, deltaZ);
      var remaining := stackObjects;
      while remaining != {}
        invariant remaining <= stackObjects
        invariant boxes == TranslateStack(old(boxes), stackObjects - remaining, d)
        decreases remaining
      {
        var obj :| obj in remaining;
        assert obj in depth;
        boxes := boxes[obj := Translate(boxes[obj], d)];
        remaining := remaining - {obj};
      }
    }

    /** Clears both maps, gives every object an empty child list, then processes the
        objects from the lowest to the highest, attaching each to its best parent unless
        that edge would close a cycle. */
    method UpdateObjectRelationships()
      modifies this`objectRelationships, this`childObjects, this`depth, this`depthBound
      ensures InSync()
    {
      objectRelationships := map[];
      childObjects := map[];
      for i := 0 to |boxes|
        invariant objectRelationships == map[] && childObjects == EmptyChildLists(i)
      {
        childObjects := childObjects[i := []];
      }
      depth := ZeroDepths(|boxes|);
      depthBound := 1;

      var sortedObjects := SortByY(boxes, |boxes|);
      SortByYIsProcessingOrder(boxes);
      assert Relations() == Initial(|boxes|) == Fold(boxes, sortedObjects, 0);
      for k := 0 to |sortedObjects|
        invariant Relations() == Fold(boxes, sortedObjects, k)
      {
        FoldSteps(boxes, sortedObjects, k);
        RelateToBestParent(sortedObjects[k], Fold(boxes, sortedObjects, k + 1));
      }
    }

    /** One iteration of the rebuild: finds the best parent of obj and records the
        edge unless it would close a cycle; `next` is the graph that iteration yields. */
    method RelateToBestParent(obj: int, ghost next: Graph)
      requires StepsTo(boxes, Relations(), obj, next)
      modifies this`objectRelationships, this`childObjects, this`depth, this`depthBound
      ensures Relations() == next
    {
      var bestParent := FindBestParent(boxes, obj);
      if bestParent.Some? {
        var p := bestParent.value;
        var circular := WouldCreateCircularRelationship(obj, p);
        if !circular {
          depth, depthBound := next.depth, next.bound;
          objectRelationships := objectRelationships[obj := p];
          childObjects := childObjects[p := childObjects[p] + [obj]];
        }
      }
    }

    /** Walks up the parent chain from `parent`; true when it meets `child`. */
    method WouldCreateCircularRelationship(child: int, parent: int) returns (circular: bool)
      requires Ranked(objectRelationships, depth) && parent in depth
      ensures circular == OnChain(objectRelationships, depth, parent, child)
    {
      var current := Some(parent);
      while current.Some?
        invariant current.Some? ==> current.value in depth
        invariant OnChain(objectRelationships, depth, parent, child) <==>
                  current.Some? && OnChain(objectRelationships, depth, current.value, child)
        decreases if current.Some? then depth[current.value] + 1 else 0
      {
        if current.value == child {
          return true;
        }
        current := if current.value in objectRelationships then Some(objectRelationships[current.value]) else None;
      }
      return false;
    }
  }
}
