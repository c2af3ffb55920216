# Placement engine of the SceneManager (design-your-space)

This project models the placement engine of `SceneManager`, the Three.js component that lets a user drag box-shaped furniture around a square room. Boxes can be stacked on one another. The engine has four parts:

- **Drag-move resolution** (`onPointerMove`):
  - clamps the requested floor point so that the box stays in the 10-unit room;
  - finds the highest top face among the boxes the moved box would intersect, ignoring the box's own stack;
  - puts the box's bottom on that height;
  - translates the whole stack rigidly, unless every component of the move is at most 0.001 in absolute value (the noise threshold).
- **Stack-graph rebuild** (`updateObjectRelationships`, `wouldCreateCircularRelationship`):
  - clears the child-to-parent map `objectRelationships` and the parent-to-children map `childObjects`;
  - gives every object an empty child list;
  - processes the objects in ascending centre height;
  - attaches each object to its best parent: among the boxes whose footprint strictly overlaps the object's and whose top is within 0.2 of the object's bottom, the first one in arena order with the highest top, provided that top is above -1;
  - drops any edge whose parent chain already reaches the object.
- **Stack queries and moves** (`getObjectsInStack`, `moveEntireStack`): the recursive closure over child lists, and the rigid translation of a stack.
- **Drag session** (`onPointerDown`, `onPointerUp`): Idle or Dragging. A pick that hits an object selects it, disables the camera controls and rebuilds the graph. A release re-enables the controls; if an object was selected, it also rebuilds the graph and clears the selection.

## How the model is organised

Objects are indices into an arena `boxes: seq<Box>`. A `Box` has a centre and a full size per axis, as `real` numbers. The identity-keyed `Map`s of the component become `map<int, int>` and `map<int, seq<int>>`.

- `Geometry` holds the geometry:
  - bounding boxes;
  - `Box3.intersectsBox`, a closed test on all three axes;
  - the strict X/Z footprint test written out in the rebuild;
  - `THREE.MathUtils.clamp`.
- `Support` holds the collision loop of the drag: `HighestSupport` as a method, and the `SupportHeight` function it is proved against.
- `Movement` holds the drag arithmetic as functions (`DragDelta`, `TranslateStack`, `DragResult`) and their properties.
- `Stacking` holds:
  - the stable processing order `SortByY`;
  - the best-parent scan: the method `FindBestParent` and the function `BestParent`;
  - the parent chain `OnChain`;
  - the rebuild as a ghost fold `Rebuilt`;
  - the stack of an object, `StackOf`.
- `Scene` holds the class `SceneManager`. Its fields are the arena, the selection, the camera-controls flag and the two maps. Its methods follow the component's methods one by one:
  - `UpdateObjectRelationships` is proved to leave exactly `Rebuilt(boxes)`.
  - `GetObjectsInStack` is proved to return exactly `StackOf(...)`.
  - `MoveEntireStack` and `OnPointerMove` are proved to produce exactly `TranslateStack` and `DragResult` of the old arena.

The maps are proved acyclic with a ghost `depth` map, in which every child is deeper than its parent, and a ghost `depthBound`. These are a proof device only and have no counterpart in the component. The same ranking is the termination measure of the recursive `AddChildren`.

## Model

| member | source | states |
|---|---|---|
| Geometry.Clamp | src/components/SceneManager.js:89-90 | `THREE.MathUtils.clamp`, max(lo, min(hi, v)). Its properties are Geometry.ClampInRange and Geometry.ClampEmptyRange. |
| Geometry.Intersects | src/components/SceneManager.js:102 | `Box3.intersectsBox`: closed intervals on all three axes. It is the target test of Support.HighestSupport and Support.SupportHeightIsHighestTop. |
| Geometry.FootprintsOverlap | src/components/SceneManager.js:196-200 | The strict X/Z overlap test of the rebuild. It is part of Stacking.SitsOn, whose use is stated by Stacking.BestParentIsFirstHighest. |
| Geometry.ClampInRange | src/components/SceneManager.js:89-90 | With lo <= hi, clamp stays in [lo, hi]. It is the identity inside the range and returns the nearer bound outside it. |
| Geometry.ClampEmptyRange | src/components/SceneManager.js:89-90 | With lo > hi (a box wider than the room), clamp returns lo whatever the input. |
| Movement.ClampKeepsExtentInRoom | src/components/SceneManager.js:88-90 | If the box is no wider than the room, its clamped extent lies inside [-5, 5]. |
| Movement.ClampToRoom | src/components/SceneManager.js:88-90 | The requested coordinate clamped for a box of the given extent. Its properties are Movement.ClampKeepsExtentInRoom and Movement.ClampOfOversizedBox. |
| Movement.ClampOfOversizedBox | src/components/SceneManager.js:88-90 | If the box is wider than the room, it is pinned to the negative wall and sticks out on the positive side. |
| Support.IsTarget | src/components/SceneManager.js:96-102 | A box is a collision target when it is outside the selected stack and the probe intersects it. It is used by Support.SupportHeightIsHighestTop and Support.HighestSupport. |
| Support.SupportHeightUpTo | src/components/SceneManager.js:93-108 | `highestY` after the first k boxes. It is characterised by Support.SupportHeightIsHighestTop and Support.SupportHeightOnlyReadsTargets, and Support.HighestSupport is proved equal to it. |
| Support.SupportHeightIsHighestTop | src/components/SceneManager.js:93-108 | The support height is at least 0 and at least every target's top. It is either 0 or the top of some target. |
| Support.SupportHeightOnlyReadsTargets | src/components/SceneManager.js:96-102 | Two arenas that agree on which boxes are targets, and on the tops of those targets, have the same support height. |
| Support.HighestSupport | src/components/SceneManager.js:93-108 | The loop returns the support height: >= 0, >= the top of every box outside the stack that the probe intersects, and either 0 or one of those tops. |
| Movement.Probe | src/components/SceneManager.js:94-101 | The selected box moved horizontally to the clamped point, at its current height. It is used by Movement.DragPlacesSelectedBox and Movement.DragFromAboveMissesCube. |
| Movement.DragDelta | src/components/SceneManager.js:87-118 | The move one drag event asks for. Its properties are Movement.DragPlacesSelectedBox and Movement.SmallDragIsIgnored. |
| Movement.TranslateStack | src/components/SceneManager.js:158-162 | Every member of the stack translated by the delta. Its properties are Movement.TranslateStackIsRigid, and Scene.SceneManager.MoveEntireStack is proved equal to it. |
| Movement.ExceedsThreshold | src/components/SceneManager.js:121 | Some component of the move exceeds 0.001 in absolute value. It is the guard of Movement.SmallDragIsIgnored and Movement.DragPlacesSelectedBox. |
| Movement.DragResult | src/components/SceneManager.js:120-124 | The arena after one drag event. Its properties are Movement.DragPlacesSelectedBox and Movement.SmallDragIsIgnored, and Scene.SceneManager.OnPointerMove is proved equal to it. |
| Movement.DragIgnoresOwnStack | src/components/SceneManager.js:95-96 | For a fixed probe, the support height does not depend on where the members of the selected stack are: they are never targets. The selected box's current height still matters, because it enters through the probe (see Movement.DragFromAboveMissesCube). |
| Movement.DragFromFloorLevelLandsOnCube | src/components/SceneManager.js:94-108 | A unit box at floor level, dragged onto a unit cube resting at the origin, gets support height 1 (the cube's top). |
| Movement.DragFromAboveMissesCube | src/components/SceneManager.js:94-108 | The same box dragged from a height of 5.5 gets support height 0: the probe keeps the box's current Y, so it does not reach the cube's Y range. |
| Movement.DragFromAboveDelta | src/components/SceneManager.js:87-118 | That drag asks for the move (-3, -5, 0), down onto the floor. |
| Movement.DragFromAboveInterpenetrates | src/components/SceneManager.js:111-124 | That drag places the box exactly at the cube's position, so the two overlap. |
| Movement.DragPlacesSelectedBox | src/components/SceneManager.js:87-123 | After an applied drag, the selected box has X/Z equal to the clamped point and its bottom at the support height (>= 0). Its footprint is inside the room when it fits, and its size is unchanged. Every stack member moves by the same delta. |
| Movement.SmallDragIsIgnored | src/components/SceneManager.js:120-124 | If each of \|dx\|, \|dy\|, \|dz\| is at most 0.001, the arena is unchanged. |
| Movement.TranslateStackIsRigid | src/components/SceneManager.js:155-163 | Stack members move by exactly (dx, dy, dz). Every other box is unchanged, sizes never change, and offsets between members are preserved. |
| Stacking.InsertByY | src/components/SceneManager.js:176 | One insertion step of the stable sort: the result lists the old entries plus the new object. |
| Stacking.SortByY | src/components/SceneManager.js:176 | The processing order lists exactly the objects of the arena. |
| Stacking.SortByYIsStableSort | src/components/SceneManager.js:176 | The processing order ascends by centre height, and ties keep arena order. |
| Stacking.SortByYIsProcessingOrder | src/components/SceneManager.js:176 | The processing order lists every object exactly once. |
| Stacking.SitsOn | src/components/SceneManager.js:189-203 | p is another box, its footprint strictly overlaps the object's, and its top is within 0.2 of the object's bottom. It is the qualification in Stacking.BestParentIsFirstHighest. |
| Stacking.ScanParents | src/components/SceneManager.js:184-209 | The candidate after scanning the first j boxes is either none or an earlier box other than the object. |
| Stacking.ScanParentsIsFirstHighest | src/components/SceneManager.js:184-209 | The running candidate qualifies and has the highest top seen so far. Earlier qualifying boxes are strictly lower. With no candidate, every qualifying box so far has its top at or below -1. |
| Stacking.BestParent | src/components/SceneManager.js:184-209 | The parent the scan chooses. Its properties are Stacking.BestParentIsFirstHighest, and Stacking.FindBestParent is proved equal to it. |
| Stacking.BestParentIsFirstHighest | src/components/SceneManager.js:184-209 | The best parent qualifies: strict footprint overlap and \|bottom - top\| < 0.2. It has the maximal top, and it is the first such box in arena order. There is none exactly when no qualifying box has its top above -1. |
| Stacking.FindBestParent | src/components/SceneManager.js:180-209 | The inner loop of the rebuild returns exactly the best parent. |
| Stacking.EmptyChildLists | src/components/SceneManager.js:170-173 | Every object has a child list, and each list is empty. |
| Stacking.Initial | src/components/SceneManager.js:166-173 | The cleared maps, with empty child lists, are well formed and record no parent. |
| Stacking.AttachWellFormed | src/components/SceneManager.js:212-214 | Recording an edge that closes no cycle keeps the maps well formed: child lists are the exact inverse of the parent map without duplicates, and the relation is ranked. |
| Stacking.AttachKeepsChains | src/components/SceneManager.js:212-214 | Recording an edge keeps every existing parent chain. |
| Stacking.Process | src/components/SceneManager.js:180-215 | One iteration keeps the maps well formed, and can give a parent only to the object being processed. |
| Stacking.FoldSteps | src/components/SceneManager.js:211-215 | Each iteration leaves the maps unchanged unless the best parent exists and its chain does not reach the object. In that case, exactly that edge is recorded and pushed onto the parent's child list. |
| Stacking.OnChain | src/components/SceneManager.js:221-227 | The target lies on the parent chain from x. Scene.SceneManager.WouldCreateCircularRelationship is proved equal to it. Stacking.RebuiltParentsAreBestParents uses it to state when the cycle guard fires. |
| Stacking.Attach | src/components/SceneManager.js:213-214 | Records the edge o -> p and pushes o onto p's child list. Its properties are Stacking.AttachWellFormed and Stacking.AttachKeepsChains. |
| Stacking.Fold | src/components/SceneManager.js:179-216 | The maps after the first k objects of the processing order. Its properties are Stacking.FoldSteps and Stacking.RebuiltParentsAreBestParents. |
| Stacking.FoldNext | src/components/SceneManager.js:179-215 | The maps after one more object has been processed. It is the step described by Stacking.FoldSteps. |
| Stacking.Rebuilt | src/components/SceneManager.js:165-216 | The maps a rebuild yields are well formed. |
| Stacking.RebuiltParentsAreBestParents | src/components/SceneManager.js:176-215 | After a rebuild, every recorded parent is the object's best parent. An object with a best parent lacks a parent exactly when that parent's chain reaches the object. |
| Stacking.Ancestor | src/components/SceneManager.js:226 | `current = objectRelationships.get(current)` taken k times. Its property is Stacking.RankedIsAcyclic. |
| Stacking.RankedIsAcyclic | src/components/SceneManager.js:219-229 | Following a ranked parent map one or more steps never returns to the start. |
| Stacking.RebuiltIsAcyclic | src/components/SceneManager.js:211-229 | After a rebuild, no object is its own ancestor. |
| Stacking.StackOf | src/components/SceneManager.js:138-152 | Everything whose parent chain reaches the object. Its properties are Stacking.StackUnfolds and Stacking.StackIsChildClosure, and Scene.SceneManager.GetObjectsInStack is proved equal to it. |
| Stacking.StackUnfolds | src/components/SceneManager.js:138-152 | A stack is its root plus the stacks of the root's children, which is the recursion of addChildren. |
| Stacking.StackIsChildClosure | src/components/SceneManager.js:138-152 | The stack contains the root and is closed under child lists. It is contained in every set with those two properties, so it holds only objects reachable through child edges. |
| Scene.SceneManager.constructor | src/components/SceneManager.js:16-30 | A new manager holds the given arena, has nothing selected and the controls enabled, and its maps are exactly a rebuild of the arena. |
| Scene.SceneManager.OnPointerDown | src/components/SceneManager.js:66-77 | A hit selects the object, disables the controls and leaves the maps in sync with the positions. A miss changes nothing. |
| Scene.SceneManager.OnPointerMove | src/components/SceneManager.js:79-126 | While dragging, the new arena is exactly DragResult of the old one for the selected object's current stack. While idle, nothing moves. The maps are untouched. |
| Scene.SceneManager.OnPointerUp | src/components/SceneManager.js:128-135 | The controls are enabled and the selection is cleared. After a drag, the maps are in sync with the positions. When idle, the maps are unchanged. |
| Scene.SceneManager.GetObjectsInStack | src/components/SceneManager.js:138-152 | Returns exactly the stack of the object: everything whose parent chain reaches it. |
| Scene.SceneManager.AddChildren | src/components/SceneManager.js:142-148 | Adds exactly the stacks of the object's children to the set. The recursion terminates because every child is deeper than its parent. |
| Scene.SceneManager.MoveEntireStack | src/components/SceneManager.js:155-163 | The new arena is the old one with exactly the root's stack translated by the delta. |
| Scene.SceneManager.UpdateObjectRelationships | src/components/SceneManager.js:165-216 | The maps become exactly Rebuilt(boxes), whatever they held before. Two rebuilds over unchanged positions therefore give identical maps. |
| Scene.SceneManager.RelateToBestParent | src/components/SceneManager.js:179-215 | One iteration of the rebuild: records the best-parent edge exactly when it closes no cycle. |
| Scene.SceneManager.WouldCreateCircularRelationship | src/components/SceneManager.js:219-229 | Returns true exactly when the parent chain from the proposed parent reaches the child. |

## Left out

- Rendering, scene and light setup, the orbit-control configuration, `animate` and `onWindowResize` (src/components/SceneManager.js:7-64, 231-235) are UI plumbing with no placement logic.
- Raycasting is an external library computation. The pick becomes an `Option<int>` parameter of `OnPointerDown`, and the floor intersection point becomes the `(ix, iz)` parameters of `OnPointerMove`. A ray that misses the floor leaves the point at the origin in the component; the model covers that case as the input (0, 0).
- `Box3.setFromObject`: boxes are taken as unrotated, with bounding box = position +/- size / 2. Mesh geometry is not modelled.
- `Box3.intersectsBox` is a library call. It is modelled as `Geometry.Intersects`: closed intervals on all three axes, using the selected box's current Y, because only X and Z are translated at line 101. It is kept distinct from the strict footprint test written out at lines 196-200.
- Floating-point rounding: positions and sizes are `real`.
- src/components/Furniture.js (random spawning via `Math.random`) is not part of this model. The constructor takes any arena. No precondition that boxes start on the floor inside the room is needed, because every proved property holds for any arena.
- Gravity and velocity integration: no such code exists in the component.
- Iteration order over the JavaScript `Set` in `moveEntireStack` is not modelled. The translations commute, so the loop takes members in any order.
- Object identity and the `Map` keys are indices, and object truthiness (`while (current)`, `bestParent &&`) is `Option`. The arena holds only furniture, so nothing in it is ever falsy.
- The shared `tempVector` in the rebuild is not modelled. The component reuses it for both sizes, but the object's bottom is computed before the inner loop overwrites it, so sharing it has no effect.
- The camera controls are a single boolean flag.
- Scene.SceneManager.OnPointerMove: stack members other than the selected object are not clamped into the room, and the contract does not claim they are. The source does not clamp them either.
- Nothing in the drag prevents interpenetration. The collision probe keeps the selected box's current height (lines 94 and 100-101), so a box dragged from above a target's Y range does not see it and can be placed overlapping it. The model reproduces this behaviour (Movement.DragFromAboveMissesCube, Movement.DragFromAboveInterpenetrates) rather than excluding it.
- Scene.SceneManager.UpdateObjectRelationships: idempotence is not a separate clause. It follows from the contract, because the resulting maps are a function of the positions alone.
