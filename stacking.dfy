/** The stacking relation: which box rests on which. Parents are chosen by a scan over
    all boxes, objects are processed from the lowest to the highest, and an edge that
    would close a cycle is dropped. */
module Stacking {
  import opened Optional
  import opened Geometry

  /** Largest gap between an object's bottom and a parent's top that still counts as resting. */
  const StackTolerance: real := 0.2
  /** Initial value of `bestParentTopY`: a candidate must have a higher top to be chosen. */
  const NoParentTop: real := -1.0

  // ---------------------------------------------------------------------------------
  // Processing order: the objects sorted by centre height (a stable sort).

  /** Object a comes before object b: lower centre, or same centre and earlier in the arena. */
  predicate YBefore(boxes: seq<Box>, a: int, b: int)
    requires 0 <= a < |boxes| && 0 <= b < |boxes|
  {
    boxes[a].pos.y < boxes[b].pos.y || (boxes[a].pos.y == boxes[b].pos.y && a < b)
  }

  predicate InArena(boxes: seq<Box>, s: seq<int>) {
    forall j :: 0 <= j < |s| ==> 0 <= s[j] < |boxes|
  }

  ghost predicate OrderedByY(boxes: seq<Box>, s: seq<int>) {
    InArena(boxes, s) && forall a, b :: 0 <= a < b < |s| ==> YBefore(boxes, s[a], s[b])
  }

  /** Inserts object i after every listed object whose centre is not above i's. */
  function InsertByY(boxes: seq<Box>, sorted: seq<int>, i: int): (r: seq<int>)
    requires 0 <= i < |boxes| && InArena(boxes, sorted)
    ensures |r| == |sorted| + 1 && InArena(boxes, r)
    ensures forall x :: x in r <==> x in sorted || x == i
  {
    if sorted == [] then [i]
    else if boxes[i].pos.y < boxes[sorted[0]].pos.y then [i] + sorted
    else [sorted[0]] + InsertByY(boxes, sorted[1..], i)
  }

  /** `[...children].sort((a, b) => a.position.y - b.position.y)` over the first k objects;
      the sort is stable, so objects at equal height keep their arena order. */
  function SortByY(boxes: seq<Box>, k: nat): (r: seq<int>)
    requires k <= |boxes|
    ensures |r| == k && InArena(boxes, r)
    ensures forall x :: x in r <==> 0 <= x < k
  {
    if k == 0 then [] else InsertByY(boxes, SortByY(boxes, k - 1), k - 1)
  }

  lemma {:induction false} InsertKeepsOrder(boxes: seq<Box>, s: seq<int>, i: int)
    requires 0 <= i < |boxes| && OrderedByY(boxes, s)
    requires forall j :: 0 <= j < |s| ==> s[j] < i
    ensures OrderedByY(boxes, InsertByY(boxes, s, i))
  {
    if s == [] {
    } else if boxes[i].pos.y < boxes[s[0]].pos.y {
      var r := [i] + s;
      forall a, b | 0 <= a < b < |r| ensures YBefore(boxes, r[a], r[b]) {
        if a == 0 && b > 1 {
          assert YBefore(boxes, s[0], s[b - 1]);
        }
      }
    } else {
      InsertKeepsOrder(boxes, s[1..], i);
      var rest := InsertByY(boxes, s[1..], i);
      var r := [s[0]] + rest;
      forall a, b | 0 <= a < b < |r| ensures YBefore(boxes, r[a], r[b]) {
        if a == 0 {
          assert r[b] in rest;
          if r[b] != i {
            assert r[b] in s[1..];
            var j :| 0 <= j < |s[1..]| && s[1..][j] == r[b];
            assert YBefore(boxes, s[0], s[j + 1]);
          }
        } else {
          assert r[a] == rest[a - 1] && r[b] == rest[b - 1];
        }
      }
    }
  }

  /** The processing order lists every object exactly once, ascending by centre height,
      ties in arena order. */
  lemma {:induction false} SortByYIsStableSort(boxes: seq<Box>, k: nat)
    requires k <= |boxes|
    ensures OrderedByY(boxes, SortByY(boxes, k))
  {
    if k > 0 {
      SortByYIsStableSort(boxes, k - 1);
      var s := SortByY(boxes, k - 1);
      assert forall j :: 0 <= j < |s| ==> s[j] in s;
      InsertKeepsOrder(boxes, s, k - 1);
    }
  }

  /** No object is listed twice. */
  predicate NoDuplicates(s: seq<int>) {
    forall a, b :: 0 <= a < b < |s| ==> s[a] != s[b]
  }

  lemma OrderedIsDistinct(boxes: seq<Box>, s: seq<int>)
    requires OrderedByY(boxes, s)
    ensures NoDuplicates(s)
  {
  }

  // ---------------------------------------------------------------------------------
  // Parent selection.

  /** p qualifies as a parent of o: another box whose footprint strictly overlaps o's and
      whose top lies within the tolerance of o's bottom. */
  predicate SitsOn(boxes: seq<Box>, o: int, p: int)
    requires 0 <= o < |boxes| && 0 <= p < |boxes|
  {
    p != o && FootprintsOverlap(boxes[o], boxes[p]) &&
    Abs(Bottom(boxes[o]) - Top(boxes[p])) < StackTolerance
  }

  datatype Candidate = Candidate(parent: Option<int>, top: real)

  /** `bestParent` and `bestParentTopY` after the first j potential parents. */
  function ScanParents(boxes: seq<Box>, o: int, j: nat): (c: Candidate)
    requires 0 <= o < |boxes| && j <= |boxes|
    ensures c.parent.Some? ==> 0 <= c.parent.value < j && c.parent.value != o
  {
    if j == 0 then Candidate(None, NoParentTop)
    else
      var c := ScanParents(boxes, o, j - 1);
      if SitsOn(boxes, o, j - 1) && Top(boxes[j - 1]) > c.top then Candidate(Some(j - 1), Top(boxes[j - 1]))
      else c
  }

  function BestParent(boxes: seq<Box>, o: int): (p: Option<int>)
    requires 0 <= o < |boxes|
    ensures p.Some? ==> 0 <= p.value < |boxes| && p.value != o
  {
    ScanParents(boxes, o, |boxes|).parent
  }

  lemma {:induction false} ScanParentsIsFirstHighest(boxes: seq<Box>, o: int, j: nat)
    requires 0 <= o < |boxes| && j <= |boxes|
    ensures var c := ScanParents(boxes, o, j);
      && (c.parent.None? ==>
            && c.top == NoParentTop
            && (forall q :: 0 <= q < j && SitsOn(boxes, o, q) ==> Top(boxes[q]) <= NoParentTop))
      && (c.parent.Some? ==>
            var p := c.parent.value;
            && SitsOn(boxes, o, p) && c.top == Top(boxes[p]) && Top(boxes[p]) > NoParentTop
            && (forall q :: 0 <= q < j && SitsOn(boxes, o, q) ==> Top(boxes[q]) <= Top(boxes[p]))
            && (forall q :: 0 <= q < p && SitsOn(boxes, o, q) ==> Top(boxes[q]) < Top(boxes[p])))
  {
    if j > 0 {
      ScanParentsIsFirstHighest(boxes, o, j - 1);
    }
  }

  /** The chosen parent qualifies, has the highest top among all qualifying boxes, and is
      the first of them in arena order on a tie; no parent is chosen exactly when every
      qualifying box has its top at or below -1 (in particular when none qualifies). */
  lemma BestParentIsFirstHighest(boxes: seq<Box>, o: int)
    requires 0 <= o < |boxes|
    ensures BestParent(boxes, o).None? <==>
              forall q :: 0 <= q < |boxes| && SitsOn(boxes, o, q) ==> Top(boxes[q]) <= NoParentTop
    ensures BestParent(boxes, o).Some? ==>
              var p := BestParent(boxes, o).value;
              && SitsOn(boxes, o, p)
              && (forall q :: 0 <= q < |boxes| && SitsOn(boxes, o, q) ==> Top(boxes[q]) <= Top(boxes[p]))
              && (forall q :: 0 <= q < p && SitsOn(boxes, o, q) ==> Top(boxes[q]) < Top(boxes[p]))
  {
    ScanParentsIsFirstHighest(boxes, o, |boxes|);
  }

  /** The inner loop of the rebuild: scan every potential parent in arena order and keep
      the first one with the strictly highest top. */
  method FindBestParent(boxes: seq<Box>, o: int) returns (bestParent: Option<int>)
    requires 0 <= o < |boxes|
    ensures bestParent == BestParent(boxes, o)
  {
    var objectBottom := Bottom(boxes[o]);
    bestParent := None;
    var bestParentTopY := NoParentTop;
    for potentialParent := 0 to |boxes|
      invariant Candidate(bestParent, bestParentTopY) == ScanParents(boxes, o, potentialParent)
    {
      if potentialParent == o {
        continue;
      }
      var parentTopY := Top(boxes[potentialParent]);
      var intersectsXZ := FootprintsOverlap(boxes[o], boxes[potentialParent]);
      if intersectsXZ && Abs(objectBottom - parentTopY) < StackTolerance {
        if parentTopY > bestParentTopY {
          bestParentTopY := parentTopY;
          bestParent := Some(potentialParent);
        }
      }
    }
  }

  // ---------------------------------------------------------------------------------
  // The relation itself. `depth` is a proof device: every child is deeper than its
  // parent, which is what makes the relation acyclic; `bound` exceeds every depth.

  datatype Graph = Graph(parent: map<int, int>, children: map<int, seq<int>>, depth: map<int, nat>, bound: nat)

  ghost predicate Ranked(parent: map<int, int>, depth: map<int, nat>) {
    forall x :: x in parent ==> x in depth && parent[x] in depth && depth[parent[x]] < depth[x]
  }

  /** t lies on the parent chain that starts at x (x itself included): the loop of
      wouldCreateCircularRelationship, and "x is in t's stack". */
  ghost predicate OnChain(parent: map<int, int>, depth: map<int, nat>, x: int, t: int)
    requires Ranked(parent, depth) && x in depth
    decreases depth[x]
  {
    x == t || (x in parent && OnChain(parent, depth, parent[x], t))
  }

  /** `childObjects[p]` lists exactly the objects whose parent is p. */
  ghost predicate ChildrenInverse(parent: map<int, int>, children: map<int, seq<int>>) {
    (forall p, c {:trigger c in children[p]} :: p in children && c in children[p] ==> c in parent && parent[c] == p) &&
    (forall c :: c in parent ==> parent[c] in children && c in children[parent[c]])
  }

  /** The shape every rebuild leaves: every object has a child list, child lists are the
      inverse of the parent map and list each child once, and the relation is ranked. */
  ghost predicate WellFormed(n: int, g: Graph) {
    (forall x :: x in g.depth <==> 0 <= x < n) &&
    (forall x :: x in g.children <==> 0 <= x < n) &&
    Ranked(g.parent, g.depth) &&
    (forall x :: x in g.depth ==> g.depth[x] < g.bound) &&
    ChildrenInverse(g.parent, g.children) &&
    (forall p :: p in g.children ==> NoDuplicates(g.children[p]))
  }

  /** `childObjects.set(object, [])` for the first n objects. */
  function EmptyChildLists(n: nat): (m: map<int, seq<int>>)
    ensures forall x :: x in m <==> 0 <= x < n
    ensures forall x :: x in m ==> m[x] == []
  {
    if n == 0 then map[] else EmptyChildLists(n - 1)[n - 1 := []]
  }

  ghost function ZeroDepths(n: nat): (m: map<int, nat>)
    ensures forall x :: x in m <==> 0 <= x < n
    ensures forall x :: x in m ==> m[x] == 0
  {
    if n == 0 then map[] else ZeroDepths(n - 1)[n - 1 := 0]
  }

  /** Both maps cleared, then an empty child list for every object. */
  ghost function Initial(n: nat): (g: Graph)
    ensures WellFormed(n, g) && g.parent == map[]
  {
    Graph(map[], EmptyChildLists(n), ZeroDepths(n), 1)
  }

  lemma {:induction false} OnChainDeeper(parent: map<int, int>, depth: map<int, nat>, x: int, t: int)
    requires Ranked(parent, depth) && x in depth && OnChain(parent, depth, x, t)
    ensures t in depth && depth[t] <= depth[x]
    ensures t != x ==> depth[t] < depth[x]
    decreases depth[x]
  {
    if x != t {
      OnChainDeeper(parent, depth, parent[x], t);
    }
  }

  lemma {:induction false} OnChainTransitive(parent: map<int, int>, depth: map<int, nat>, x: int, y: int, t: int)
    requires Ranked(parent, depth) && x in depth && y in depth
    requires OnChain(parent, depth, x, y) && OnChain(parent, depth, y, t)
    ensures OnChain(parent, depth, x, t)
    decreases depth[x]
  {
    if x != y {
      OnChainTransitive(parent, depth, parent[x], y, t);
    }
  }

  /** Records o -> p: o's parent becomes p, o is pushed onto p's child list, and o's
      subtree is pushed deeper than p. */
  ghost function Attach(n: int, g: Graph, o: int, p: int): Graph
    requires WellFormed(n, g) && 0 <= o < n && 0 <= p < n && o !in g.parent
    requires !OnChain(g.parent, g.depth, p, o)
  {
    var shift := g.depth[p] + 1;
    Graph(g.parent[o := p], g.children[p := g.children[p] + [o]],
          map x | x in g.depth :: if OnChain(g.parent, g.depth, x, o) then g.depth[x] + shift else g.depth[x],
          g.bound + shift)
  }

  lemma AttachRanked(n: int, g: Graph, o: int, p: int)
    requires WellFormed(n, g) && 0 <= o < n && 0 <= p < n && o !in g.parent
    requires !OnChain(g.parent, g.depth, p, o)
    ensures var r := Attach(n, g, o, p);
      && (forall x :: x in r.depth <==> 0 <= x < n)
      && Ranked(r.parent, r.depth)
      && (forall x :: x in r.depth ==> r.depth[x] < r.bound)
  {
    var r := Attach(n, g, o, p);
    assert r.depth[o] == g.depth[o] + g.depth[p] + 1 by {
      assert OnChain(g.parent, g.depth, o, o);
    }
    assert r.depth[p] == g.depth[p];
    forall x | x in r.parent
      ensures x in r.depth && r.parent[x] in r.depth && r.depth[r.parent[x]] < r.depth[x]
    {
      if x != o {
        var y := g.parent[x];
        assert OnChain(g.parent, g.depth, x, o) == OnChain(g.parent, g.depth, y, o);
        assert r.parent[x] == y;
      }
    }
  }

  lemma AttachChildren(n: int, g: Graph, o: int, p: int)
    requires WellFormed(n, g) && 0 <= o < n && 0 <= p < n && o !in g.parent
    requires !OnChain(g.parent, g.depth, p, o)
    ensures var r := Attach(n, g, o, p);
      && (forall x :: x in r.children <==> 0 <= x < n)
      && ChildrenInverse(r.parent, r.children)
      && (forall q :: q in r.children ==> NoDuplicates(r.children[q]))
  {
    var r := Attach(n, g, o, p);
    assert o !in g.children[p];
    forall q, c | q in r.children && c in r.children[q]
      ensures c in r.parent && r.parent[c] == q
    {
      if q == p && c != o {
        assert c in g.children[p];
      } else if q != p {
        assert c in g.children[q];
      }
    }
    forall c | c in r.parent
      ensures r.parent[c] in r.children && c in r.children[r.parent[c]]
    {
      if c != o {
        assert c in g.children[g.parent[c]];
      }
    }
  }

  lemma AttachWellFormed(n: int, g: Graph, o: int, p: int)
    requires WellFormed(n, g) && 0 <= o < n && 0 <= p < n && o !in g.parent
    requires !OnChain(g.parent, g.depth, p, o)
    ensures WellFormed(n, Attach(n, g, o, p))
  {
    AttachRanked(n, g, o, p);
    AttachChildren(n, g, o, p);
  }

  /** Attaching an edge keeps every existing parent chain. */
  lemma {:induction false} AttachKeepsChains(n: int, g: Graph, o: int, p: int, x: int, t: int)
    requires WellFormed(n, g) && 0 <= o < n && 0 <= p < n && o !in g.parent
    requires !OnChain(g.parent, g.depth, p, o)
    requires x in g.depth && OnChain(g.parent, g.depth, x, t)
    ensures WellFormed(n, Attach(n, g, o, p))
    ensures OnChain(Attach(n, g, o, p).parent, Attach(n, g, o, p).depth, x, t)
    decreases g.depth[x]
  {
    AttachWellFormed(n, g, o, p);
    if x != t {
      AttachKeepsChains(n, g, o, p, g.parent[x], t);
    }
  }

  /** One iteration of the rebuild for object o: take its best parent unless the walk up
      from that parent reaches o. */
  ghost function Process(boxes: seq<Box>, g: Graph, o: int): (r: Graph)
    requires WellFormed(|boxes|, g) && 0 <= o < |boxes| && o !in g.parent
    ensures WellFormed(|boxes|, r)
    ensures forall x :: x in r.parent ==> x in g.parent || x == o
  {
    match BestParent(boxes, o)
    case None => g
    case Some(p) =>
      if OnChain(g.parent, g.depth, p, o) then g
      else AttachWellFormed(|boxes|, g, o, p); Attach(|boxes|, g, o, p)
  }

  /** A processing order: objects of the arena, each listed at most once. */
  predicate DistinctObjects(n: int, order: seq<int>) {
    (forall j :: 0 <= j < |order| ==> 0 <= order[j] < n) && NoDuplicates(order)
  }

  /** The relation after the first k objects of `order` have been processed. */
  ghost function Fold(boxes: seq<Box>, order: seq<int>, k: nat): (g: Graph)
    requires DistinctObjects(|boxes|, order) && k <= |order|
    ensures WellFormed(|boxes|, g)
    ensures forall j :: k <= j < |order| ==> order[j] !in g.parent
    decreases k, 0
  {
    if k == 0 then Initial(|boxes|) else FoldNext(boxes, order, k - 1)
  }

  /** The relation after the object order[k] has been processed as well. */
  ghost function FoldNext(boxes: seq<Box>, order: seq<int>, k: nat): (g: Graph)
    requires DistinctObjects(|boxes|, order) && k < |order|
    ensures WellFormed(|boxes|, g)
    ensures forall j :: k < j < |order| ==> order[j] !in g.parent
    decreases k, 1
  {
    var g := Fold(boxes, order, k);
    assert order[k] !in g.parent;
    Process(boxes, g, order[k])
  }

  /** The branch of one rebuild iteration that records an edge. */
  lemma ProcessAttaches(boxes: seq<Box>, g: Graph, o: int, p: int)
    requires WellFormed(|boxes|, g) && 0 <= o < |boxes| && o !in g.parent
    requires BestParent(boxes, o) == Some(p) && !OnChain(g.parent, g.depth, p, o)
    ensures Process(boxes, g, o) == Attach(|boxes|, g, o, p)
    ensures Attach(|boxes|, g, o, p).parent == g.parent[o := p]
    ensures Attach(|boxes|, g, o, p).children == g.children[p := g.children[p] + [o]]
  {
  }

  /** The branches of one rebuild iteration that record nothing. */
  lemma ProcessSkips(boxes: seq<Box>, g: Graph, o: int)
    requires WellFormed(|boxes|, g) && 0 <= o < |boxes| && o !in g.parent
    requires BestParent(boxes, o).None? || OnChain(g.parent, g.depth, BestParent(boxes, o).value, o)
    ensures Process(boxes, g, o) == g
  {
  }

  lemma FoldStep(boxes: seq<Box>, order: seq<int>, k: nat)
    requires DistinctObjects(|boxes|, order) && k < |order|
    ensures order[k] !in Fold(boxes, order, k).parent
    ensures Fold(boxes, order, k + 1) == Process(boxes, Fold(boxes, order, k), order[k])
  {
  }

  /** r is what one rebuild iteration makes of g for object o, as far as the two maps
      go: nothing changes unless o has a best parent that is not already above it, and
      then exactly the edge from o to that parent is recorded. */
  ghost predicate StepsTo(boxes: seq<Box>, g: Graph, o: int, r: Graph) {
    && WellFormed(|boxes|, g) && 0 <= o < |boxes| && o !in g.parent
    && match BestParent(boxes, o)
       case None => r == g
       case Some(p) =>
         && p in g.depth && p in g.children
         && (OnChain(g.parent, g.depth, p, o) ==> r == g)
         && (!OnChain(g.parent, g.depth, p, o) ==>
               r.parent == g.parent[o := p] && r.children == g.children[p := g.children[p] + [o]])
  }

  /** Each step of the fold is such an iteration. */
  lemma FoldSteps(boxes: seq<Box>, order: seq<int>, k: nat)
    requires DistinctObjects(|boxes|, order) && k < |order|
    ensures StepsTo(boxes, Fold(boxes, order, k), order[k], Fold(boxes, order, k + 1))
  {
    var g := Fold(boxes, order, k);
    var o := order[k];
    FoldStep(boxes, order, k);
    match BestParent(boxes, o)
    case None =>
      ProcessSkips(boxes, g, o);
    case Some(p) =>
      if OnChain(g.parent, g.depth, p, o) {
        ProcessSkips(boxes, g, o);
      } else {
        ProcessAttaches(boxes, g, o, p);
      }
  }

  /** The processing order is a valid order for the fold. */
  lemma SortByYIsProcessingOrder(boxes: seq<Box>)
    ensures DistinctObjects(|boxes|, SortByY(boxes, |boxes|))
  {
    SortByYIsStableSort(boxes, |boxes|);
    OrderedIsDistinct(boxes, SortByY(boxes, |boxes|));
  }

  /** updateObjectRelationships: clear both maps, then process every object from the
      lowest to the highest. */
  ghost function Rebuilt(boxes: seq<Box>): (g: Graph)
    ensures WellFormed(|boxes|, g)
  {
    SortByYIsProcessingOrder(boxes);
    Fold(boxes, SortByY(boxes, |boxes|), |boxes|)
  }

  /** Every recorded parent is the object's best parent. */
  ghost predicate ParentsAreBest(boxes: seq<Box>, g: Graph) {
    forall o :: o in g.parent ==> 0 <= o < |boxes| && BestParent(boxes, o) == Some(g.parent[o])
  }

  /** Every processed object left without a parent although it has a best parent lies
      on the parent chain of that best parent. */
  ghost predicate RejectionsCloseCycles(boxes: seq<Box>, g: Graph, order: seq<int>, k: nat)
    requires WellFormed(|boxes|, g) && InArena(boxes, order) && k <= |order|
  {
    forall j :: 0 <= j < k && order[j] !in g.parent && BestParent(boxes, order[j]).Some? ==>
      OnChain(g.parent, g.depth, BestParent(boxes, order[j]).value, order[j])
  }

  lemma ProcessKeepsChains(boxes: seq<Box>, g: Graph, o: int, x: int, t: int)
    requires WellFormed(|boxes|, g) && 0 <= o < |boxes| && o !in g.parent
    requires x in g.depth && OnChain(g.parent, g.depth, x, t)
    ensures OnChain(Process(boxes, g, o).parent, Process(boxes, g, o).depth, x, t)
  {
    var p := BestParent(boxes, o);
    if p.Some? && !OnChain(g.parent, g.depth, p.value, o) {
      AttachKeepsChains(|boxes|, g, o, p.value, x, t);
    }
  }

  lemma ProcessRecordsBestParent(boxes: seq<Box>, g: Graph, order: seq<int>, k: nat, r: Graph)
    requires InArena(boxes, order) && k < |order|
    requires WellFormed(|boxes|, g) && order[k] !in g.parent
    requires ParentsAreBest(boxes, g) && RejectionsCloseCycles(boxes, g, order, k)
    requires r == Process(boxes, g, order[k])
    ensures ParentsAreBest(boxes, r)
    ensures RejectionsCloseCycles(boxes, r, order, k + 1)
  {
    var o := order[k];
    forall j | 0 <= j < k + 1 && order[j] !in r.parent && BestParent(boxes, order[j]).Some?
      ensures OnChain(r.parent, r.depth, BestParent(boxes, order[j]).value, order[j])
    {
      if j < k {
        ProcessKeepsChains(boxes, g, o, BestParent(boxes, order[j]).value, order[j]);
      }
    }
  }

  lemma {:induction false} FoldRecordsBestParents(boxes: seq<Box>, order: seq<int>, k: nat)
    requires DistinctObjects(|boxes|, order) && k <= |order|
    ensures ParentsAreBest(boxes, Fold(boxes, order, k))
    ensures RejectionsCloseCycles(boxes, Fold(boxes, order, k), order, k)
  {
    if k > 0 {
      FoldRecordsBestParents(boxes, order, k - 1);
      FoldStepRecordsBestParent(boxes, order, k - 1);
    }
  }

  lemma FoldStepRecordsBestParent(boxes: seq<Box>, order: seq<int>, k: nat)
    requires DistinctObjects(|boxes|, order) && k < |order|
    requires ParentsAreBest(boxes, Fold(boxes, order, k))
    requires RejectionsCloseCycles(boxes, Fold(boxes, order, k), order, k)
    ensures ParentsAreBest(boxes, Fold(boxes, order, k + 1))
    ensures RejectionsCloseCycles(boxes, Fold(boxes, order, k + 1), order, k + 1)
  {
    FoldStep(boxes, order, k);
    ProcessRecordsBestParent(boxes, Fold(boxes, order, k), order, k, Fold(boxes, order, k + 1));
  }

  /** Each object's parent after a rebuild is its best parent (first-highest qualifying
      box), and an object whose best parent exists is left without a parent exactly when
      the walk up from that parent reaches the object, i.e. when the edge would close a
      cycle. */
  lemma RebuiltParentsAreBestParents(boxes: seq<Box>)
    ensures var g := Rebuilt(boxes);
      forall o :: 0 <= o < |boxes| ==>
        && (o in g.parent ==> BestParent(boxes, o) == Some(g.parent[o]))
        && (o in g.parent <==>
              BestParent(boxes, o).Some? && !OnChain(g.parent, g.depth, BestParent(boxes, o).value, o))
  {
    var g := Rebuilt(boxes);
    var order := SortByY(boxes, |boxes|);
    SortByYIsProcessingOrder(boxes);
    FoldRecordsBestParents(boxes, order, |boxes|);
    forall o | 0 <= o < |boxes|
      ensures o in g.parent <==>
              BestParent(boxes, o).Some? && !OnChain(g.parent, g.depth, BestParent(boxes, o).value, o)
    {
      assert o in order;
      var j :| 0 <= j < |order| && order[j] == o;
      if o in g.parent && OnChain(g.parent, g.depth, g.parent[o], o) {
        OnChainDeeper(g.parent, g.depth, g.parent[o], o);
      }
    }
  }

  /** `current = parents[current]` taken k times from x; None once the chain has ended. */
  function Ancestor(parent: map<int, int>, x: int, k: nat): Option<int> {
    if k == 0 then Some(x)
    else match Ancestor(parent, x, k - 1)
      case None => None
      case Some(y) => if y in parent then Some(parent[y]) else None
  }

  lemma {:induction false} AncestorsGetShallower(parent: map<int, int>, depth: map<int, nat>, x: int, k: nat)
    requires Ranked(parent, depth) && x in depth
    ensures Ancestor(parent, x, k).Some? ==>
              Ancestor(parent, x, k).value in depth && depth[Ancestor(parent, x, k).value] + k <= depth[x]
  {
    if k > 0 {
      AncestorsGetShallower(parent, depth, x, k - 1);
    }
  }

  /** A ranked parent map has no cycle: following parent links one or more times never
      leads back to the start. */
  lemma RankedIsAcyclic(parent: map<int, int>, depth: map<int, nat>, x: int, k: nat)
    requires Ranked(parent, depth) && x in depth && k >= 1
    ensures Ancestor(parent, x, k) != Some(x)
  {
    AncestorsGetShallower(parent, depth, x, k);
  }

  /** After a rebuild no object is its own ancestor: walking up the parent map one or
      more steps from any object never returns to it. */
  lemma RebuiltIsAcyclic(boxes: seq<Box>, o: int, k: nat)
    requires 0 <= o < |boxes| && k >= 1
    ensures Ancestor(Rebuilt(boxes).parent, o, k) != Some(o)
  {
    RankedIsAcyclic(Rebuilt(boxes).parent, Rebuilt(boxes).depth, o, k);
  }

  // ---------------------------------------------------------------------------------
  // Stacks: an object together with everything resting on it, directly or not.

  ghost function StackOf(g: Graph, o: int): set<int>
    requires Ranked(g.parent, g.depth)
  {
    set x | x in g.depth && OnChain(g.parent, g.depth, x, o)
  }

  /** The union of the stacks of the listed objects. */
  ghost function StacksOf(g: Graph, cs: seq<int>): set<int>
    requires Ranked(g.parent, g.depth)
  {
    if cs == [] then {} else StacksOf(g, cs[..|cs| - 1]) + StackOf(g, cs[|cs| - 1])
  }

  lemma {:induction false} InStacksOf(g: Graph, cs: seq<int>, x: int)
    requires Ranked(g.parent, g.depth)
    ensures x in StacksOf(g, cs) <==> exists j :: 0 <= j < |cs| && x in StackOf(g, cs[j])
  {
    if cs != [] {
      InStacksOf(g, cs[..|cs| - 1], x);
      if x in StacksOf(g, cs[..|cs| - 1]) {
        var j :| 0 <= j < |cs| - 1 && x in StackOf(g, cs[..|cs| - 1][j]);
        assert cs[..|cs| - 1][j] == cs[j];
      }
      if exists j :: 0 <= j < |cs| && x in StackOf(g, cs[j]) {
        var j :| 0 <= j < |cs| && x in StackOf(g, cs[j]);
        if j < |cs| - 1 {
          assert cs[..|cs| - 1][j] == cs[j];
        }
      }
    }
  }

  lemma {:induction false} BelowChildOfRoot(n: int, g: Graph, o: int, x: int)
    requires WellFormed(n, g) && x in g.depth && x != o && OnChain(g.parent, g.depth, x, o)
    ensures o in g.children
    ensures exists j :: 0 <= j < |g.children[o]| && OnChain(g.parent, g.depth, x, g.children[o][j])
    decreases g.depth[x]
  {
    var y := g.parent[x];
    if y == o {
      assert x in g.children[o];
      var j :| 0 <= j < |g.children[o]| && g.children[o][j] == x;
      assert OnChain(g.parent, g.depth, x, g.children[o][j]);
    } else {
      BelowChildOfRoot(n, g, o, y);
      var j :| 0 <= j < |g.children[o]| && OnChain(g.parent, g.depth, y, g.children[o][j]);
      assert OnChain(g.parent, g.depth, x, g.children[o][j]);
    }
  }

  /** A stack is its root plus the stacks of the root's children: the recursion of
      getObjectsInStack. */
  lemma StackUnfolds(n: int, g: Graph, o: int)
    requires WellFormed(n, g) && 0 <= o < n
    ensures StackOf(g, o) == {o} + StacksOf(g, g.children[o])
  {
    var cs := g.children[o];
    forall x | x in StackOf(g, o) ensures x in {o} + StacksOf(g, cs) {
      if x != o {
        BelowChildOfRoot(n, g, o, x);
        InStacksOf(g, cs, x);
      }
    }
    forall x | x in StacksOf(g, cs) ensures x in StackOf(g, o) {
      InStacksOf(g, cs, x);
      var j :| 0 <= j < |cs| && x in StackOf(g, cs[j]);
      assert cs[j] in g.children[o];
      assert OnChain(g.parent, g.depth, cs[j], o);
      OnChainTransitive(g.parent, g.depth, x, cs[j], o);
    }
  }

  lemma {:induction false} InClosedSet(n: int, g: Graph, o: int, s: set<int>, x: int)
    requires WellFormed(n, g) && o in s
    requires forall y, c :: y in s && y in g.children && c in g.children[y] ==> c in s
    requires x in g.depth && OnChain(g.parent, g.depth, x, o)
    ensures x in s
    decreases g.depth[x]
  {
    if x != o {
      InClosedSet(n, g, o, s, g.parent[x]);
    }
  }

  /** The stack of o is the transitive closure of the child lists from o: it holds o, it
      is closed under child lists, and every set with both properties contains it. */
  lemma StackIsChildClosure(n: int, g: Graph, o: int, s: set<int>)
    requires WellFormed(n, g) && 0 <= o < n
    ensures o in StackOf(g, o)
    ensures forall y, c :: y in StackOf(g, o) && y in g.children && c in g.children[y] ==> c in StackOf(g, o)
    ensures o in s && (forall y, c :: y in s && y in g.children && c in g.children[y] ==> c in s) ==>
              StackOf(g, o) <= s
  {
    forall y, c | y in StackOf(g, o) && y in g.children && c in g.children[y]
      ensures c in StackOf(g, o)
    {
      assert OnChain(g.parent, g.depth, c, y);
      OnChainTransitive(g.parent, g.depth, c, y, o);
    }
    if o in s && (forall y, c :: y in s && y in g.children && c in g.children[y] ==> c in s) {
      forall x | x in StackOf(g, o) ensures x in s {
        InClosedSet(n, g, o, s, x);
      }
    }
  }
}
