/**
 * Day 23: the longest hike through a garden map of paths ('.'), forest ('#') and steep
 * slopes ('^', 'v', '<', '>'). `GardenMap` links every walkable cell to its walkable
 * orthogonal neighbours, remembering the direction of each link; `prune` collapses
 * single-file corridors into step counts; `longestPath` explores every simple path from
 * the start and keeps the longest one that reaches the end.
 */
module Day23 {
  import opened Wrappers
  import opened Worklist
  import opened Stack
  import opened CustomSet
  import Grid
  import Text

  type Pos = (int, int)

  // Cells.

  /** `Symbols`. */
  const PathSymbol := '.'
  const ForestSymbol := '#'

  /** `Object.values(Directions)`: up, down, left, right; also `Symbols.SLOPES`. */
  function Directions(): seq<char>
  {
    ['^', 'v', '<', '>']
  }

  predicate IsPath(symbol: char) { symbol == PathSymbol }

  predicate IsForest(symbol: char) { symbol == ForestSymbol }

  predicate IsSlope(symbol: char) { symbol in Directions() }

  /** The three classes of a node never overlap, and the slopes are the four direction symbols. */
  lemma SymbolClasses(symbol: char)
    ensures !(IsPath(symbol) && IsForest(symbol))
    ensures !(IsPath(symbol) && IsSlope(symbol))
    ensures !(IsForest(symbol) && IsSlope(symbol))
    ensures IsSlope(symbol) <==> symbol == '^' || symbol == 'v' || symbol == '<' || symbol == '>'
  {
  }

  /** `ReverseDirections`. */
  function ReverseDirection(d: char): char
  {
    if d == '^' then 'v' else if d == 'v' then '^' else if d == '<' then '>' else '<'
  }

  /** `PositionDiffs`, as (row, column) differences: up is row - 1, left is column - 1. */
  function Diff(d: char): Pos
  {
    if d == '^' then (-1, 0) else if d == 'v' then (1, 0) else if d == '<' then (0, -1) else (0, 1)
  }

  function Step(p: Pos, d: char): Pos
  {
    (p.0 + Diff(d).0, p.1 + Diff(d).1)
  }

  /**
   * The index in `Directions()` of the direction leading from `p` to `q`, or 4 when `q` is
   * not one orthogonal step away.
   */
  function DirIndex(p: Pos, q: Pos): nat
  {
    if q == (p.0 - 1, p.1) then 0
    else if q == (p.0 + 1, p.1) then 1
    else if q == (p.0, p.1 - 1) then 2
    else if q == (p.0, p.1 + 1) then 3
    else 4
  }

  predicate Adjacent(p: Pos, q: Pos) { DirIndex(p, q) < 4 }

  /** The direction of the step from `p` to `q` (up when they are not adjacent). */
  function DirTo(p: Pos, q: Pos): char
  {
    Directions()[if Adjacent(p, q) then DirIndex(p, q) else 0]
  }

  /** Each direction steps to an adjacent cell in that direction; the reverse direction steps back. */
  lemma DirectionSteps(p: Pos, k: nat)
    requires k < 4
    ensures var d := Directions()[k];
      DirIndex(p, Step(p, d)) == k && Adjacent(p, Step(p, d)) && DirTo(p, Step(p, d)) == d
      && Step(p, d) != p && ReverseDirection(d) in Directions() && ReverseDirection(ReverseDirection(d)) == d
      && Step(Step(p, d), ReverseDirection(d)) == p
  {
  }

  /** Adjacency is symmetric, and the step back has the reverse direction. */
  lemma AdjacentBack(p: Pos, q: Pos)
    requires Adjacent(p, q)
    ensures Adjacent(q, p) && DirTo(q, p) == ReverseDirection(DirTo(p, q)) && p != q
  {
  }

  /** The symbol of the node at `p`, or `undefined` outside the grid. */
  function SymbolAt(tiles: Grid.Rows<char>, p: Pos): Option<char>
  {
    Grid.Lookup(tiles, p.0, p.1)
  }

  /** `node && !node.isForest`. */
  predicate Walkable(tiles: Grid.Rows<char>, p: Pos)
  {
    SymbolAt(tiles, p).Some? && !IsForest(SymbolAt(tiles, p).value)
  }

  // The state of the map's nodes.

  /**
   * The nodes' mutable state: the `walkableNodes` set in insertion order, each node's
   * `walkableNeighbors` (in insertion order) and `neighborDirections`, the `nSteps` that
   * differ from 1, and the collapsed nodes. A node is identified by its cell.
   */
  datatype Garden = Garden(walkable: seq<Pos>, neighbors: map<Pos, seq<Pos>>,
                           directions: map<(Pos, Pos), char>, steps: map<Pos, int>, collapsed: set<Pos>)

  function NeighborsIn(neighbors: map<Pos, seq<Pos>>, p: Pos): seq<Pos>
  {
    if p in neighbors then neighbors[p] else []
  }

  function DirectionIn(directions: map<(Pos, Pos), char>, p: Pos, q: Pos): Option<char>
  {
    if (p, q) in directions then Some(directions[(p, q)]) else None
  }

  /** `nSteps`, 1 until `prune` adds to it. */
  function StepsIn(steps: map<Pos, int>, p: Pos): int
  {
    if p in steps then steps[p] else 1
  }

  /** `Set.add`: appended unless already present. */
  function AddNew(s: seq<Pos>, x: Pos): (r: seq<Pos>)
    ensures forall y :: y in r <==> y in s || y == x
    ensures Distinct(s) ==> Distinct(r)
  {
    if x in s then s else s + [x]
  }

  // Building the links.

  /** One direction of the constructor's loop for `node` at `p`: a walkable neighbour is linked both ways. */
  function LinkDir(tiles: Grid.Rows<char>, g: Garden, p: Pos, d: char): (r: Garden)
    ensures Distinct(g.walkable) ==> Distinct(r.walkable)
  {
    var q := Step(p, d);
    if Walkable(tiles, q) then
      var n1 := g.neighbors[p := AddNew(NeighborsIn(g.neighbors, p), q)];
      var n2 := n1[q := AddNew(NeighborsIn(n1, q), p)];
      Garden(AddNew(g.walkable, q), n2, g.directions[(p, q) := d][(q, p) := ReverseDirection(d)], g.steps, g.collapsed)
    else g
  }

  /** The directions `ds` of the loop for `p`, in order. */
  function LinkDirs(tiles: Grid.Rows<char>, g: Garden, p: Pos, ds: seq<char>): (r: Garden)
    ensures Distinct(g.walkable) ==> Distinct(r.walkable)
    decreases |ds|
  {
    if ds == [] then g else LinkDir(tiles, LinkDirs(tiles, g, p, ds[..|ds| - 1]), p, ds[|ds| - 1])
  }

  /** The `forEach` callback at `p`: a walkable node joins `walkableNodes` and is linked in every direction. */
  function VisitCell(tiles: Grid.Rows<char>, g: Garden, p: Pos): (r: Garden)
    ensures Distinct(g.walkable) ==> Distinct(r.walkable)
  {
    if Walkable(tiles, p) then LinkDirs(tiles, g.(walkable := AddNew(g.walkable, p)), p, Directions()) else g
  }

  /** The nodes' state after the callback has run at the cells `ps`, in order, on fresh nodes. */
  function Built(tiles: Grid.Rows<char>, ps: seq<Pos>): (r: Garden)
    ensures Distinct(r.walkable)
    decreases |ps|
  {
    if ps == [] then Garden([], map[], map[], map[], {}) else VisitCell(tiles, Built(tiles, ps[..|ps| - 1]), ps[|ps| - 1])
  }

  /**
   * The link between `a` and `b` has been considered once the callback has run at a cell of
   * `done`, or at `p` in one of its first `k` directions.
   */
  predicate Considered(a: Pos, b: Pos, done: seq<Pos>, p: Pos, k: nat)
  {
    a in done || b in done || (a == p && DirIndex(a, b) < k) || (b == p && DirIndex(b, a) < k)
  }

  /**
   * The links so far: exactly the considered pairs of adjacent walkable cells, each with its
   * direction; every walkable node is a walkable cell, and every visited walkable cell is one.
   */
  ghost predicate LinkedSoFar(tiles: Grid.Rows<char>, g: Garden, done: seq<Pos>, p: Pos, k: nat)
  {
    NeighborsSoFar(tiles, g, done, p, k) && DirectionsMatch(g) && WalkableSoFar(tiles, g, done)
    && NeighborsDistinct(g) && g.steps == map[] && g.collapsed == {}
  }

  ghost predicate NeighborsSoFar(tiles: Grid.Rows<char>, g: Garden, done: seq<Pos>, p: Pos, k: nat)
  {
    forall a, b :: b in NeighborsIn(g.neighbors, a) <==>
      Walkable(tiles, a) && Walkable(tiles, b) && Adjacent(a, b) && Considered(a, b, done, p, k)
  }

  ghost predicate DirectionsMatch(g: Garden)
  {
    forall a, b :: DirectionIn(g.directions, a, b) == if b in NeighborsIn(g.neighbors, a) then Some(DirTo(a, b)) else None
  }

  ghost predicate WalkableSoFar(tiles: Grid.Rows<char>, g: Garden, done: seq<Pos>)
  {
    (forall a :: a in g.walkable ==> Walkable(tiles, a))
    && (forall a :: a in done && Walkable(tiles, a) ==> a in g.walkable)
  }

  ghost predicate NeighborsDistinct(g: Garden)
  {
    forall a :: Distinct(NeighborsIn(g.neighbors, a))
  }

  /** A link to a walkable `q` adds `q` to `p`'s neighbours and `p` to `q`'s, with the two directions. */
  lemma LinkDirHas(tiles: Grid.Rows<char>, g: Garden, p: Pos, d: char)
    requires Walkable(tiles, Step(p, d)) && Step(p, d) != p
    ensures var q, r := Step(p, d), LinkDir(tiles, g, p, d);
      (forall a, b :: b in NeighborsIn(r.neighbors, a) <==> b in NeighborsIn(g.neighbors, a) || (a == p && b == q) || (a == q && b == p))
      && (forall a, b :: DirectionIn(r.directions, a, b) ==
            if (a, b) == (q, p) then Some(ReverseDirection(d)) else if (a, b) == (p, q) then Some(d) else DirectionIn(g.directions, a, b))
      && (forall a :: a in r.walkable <==> a in g.walkable || a == q)
      && (NeighborsDistinct(g) ==> NeighborsDistinct(r))
      && r.steps == g.steps && r.collapsed == g.collapsed
  {
    var q, r := Step(p, d), LinkDir(tiles, g, p, d);
    if NeighborsDistinct(g) {
      forall a
        ensures Distinct(NeighborsIn(r.neighbors, a))
      {
        if a == p {
          assert NeighborsIn(r.neighbors, a) == AddNew(NeighborsIn(g.neighbors, p), q);
        } else if a == q {
          assert NeighborsIn(r.neighbors, a) == AddNew(NeighborsIn(g.neighbors, q), p);
        } else {
          assert NeighborsIn(r.neighbors, a) == NeighborsIn(g.neighbors, a);
        }
      }
    }
  }

  /** Direction `k` of `p` adds the pairs of `p` and its neighbour in that direction. */
  lemma ConsideredNext(a: Pos, b: Pos, done: seq<Pos>, p: Pos, k: nat)
    requires k < 4
    ensures var q := Step(p, Directions()[k]);
      Considered(a, b, done, p, k + 1) <==> Considered(a, b, done, p, k) || (a == p && b == q) || (a == q && b == p)
  {
    DirectionSteps(p, k);
  }

  lemma LinkDirStep(tiles: Grid.Rows<char>, g: Garden, done: seq<Pos>, p: Pos, k: nat)
    requires k < 4 && p !in done && Walkable(tiles, p)
    requires LinkedSoFar(tiles, g, done, p, k)
    ensures var r := LinkDir(tiles, g, p, Directions()[k]);
      LinkedSoFar(tiles, r, done, p, k + 1) && forall a :: a in g.walkable ==> a in r.walkable
  {
    var d := Directions()[k];
    DirectionSteps(p, k);
    if Walkable(tiles, Step(p, d)) {
      LinkDirLinks(tiles, g, done, p, k);
    } else {
      forall a, b
        ensures Walkable(tiles, a) && Walkable(tiles, b) && Considered(a, b, done, p, k + 1) <==>
          Walkable(tiles, a) && Walkable(tiles, b) && Considered(a, b, done, p, k)
      {
        ConsideredNext(a, b, done, p, k);
      }
    }
  }

  lemma LinkDirLinks(tiles: Grid.Rows<char>, g: Garden, done: seq<Pos>, p: Pos, k: nat)
    requires k < 4 && p !in done && Walkable(tiles, p)
    requires LinkedSoFar(tiles, g, done, p, k)
    requires Walkable(tiles, Step(p, Directions()[k]))
    ensures var r := LinkDir(tiles, g, p, Directions()[k]);
      LinkedSoFar(tiles, r, done, p, k + 1) && forall a :: a in g.walkable ==> a in r.walkable
  {
    var d := Directions()[k];
    var q := Step(p, d);
    DirectionSteps(p, k);
    AdjacentBack(p, q);
    var r := LinkDir(tiles, g, p, d);
    LinkDirHas(tiles, g, p, d);
    forall a, b
      ensures b in NeighborsIn(r.neighbors, a) <==>
        Walkable(tiles, a) && Walkable(tiles, b) && Adjacent(a, b) && Considered(a, b, done, p, k + 1)
    {
      ConsideredNext(a, b, done, p, k);
    }
    assert DirectionsMatch(r);
    assert WalkableSoFar(tiles, r, done);
    assert NeighborsDistinct(r);
  }

  /** The loop for `p` over its first `k` directions. */
  lemma {:induction false} LinkDirsSpec(tiles: Grid.Rows<char>, g: Garden, done: seq<Pos>, p: Pos, k: nat)
    requires k <= 4 && p !in done && Walkable(tiles, p)
    requires LinkedSoFar(tiles, g, done, p, 0)
    ensures var r := LinkDirs(tiles, g, p, Directions()[..k]);
      LinkedSoFar(tiles, r, done, p, k) && forall a :: a in g.walkable ==> a in r.walkable
  {
    if k > 0 {
      LinkDirsSpec(tiles, g, done, p, k - 1);
      assert Directions()[..k][..k - 1] == Directions()[..k - 1];
      LinkDirStep(tiles, LinkDirs(tiles, g, p, Directions()[..k - 1]), done, p, k - 1);
    }
  }

  /** Which cell is in progress does not matter before its first direction. */
  lemma Rebase(tiles: Grid.Rows<char>, g: Garden, done: seq<Pos>, p: Pos, p': Pos)
    requires LinkedSoFar(tiles, g, done, p, 0)
    ensures LinkedSoFar(tiles, g, done, p', 0)
  {
    forall a, b
      ensures Considered(a, b, done, p, 0) == Considered(a, b, done, p', 0)
    {
    }
  }

  /** Once all four directions of `p` are done, every adjacent pair with `p` has been considered. */
  lemma ConsideredAll(a: Pos, b: Pos, done: seq<Pos>, p: Pos)
    requires Adjacent(a, b)
    ensures Considered(a, b, done, p, 4) <==> Considered(a, b, done + [p], p, 0)
  {
    AdjacentBack(a, b);
  }

  /** A pair with `p` is never linked when `p` is not walkable. */
  lemma ConsideredIdle(a: Pos, b: Pos, done: seq<Pos>, p: Pos)
    requires a != p && b != p
    ensures Considered(a, b, done, p, 0) <==> Considered(a, b, done + [p], p, 0)
  {
  }

  lemma VisitCellSpec(tiles: Grid.Rows<char>, g: Garden, done: seq<Pos>, p: Pos)
    requires p !in done
    requires LinkedSoFar(tiles, g, done, p, 0)
    ensures LinkedSoFar(tiles, VisitCell(tiles, g, p), done + [p], p, 0)
  {
    var r := VisitCell(tiles, g, p);
    if Walkable(tiles, p) {
      var g1 := g.(walkable := AddNew(g.walkable, p));
      LinkDirsSpec(tiles, g1, done, p, 4);
      assert Directions()[..4] == Directions();
      assert LinkedSoFar(tiles, r, done, p, 4);
      forall a, b | Adjacent(a, b)
        ensures Considered(a, b, done, p, 4) <==> Considered(a, b, done + [p], p, 0)
      {
        ConsideredAll(a, b, done, p);
      }
    } else {
      forall a, b | Walkable(tiles, a) && Walkable(tiles, b)
        ensures Considered(a, b, done, p, 0) <==> Considered(a, b, done + [p], p, 0)
      {
        ConsideredIdle(a, b, done, p);
      }
    }
  }

  /** The links after the callback has run at the distinct cells `ps`. */
  lemma {:induction false} BuiltSpec(tiles: Grid.Rows<char>, ps: seq<Pos>)
    requires forall i, j :: 0 <= i < j < |ps| ==> ps[i] != ps[j]
    ensures LinkedSoFar(tiles, Built(tiles, ps), ps, (0, 0), 0)
    decreases |ps|
  {
    if ps != [] {
      var init, p := ps[..|ps| - 1], ps[|ps| - 1];
      BuiltSpec(tiles, init);
      Rebase(tiles, Built(tiles, init), init, (0, 0), p);
      assert p !in init;
      VisitCellSpec(tiles, Built(tiles, init), init, p);
      assert init + [p] == ps;
      Rebase(tiles, Built(tiles, ps), ps, p, (0, 0));
    }
  }

  /**
   * After the constructor: the walkable nodes are exactly the walkable cells; two nodes are
   * linked exactly when they are walkable and adjacent, so the links are symmetric and never
   * touch a forest; the direction recorded for a link is the direction of the step, and the
   * reverse link records the reverse direction.
   */
  lemma BuiltExactly(tiles: Grid.Rows<char>)
    ensures var g := Built(tiles, Grid.Positions(tiles));
      (forall a :: a in g.walkable <==> Walkable(tiles, a))
      && (forall a, b :: b in NeighborsIn(g.neighbors, a) <==> Walkable(tiles, a) && Walkable(tiles, b) && Adjacent(a, b))
      && (forall a, b :: b in NeighborsIn(g.neighbors, a) <==> a in NeighborsIn(g.neighbors, b))
      && (forall a, b :: b in NeighborsIn(g.neighbors, a) ==>
            DirectionIn(g.directions, a, b) == Some(DirTo(a, b))
            && DirectionIn(g.directions, b, a) == Some(ReverseDirection(DirTo(a, b))))
      && (forall a, b :: b !in NeighborsIn(g.neighbors, a) ==> DirectionIn(g.directions, a, b) == None)
      && NeighborsDistinct(g)
      && g.steps == map[] && g.collapsed == {}
  {
    var ps := Grid.Positions(tiles);
    Grid.PositionsExactly(tiles);
    BuiltSpec(tiles, ps);
    var g := Built(tiles, ps);
    forall a | Walkable(tiles, a)
      ensures a in ps
    {
    }
    forall a, b | Adjacent(a, b)
      ensures Adjacent(b, a) && DirTo(b, a) == ReverseDirection(DirTo(a, b))
    {
      AdjacentBack(a, b);
    }
  }

  // Pruning.

  /** `prune` collapses `node`: not the start or end, two neighbours, and the first of them has two as well. */
  predicate Collapses(g: Garden, node: Pos, start: Pos, end: Pos)
  {
    var nbrs := NeighborsIn(g.neighbors, node);
    node != start && node != end && |nbrs| == 2 && |NeighborsIn(g.neighbors, nbrs[0])| == 2
  }

  /**
   * Collapsing `node` into its first neighbour: both neighbours drop it and are linked to
   * each other, the first takes its steps, and it leaves `walkableNodes`.
   */
  function Collapse(g: Garden, node: Pos, start: Pos, end: Pos): Garden
  {
    if !Collapses(g, node, start, end) then g
    else
      var first, second := NeighborsIn(g.neighbors, node)[0], NeighborsIn(g.neighbors, node)[1];
      Garden(Without(g.walkable, node), Relink(g.neighbors, node, first, second), g.directions,
             MergeSteps(g.steps, first, node), g.collapsed + {node})
  }

  /** The steps of `into` grow by the steps of `from`. */
  function MergeSteps(steps: map<Pos, int>, into: Pos, from: Pos): map<Pos, int>
  {
    steps[into := StepsIn(steps, into) + StepsIn(steps, from)]
  }

  /** `first` and `second` both delete `node`, then each adds the other. */
  function Relink(neighbors: map<Pos, seq<Pos>>, node: Pos, first: Pos, second: Pos): map<Pos, seq<Pos>>
  {
    var n1 := neighbors[first := Without(NeighborsIn(neighbors, first), node)];
    var n2 := n1[second := Without(NeighborsIn(n1, second), node)];
    var n3 := n2[first := AddNew(NeighborsIn(n2, first), second)];
    n3[second := AddNew(NeighborsIn(n3, second), first)]
  }

  lemma RelinkHas(neighbors: map<Pos, seq<Pos>>, node: Pos, first: Pos, second: Pos)
    requires first != second
    ensures var r := Relink(neighbors, node, first, second);
      (forall b :: b in NeighborsIn(r, first) <==> (b in NeighborsIn(neighbors, first) && b != node) || b == second)
      && (forall b :: b in NeighborsIn(r, second) <==> (b in NeighborsIn(neighbors, second) && b != node) || b == first)
      && (forall a :: a != first && a != second ==> NeighborsIn(r, a) == NeighborsIn(neighbors, a))
      && (Distinct(NeighborsIn(neighbors, first)) ==> Distinct(NeighborsIn(r, first)))
      && (Distinct(NeighborsIn(neighbors, second)) ==> Distinct(NeighborsIn(r, second)))
  {
    if Distinct(NeighborsIn(neighbors, first)) {
      WithoutKeepsDistinct(NeighborsIn(neighbors, first), node);
    }
    if Distinct(NeighborsIn(neighbors, second)) {
      WithoutKeepsDistinct(NeighborsIn(neighbors, second), node);
    }
  }

  /** One pass of `prune`'s `for` loop over `nodes`, and whether it collapsed anything. */
  function PrunePass(g: Garden, nodes: seq<Pos>, start: Pos, end: Pos): (Garden, bool)
    decreases |nodes|
  {
    if nodes == [] then (g, false)
    else
      var r := PrunePass(g, nodes[..|nodes| - 1], start, end);
      var node := nodes[|nodes| - 1];
      (Collapse(r.0, node, start, end), r.1 || Collapses(r.0, node, start, end))
  }

  /** The links are those of a graph on the walkable nodes: symmetric, without self-links or repeats. */
  ghost predicate WellLinked(g: Garden)
  {
    Distinct(g.walkable) && ListsDistinct(g) && LinksSymmetric(g)
  }

  /** No walkable node repeats a neighbour or is its own neighbour. */
  ghost predicate ListsDistinct(g: Garden)
  {
    forall a :: a in g.walkable ==> Distinct(NeighborsIn(g.neighbors, a)) && a !in NeighborsIn(g.neighbors, a)
  }

  /** The neighbours of a walkable node are walkable and link back to it. */
  ghost predicate LinksSymmetric(g: Garden)
  {
    forall a, b :: a in g.walkable && b in NeighborsIn(g.neighbors, a) ==> b in g.walkable && a in NeighborsIn(g.neighbors, b)
  }

  /** The total `nSteps` of `nodes`. */
  function TotalSteps(steps: map<Pos, int>, nodes: seq<Pos>): int
    decreases |nodes|
  {
    if nodes == [] then 0 else StepsIn(steps, nodes[0]) + TotalSteps(steps, nodes[1..])
  }

  lemma {:induction false} TotalWithout(steps: map<Pos, int>, nodes: seq<Pos>, x: Pos)
    requires Distinct(nodes) && x in nodes
    ensures TotalSteps(steps, nodes) == TotalSteps(steps, Without(nodes, x)) + StepsIn(steps, x)
    decreases |nodes|
  {
    WithoutKeepsDistinct(nodes, x);
    if nodes[0] == x {
      assert x !in nodes[1..];
      WithoutKeepsDistinct(nodes[1..], x);
    } else {
      TotalWithout(steps, nodes[1..], x);
      var w := Without(nodes[1..], x);
      assert ([nodes[0]] + w)[1..] == w;
    }
  }

  lemma {:induction false} TotalUpdate(steps: map<Pos, int>, nodes: seq<Pos>, x: Pos, v: int)
    requires Distinct(nodes)
    ensures TotalSteps(steps[x := v], nodes) == TotalSteps(steps, nodes) + (if x in nodes then v - StepsIn(steps, x) else 0)
    decreases |nodes|
  {
    if nodes != [] {
      TotalUpdate(steps, nodes[1..], x, v);
    }
  }

  /**
   * A collapse of `node` (with neighbours `first` and `second`) removes it from the walkable
   * nodes, adds its steps to `first`, and marks it collapsed.
   */
  lemma CollapseShape(g: Garden, node: Pos, start: Pos, end: Pos)
    requires Collapses(g, node, start, end)
    requires Distinct(NeighborsIn(g.neighbors, node)) && node !in NeighborsIn(g.neighbors, node)
    requires forall b :: b in NeighborsIn(g.neighbors, node) ==> b in g.walkable
    ensures var nbrs, r := NeighborsIn(g.neighbors, node), Collapse(g, node, start, end);
      nbrs == [nbrs[0], nbrs[1]] && nbrs[0] != nbrs[1] && nbrs[0] != node && nbrs[1] != node
      && nbrs[0] in g.walkable && nbrs[1] in g.walkable
      && r.neighbors == Relink(g.neighbors, node, nbrs[0], nbrs[1])
      && (forall a :: a in r.walkable <==> a in g.walkable && a != node)
      && r.walkable == Without(g.walkable, node)
      && r.steps == MergeSteps(g.steps, nbrs[0], node)
      && r.directions == g.directions && r.collapsed == g.collapsed + {node}
  {
    var nbrs := NeighborsIn(g.neighbors, node);
    assert nbrs[0] in nbrs && nbrs[1] in nbrs;
  }

  /**
   * `r` is `g` after collapsing `node` between `first` and `second`, as far as the links
   * and the walkable nodes are concerned.
   */
  ghost predicate RelinkedFrom(g: Garden, r: Garden, node: Pos, first: Pos, second: Pos)
  {
    && NeighborsIn(g.neighbors, node) == [first, second]
    && first != second && first != node && second != node && first in g.walkable && second in g.walkable
    && (forall b :: b in NeighborsIn(r.neighbors, first) <==> (b in NeighborsIn(g.neighbors, first) && b != node) || b == second)
    && (forall b :: b in NeighborsIn(r.neighbors, second) <==> (b in NeighborsIn(g.neighbors, second) && b != node) || b == first)
    && (forall a :: a != first && a != second ==> NeighborsIn(r.neighbors, a) == NeighborsIn(g.neighbors, a))
    && r.walkable == Without(g.walkable, node)
  }

  /** After a collapse, given as the neighbour lists `RelinkHas` describes, no walkable node lists the collapsed node. */
  lemma RelinkedDetached(g: Garden, r: Garden, node: Pos, first: Pos, second: Pos)
    requires LinksSymmetric(g) && node in g.walkable
    requires RelinkedFrom(g, r, node, first, second)
    ensures forall a :: a in r.walkable ==> node !in NeighborsIn(r.neighbors, a)
  {
    assert forall a :: a in g.walkable && node in NeighborsIn(g.neighbors, a) ==> a in NeighborsIn(g.neighbors, node);
  }

  /** After a collapse every walkable node still has a list without repeats that does not hold itself. */
  lemma RelinkedListsDistinct(g: Garden, r: Garden, node: Pos, first: Pos, second: Pos)
    requires ListsDistinct(g) && node in g.walkable
    requires RelinkedFrom(g, r, node, first, second)
    requires Distinct(NeighborsIn(r.neighbors, first)) && Distinct(NeighborsIn(r.neighbors, second))
    ensures ListsDistinct(r)
  {
  }

  /** After a collapse the links are still symmetric and stay among the walkable nodes. */
  lemma RelinkedSymmetric(g: Garden, r: Garden, node: Pos, first: Pos, second: Pos)
    requires LinksSymmetric(g) && ListsDistinct(g) && node in g.walkable
    requires RelinkedFrom(g, r, node, first, second)
    ensures LinksSymmetric(r)
  {
    forall a, b | a in r.walkable && b in NeighborsIn(r.neighbors, a)
      ensures b in r.walkable && a in NeighborsIn(r.neighbors, b)
    {
      RelinkedLink(g, r, node, first, second, a, b);
    }
  }

  /** One instance of `LinksSymmetric`. */
  lemma LinkBack(g: Garden, a: Pos, b: Pos)
    requires LinksSymmetric(g) && a in g.walkable && b in NeighborsIn(g.neighbors, a)
    ensures b in g.walkable && a in NeighborsIn(g.neighbors, b)
  {
  }

  /** A link `a`–`b` after a collapse has its reverse, between walkable nodes. */
  lemma RelinkedLink(g: Garden, r: Garden, node: Pos, first: Pos, second: Pos, a: Pos, b: Pos)
    requires LinksSymmetric(g) && node in g.walkable
    requires RelinkedFrom(g, r, node, first, second)
    requires a in r.walkable && b in NeighborsIn(r.neighbors, a) && a !in NeighborsIn(g.neighbors, a)
    ensures b in r.walkable && a in NeighborsIn(r.neighbors, b)
  {
    assert a in g.walkable && a != node;
    if a == first || a == second {
      var other := if a == first then second else first;
      if b != other {
        assert b in NeighborsIn(g.neighbors, a) && b != node;
        LinkBack(g, a, b);
        assert b != a;
      }
    } else {
      assert b in NeighborsIn(g.neighbors, a);
      assert b != node by {
        assert a !in NeighborsIn(g.neighbors, node);
      }
      LinkBack(g, a, b);
    }
  }

  /**
   * A collapse keeps the map well linked and keeps the total `nSteps` over the walkable
   * nodes; the collapsed node is no one's neighbour any more.
   */
  lemma CollapseKeeps(g: Garden, node: Pos, start: Pos, end: Pos)
    requires WellLinked(g) && node in g.walkable
    ensures var r := Collapse(g, node, start, end);
      WellLinked(r)
      && TotalSteps(r.steps, r.walkable) == TotalSteps(g.steps, g.walkable)
      && (forall a :: a in r.walkable <==> a in g.walkable && (a != node || !Collapses(g, node, start, end)))
      && (Collapses(g, node, start, end) ==> |r.walkable| < |g.walkable|)
      && (Collapses(g, node, start, end) ==> forall a :: a in r.walkable ==> node !in NeighborsIn(r.neighbors, a))
  {
    if Collapses(g, node, start, end) {
      var nbrs := NeighborsIn(g.neighbors, node);
      CollapseShape(g, node, start, end);
      var r := Collapse(g, node, start, end);
      CollapseKeepsTotal(g, r, node, nbrs[0]);
      WithoutKeepsDistinct(g.walkable, node);
      RelinkHas(g.neighbors, node, nbrs[0], nbrs[1]);
      assert RelinkedFrom(g, r, node, nbrs[0], nbrs[1]);
      CollapseKeepsLinks(g, r, node, nbrs[0], nbrs[1]);
    }
  }

  lemma CollapseKeepsLinks(g: Garden, r: Garden, node: Pos, first: Pos, second: Pos)
    requires WellLinked(g) && node in g.walkable
    requires RelinkedFrom(g, r, node, first, second)
    requires Distinct(NeighborsIn(r.neighbors, first)) && Distinct(NeighborsIn(r.neighbors, second))
    ensures WellLinked(r)
    ensures forall a :: a in r.walkable ==> node !in NeighborsIn(r.neighbors, a)
  {
    WithoutKeepsDistinct(g.walkable, node);
    RelinkedDetached(g, r, node, first, second);
    RelinkedListsDistinct(g, r, node, first, second);
    RelinkedSymmetric(g, r, node, first, second);
  }

  /** Moving the steps of `node` onto `first` while deleting `node` keeps the total. */
  lemma CollapseKeepsTotal(g: Garden, r: Garden, node: Pos, first: Pos)
    requires Distinct(g.walkable) && node in g.walkable && first in g.walkable && first != node
    requires r.walkable == Without(g.walkable, node)
    requires r.steps == MergeSteps(g.steps, first, node)
    ensures TotalSteps(r.steps, r.walkable) == TotalSteps(g.steps, g.walkable)
  {
    var v := StepsIn(g.steps, first) + StepsIn(g.steps, node);
    assert r.steps == g.steps[first := v];
    assert first in r.walkable;
    WithoutKeepsDistinct(g.walkable, node);
    TotalWithout(g.steps, g.walkable, node);
    TotalUpdate(g.steps, r.walkable, first, v);
    var before, after := TotalSteps(g.steps, r.walkable), TotalSteps(r.steps, r.walkable);
    assert after == before + v - StepsIn(g.steps, first);
  }

  /**
   * A pass over distinct walkable nodes keeps the map well linked and the total `nSteps`;
   * a pass that collapses something deletes a walkable node, and one that collapses nothing
   * changes nothing.
   */
  lemma {:induction false} PassSpec(g: Garden, nodes: seq<Pos>, start: Pos, end: Pos)
    requires WellLinked(g) && Distinct(nodes) && forall n :: n in nodes ==> n in g.walkable
    ensures var r := PrunePass(g, nodes, start, end);
      WellLinked(r.0) && TotalSteps(r.0.steps, r.0.walkable) == TotalSteps(g.steps, g.walkable)
      && (forall a :: a in r.0.walkable ==> a in g.walkable)
      && (forall a :: a in g.walkable && a !in nodes ==> a in r.0.walkable)
      && (r.1 ==> |r.0.walkable| < |g.walkable|)
      && (!r.1 ==> r.0 == g)
    decreases |nodes|
  {
    if nodes != [] {
      var init, node := nodes[..|nodes| - 1], nodes[|nodes| - 1];
      assert forall n :: n in init ==> n in nodes;
      assert Distinct(init);
      PassSpec(g, init, start, end);
      var h := PrunePass(g, init, start, end).0;
      assert node !in init && node in g.walkable;
      assert node in h.walkable;
      CollapseKeeps(h, node, start, end);
    }
  }

  /** `prune`: passes until one collapses nothing. */
  function PruneAll(g: Garden, start: Pos, end: Pos): Garden
    requires WellLinked(g)
    decreases |g.walkable|
  {
    var r := PrunePass(g, g.walkable, start, end);
    PassSpec(g, g.walkable, start, end);
    if !r.1 then r.0 else PruneAll(r.0, start, end)
  }

  /**
   * After `prune` the map is still well linked, the total `nSteps` over the walkable nodes
   * is unchanged, no walkable node can be collapsed any more, and only walkable nodes remain.
   */
  lemma {:induction false} PruneAllSpec(g: Garden, start: Pos, end: Pos)
    requires WellLinked(g)
    ensures var r := PruneAll(g, start, end);
      WellLinked(r) && TotalSteps(r.steps, r.walkable) == TotalSteps(g.steps, g.walkable)
      && (forall a :: a in r.walkable ==> a in g.walkable)
      && (forall a :: a in r.walkable ==> !Collapses(r, a, start, end))
    decreases |g.walkable|
  {
    var r := PrunePass(g, g.walkable, start, end);
    PassSpec(g, g.walkable, start, end);
    if !r.1 {
      PassCollapsesNothing(g, g.walkable, start, end);
    } else {
      PruneAllSpec(r.0, start, end);
    }
  }

  /** A pass that collapses nothing found no node it could collapse. */
  lemma {:induction false} PassCollapsesNothing(g: Garden, nodes: seq<Pos>, start: Pos, end: Pos)
    requires !PrunePass(g, nodes, start, end).1
    ensures PrunePass(g, nodes, start, end).0 == g
    ensures forall n :: n in nodes ==> !Collapses(g, n, start, end)
    decreases |nodes|
  {
    if nodes != [] {
      PassCollapsesNothing(g, nodes[..|nodes| - 1], start, end);
      assert forall n :: n in nodes ==> n in nodes[..|nodes| - 1] || n == nodes[|nodes| - 1];
    }
  }

  /** The constructor leaves a graph on the walkable nodes. */
  lemma BuiltWellLinked(tiles: Grid.Rows<char>)
    ensures WellLinked(Built(tiles, Grid.Positions(tiles)))
  {
    BuiltExactly(tiles);
  }

  // The longest hike.

  /** An entry of the `longestPath` queue: the node reached, the path there, and its length in steps. */
  datatype Hike = Hike(node: Pos, path: seq<Pos>, pathLength: int)

  /** Objects are truthy: no entry is dropped. */
  predicate Truthy(h: Hike) { true }

  /**
   * The step condition of `longestPath`: `next` is a path, or slopes are allowed and it is a
   * slope, or the recorded direction from `node` to `next` is `next`'s slope symbol.
   */
  predicate MayEnter(tiles: Grid.Rows<char>, g: Garden, allowSlopes: bool, node: Pos, next: Pos)
  {
    var symbol := SymbolAt(tiles, next);
    symbol.Some? && (IsPath(symbol.value) || (allowSlopes && IsSlope(symbol.value))
                     || DirectionIn(g.directions, node, next) == Some(symbol.value))
  }

  /** The entries the callback adds from `hike`, over the neighbours `nbrs` in order. */
  function Extensions(tiles: Grid.Rows<char>, g: Garden, allowSlopes: bool, hike: Hike, nbrs: seq<Pos>): seq<Hike>
    decreases |nbrs|
  {
    if nbrs == [] then []
    else
      var next := nbrs[|nbrs| - 1];
      Extensions(tiles, g, allowSlopes, hike, nbrs[..|nbrs| - 1])
      + (if next !in hike.path && MayEnter(tiles, g, allowSlopes, hike.node, next)
         then [Hike(next, hike.path + [next], hike.pathLength + StepsIn(g.steps, next))]
         else [])
  }

  /**
   * The callback adds exactly one entry per neighbour that is off the path and may be
   * entered: the path extended by it, longer by its steps.
   */
  lemma {:induction false} ExtensionsExactly(tiles: Grid.Rows<char>, g: Garden, allowSlopes: bool, hike: Hike, nbrs: seq<Pos>)
    ensures forall h :: h in Extensions(tiles, g, allowSlopes, hike, nbrs) <==>
      h.node in nbrs && h.node !in hike.path && MayEnter(tiles, g, allowSlopes, hike.node, h.node)
      && h.path == hike.path + [h.node] && h.pathLength == hike.pathLength + StepsIn(g.steps, h.node)
    decreases |nbrs|
  {
    if nbrs != [] {
      var init := nbrs[..|nbrs| - 1];
      ExtensionsExactly(tiles, g, allowSlopes, hike, init);
      assert forall n :: n in nbrs <==> n in init || n == nbrs[|nbrs| - 1];
    }
  }

  /** The callback of `longestPath`: at the end it records a longer length; elsewhere it adds the extensions. */
  function Explore(tiles: Grid.Rows<char>, g: Garden, allowSlopes: bool, end: Pos): (int, Hike) -> (int, seq<Hike>)
  {
    (longest: int, hike: Hike) =>
      if hike.node == end then (Record(end, longest, hike), [])
      else (longest, Extensions(tiles, g, allowSlopes, hike, NeighborsIn(g.neighbors, hike.node)))
  }

  /** `longestPath` after seeing `hike`. */
  function Record(end: Pos, longest: int, hike: Hike): int
  {
    if hike.node == end && hike.pathLength > longest then hike.pathLength else longest
  }

  /** The drain of `longestPath`, bounded by `fuel` pops. */
  function Search(tiles: Grid.Rows<char>, g: Garden, allowSlopes: bool, start: Pos, end: Pos, fuel: nat): Drain<int, Hike>
  {
    DrainLifo([Hike(start, [start], 0)], 0, Explore(tiles, g, allowSlopes, end), Truthy, fuel)
  }

  /** `longestPath`'s result, or None when the drain outlasts `fuel`. */
  function LongestHike(tiles: Grid.Rows<char>, g: Garden, allowSlopes: bool, start: Pos, end: Pos, fuel: nat): Option<int>
  {
    var d := Search(tiles, g, allowSlopes, start, end, fuel);
    if d.pending == [] then Some(d.state) else None
  }

  /** The largest of `best` and the lengths of the entries of `hikes` at the end. */
  function Best(end: Pos, hikes: seq<Hike>, best: int): int
    decreases |hikes|
  {
    if hikes == [] then best else Best(end, hikes[1..], Record(end, best, hikes[0]))
  }

  lemma {:induction false} BestSpec(end: Pos, hikes: seq<Hike>, best: int)
    ensures var r := Best(end, hikes, best);
      r >= best
      && (forall k :: 0 <= k < |hikes| && hikes[k].node == end ==> hikes[k].pathLength <= r)
      && (r == best || exists k :: 0 <= k < |hikes| && hikes[k].node == end && hikes[k].pathLength == r)
    decreases |hikes|
  {
    if hikes != [] {
      var next := Record(end, best, hikes[0]);
      BestSpec(end, hikes[1..], next);
      var r := Best(end, hikes, best);
      assert forall k :: 1 <= k < |hikes| ==> hikes[k] == hikes[1..][k - 1];
      if r != best && r == next {
        assert hikes[0].node == end && hikes[0].pathLength == r;
      } else if r != best {
        var k :| 0 <= k < |hikes[1..]| && hikes[1..][k].node == end && hikes[1..][k].pathLength == r;
        assert hikes[k + 1].node == end && hikes[k + 1].pathLength == r;
      }
    }
  }

  /**
   * A simple path from `start` along the links: it starts there, ends at the entry's node,
   * repeats no node, and its length is the `nSteps` of its nodes after the start.
   */
  ghost predicate SimplePath(g: Garden, start: Pos, h: Hike)
  {
    h.path != [] && h.path[0] == start && h.path[|h.path| - 1] == h.node && Distinct(h.path)
    && (forall k :: 0 <= k < |h.path| - 1 ==> h.path[k + 1] in NeighborsIn(g.neighbors, h.path[k]))
    && h.pathLength == TotalSteps(g.steps, h.path[1..])
  }

  lemma {:induction false} TotalSnoc(steps: map<Pos, int>, nodes: seq<Pos>, x: Pos)
    ensures TotalSteps(steps, nodes + [x]) == TotalSteps(steps, nodes) + StepsIn(steps, x)
    decreases |nodes|
  {
    if nodes != [] {
      assert (nodes + [x])[1..] == nodes[1..] + [x];
      TotalSnoc(steps, nodes[1..], x);
    } else {
      assert [x][1..] == [];
    }
  }

  /** A simple path extended by a linked node off the path is a simple path. */
  lemma ExtendSimple(g: Garden, start: Pos, hike: Hike, next: Pos)
    requires SimplePath(g, start, hike)
    requires next in NeighborsIn(g.neighbors, hike.node) && next !in hike.path
    ensures SimplePath(g, start, Hike(next, hike.path + [next], hike.pathLength + StepsIn(g.steps, next)))
  {
    var p := hike.path;
    var q := p + [next];
    assert q[1..] == p[1..] + [next];
    TotalSnoc(g.steps, p[1..], next);
    forall k | 0 <= k < |q| - 1
      ensures q[k + 1] in NeighborsIn(g.neighbors, q[k])
    {
      if k < |p| - 1 {
        assert q[k] == p[k] && q[k + 1] == p[k + 1];
      }
    }
    forall i, j | 0 <= i < j < |q|
      ensures q[i] != q[j]
    {
      if j < |p| {
        assert q[i] == p[i] && q[j] == p[j];
      } else {
        assert q[i] in p;
      }
    }
  }

  /** Every entry added from a simple path is a simple path one node longer. */
  lemma ExtensionsSimple(tiles: Grid.Rows<char>, g: Garden, allowSlopes: bool, start: Pos, hike: Hike)
    requires SimplePath(g, start, hike)
    ensures forall h :: h in Extensions(tiles, g, allowSlopes, hike, NeighborsIn(g.neighbors, hike.node)) ==> SimplePath(g, start, h)
  {
    ExtensionsExactly(tiles, g, allowSlopes, hike, NeighborsIn(g.neighbors, hike.node));
    forall h | h in Extensions(tiles, g, allowSlopes, hike, NeighborsIn(g.neighbors, hike.node))
      ensures SimplePath(g, start, h)
    {
      ExtendSimple(g, start, hike, h.node);
      assert h == Hike(h.node, hike.path + [h.node], hike.pathLength + StepsIn(g.steps, h.node));
    }
  }

  ghost predicate AllSimple(g: Garden, start: Pos, hikes: seq<Hike>)
  {
    forall k :: 0 <= k < |hikes| ==> SimplePath(g, start, hikes[k])
  }

  /** What is left on the stack after one pop: the rest of the stack and the new entries. */
  lemma SimpleBelow(g: Garden, start: Pos, pending: seq<Hike>, added: seq<Hike>)
    requires pending != [] && AllSimple(g, start, pending)
    requires forall h :: h in added ==> SimplePath(g, start, h)
    ensures AllSimple(g, start, Init(pending) + added)
  {
    var below := Init(pending) + added;
    forall k | 0 <= k < |below|
      ensures SimplePath(g, start, below[k])
    {
      if k < |Init(pending)| {
        assert below[k] == pending[k];
      } else {
        assert below[k] in added;
      }
    }
  }

  /**
   * One pop of `longestPath` from simple paths: the popped entry is a simple path, and so is
   * everything on the stack afterwards; the recorded length is updated by `Record`.
   */
  lemma PopSimple(tiles: Grid.Rows<char>, g: Garden, allowSlopes: bool, start: Pos, end: Pos,
                  pending: seq<Hike>, longest: int)
    requires pending != [] && AllSimple(g, start, pending)
    ensures var step := Explore(tiles, g, allowSlopes, end)(longest, Last(pending));
      SimplePath(g, start, Last(pending)) && AllSimple(g, start, Init(pending) + step.1)
      && step.0 == Record(end, longest, Last(pending))
  {
    var hike := Last(pending);
    assert SimplePath(g, start, hike);
    if hike.node != end {
      ExtensionsSimple(tiles, g, allowSlopes, start, hike);
    }
    SimpleBelow(g, start, pending, Explore(tiles, g, allowSlopes, end)(longest, hike).1);
  }

  lemma ConsSimple(g: Garden, start: Pos, hike: Hike, hikes: seq<Hike>)
    requires SimplePath(g, start, hike) && AllSimple(g, start, hikes)
    ensures AllSimple(g, start, [hike] + hikes)
  {
    forall k | 0 <= k < |[hike] + hikes|
      ensures SimplePath(g, start, ([hike] + hikes)[k])
    {
      if k > 0 {
        assert ([hike] + hikes)[k] == hikes[k - 1];
      }
    }
  }

  /**
   * Draining from simple paths visits only simple paths, and the recorded length is the
   * largest of the start value and the lengths of the visited entries at the end.
   */
  lemma {:induction false} SearchSound(tiles: Grid.Rows<char>, g: Garden, allowSlopes: bool, start: Pos, end: Pos,
                                       pending: seq<Hike>, longest: int, fuel: nat)
    requires AllSimple(g, start, pending)
    ensures var d := DrainLifo(pending, longest, Explore(tiles, g, allowSlopes, end), Truthy, fuel);
      AllSimple(g, start, d.visited) && d.state == Best(end, d.visited, longest)
    decreases fuel
  {
    var visit := Explore(tiles, g, allowSlopes, end);
    if pending != [] && fuel > 0 {
      var hike := Last(pending);
      var step := visit(longest, hike);
      PopSimple(tiles, g, allowSlopes, start, end, pending, longest);
      var below := Init(pending) + step.1;
      SearchSound(tiles, g, allowSlopes, start, end, below, step.0, fuel - 1);
      var rest := DrainLifo(below, step.0, visit, Truthy, fuel - 1);
      var d := DrainLifo(pending, longest, visit, Truthy, fuel);
      assert d.visited == [hike] + rest.visited && d.state == rest.state;
      assert d.visited[1..] == rest.visited;
      ConsSimple(g, start, hike, rest.visited);
    }
  }

  /**
   * `longestPath` explores only simple paths from the start; its result is at least every
   * explored length that reaches the end, and is 0 or one of them.
   */
  lemma LongestHikeSpec(tiles: Grid.Rows<char>, g: Garden, allowSlopes: bool, start: Pos, end: Pos, fuel: nat)
    ensures var d, r := Search(tiles, g, allowSlopes, start, end, fuel), LongestHike(tiles, g, allowSlopes, start, end, fuel);
      (forall k :: 0 <= k < |d.visited| ==> SimplePath(g, start, d.visited[k]))
      && (r.Some? ==>
            r.value >= 0
            && (forall k :: 0 <= k < |d.visited| && d.visited[k].node == end ==> d.visited[k].pathLength <= r.value)
            && (r.value == 0 || exists k :: 0 <= k < |d.visited| && d.visited[k].node == end && d.visited[k].pathLength == r.value))
  {
    var first := Hike(start, [start], 0);
    assert first.path[1..] == [];
    assert SimplePath(g, start, first);
    SearchSound(tiles, g, allowSlopes, start, end, [first], 0, fuel);
    var d := Search(tiles, g, allowSlopes, start, end, fuel);
    BestSpec(end, d.visited, 0);
  }

  // The garden map object.

  /**
   * `GardenMap`: the parsed cells, the start and end nodes, whether slopes may be climbed,
   * and the nodes' state, which the constructor and `prune` update in place.
   */
  class GardenMap {
    const tiles: Grid.Rows<char>
    const start: Pos
    const end: Pos
    const allowSlopes: bool
    var walkable: seq<Pos>
    var neighbors: map<Pos, seq<Pos>>
    var directions: map<(Pos, Pos), char>
    var steps: map<Pos, int>
    var collapsed: set<Pos>

    function Current(): Garden
      reads this
    {
      Garden(walkable, neighbors, directions, steps, collapsed)
    }

    /** The `forEach` over the grid of fresh nodes, linking every walkable node to its walkable neighbours. */
    constructor (tiles: Grid.Rows<char>, start: Pos, end: Pos, allowSlopes: bool)
      ensures this.tiles == tiles && this.start == start && this.end == end && this.allowSlopes == allowSlopes
      ensures Current() == Built(tiles, Grid.Positions(tiles))
    {
      this.tiles, this.start, this.end, this.allowSlopes := tiles, start, end, allowSlopes;
      walkable, neighbors, directions, steps, collapsed := [], map[], map[], map[], {};
      new;
      var ps := Grid.Positions(tiles);
      for i := 0 to |ps|
        invariant this.tiles == tiles && Current() == Built(tiles, ps[..i])
      {
        VisitNode(ps[i]);
        assert ps[..i + 1][..i] == ps[..i];
      }
      assert ps[..|ps|] == ps;
    }

    /** The `forEach` callback at the cell `p`. */
    method VisitNode(p: Pos)
      modifies this
      ensures Current() == VisitCell(tiles, old(Current()), p)
    {
      var symbol := SymbolAt(tiles, p);
      if symbol.Some? && !IsForest(symbol.value) {
        walkable := AddNew(walkable, p);
        ghost var entry := Current();
        var ds := Directions();
        for k := 0 to |ds|
          invariant Current() == LinkDirs(tiles, entry, p, ds[..k])
        {
          LinkNeighbor(p, ds[k]);
          assert ds[..k + 1][..k] == ds[..k];
        }
        assert ds[..|ds|] == ds;
      }
    }

    /** One direction of the callback: a walkable neighbour is linked both ways, with the two directions. */
    method LinkNeighbor(p: Pos, d: char)
      modifies this
      ensures Current() == LinkDir(tiles, old(Current()), p, d)
    {
      var q := Step(p, d);
      var symbol := SymbolAt(tiles, q);
      if symbol.Some? && !IsForest(symbol.value) {
        walkable := AddNew(walkable, q);
        neighbors := neighbors[p := AddNew(NeighborsIn(neighbors, p), q)];
        directions := directions[(p, q) := d];
        neighbors := neighbors[q := AddNew(NeighborsIn(neighbors, q), p)];
        directions := directions[(q, p) := ReverseDirection(d)];
      }
    }

    /**
     * `prune`: passes over the walkable nodes until one collapses nothing. The map stays well
     * linked, and afterwards no walkable node can be collapsed.
     */
    method Prune()
      requires WellLinked(Current())
      modifies this
      ensures Current() == PruneAll(old(Current()), start, end)
      ensures WellLinked(Current()) && forall a :: a in walkable ==> !Collapses(Current(), a, start, end)
    {
      PruneAllSpec(Current(), start, end);
      var pruned := true;
      while pruned
        invariant WellLinked(Current())
        invariant (if pruned then PruneAll(Current(), start, end) else Current()) == PruneAll(old(Current()), start, end)
        decreases |walkable| + (if pruned then 1 else 0)
      {
        ghost var before := Current();
        PassSpec(before, before.walkable, start, end);
        pruned := PruneOnce();
      }
    }

    /**
     * One pass of `prune`'s `for` loop, over the walkable nodes as they stand when it starts; a
     * collapse deletes only the node in hand, so iterating the live set visits the same nodes.
     */
    method PruneOnce() returns (pruned: bool)
      modifies this
      ensures (Current(), pruned) == PrunePass(old(Current()), old(walkable), start, end)
    {
      pruned := false;
      var nodes := walkable;
      for i := 0 to |nodes|
        invariant (Current(), pruned) == PrunePass(old(Current()), nodes[..i], start, end)
      {
        var done := CollapseNode(nodes[i]);
        pruned := pruned || done;
        assert nodes[..i + 1][..i] == nodes[..i];
      }
      assert nodes[..|nodes|] == nodes;
    }

    /** The body of `prune`'s `for` loop at `node`. */
    method CollapseNode(node: Pos) returns (done: bool)
      modifies this
      ensures Current() == Collapse(old(Current()), node, start, end)
      ensures done == Collapses(old(Current()), node, start, end)
    {
      done := false;
      var nbrs := NeighborsIn(neighbors, node);
      if node != start && node != end && |nbrs| == 2 {
        var first, second := nbrs[0], nbrs[1];
        if |NeighborsIn(neighbors, first)| != 2 {
          return;
        }
        neighbors := neighbors[first := Without(NeighborsIn(neighbors, first), node)];
        neighbors := neighbors[second := Without(NeighborsIn(neighbors, second), node)];
        neighbors := neighbors[first := AddNew(NeighborsIn(neighbors, first), second)];
        neighbors := neighbors[second := AddNew(NeighborsIn(neighbors, second), first)];
        steps := steps[first := StepsIn(steps, first) + StepsIn(steps, node)];
        walkable := Without(walkable, node);
        collapsed := collapsed + {node};
        done := true;
        assert neighbors == Relink(old(neighbors), node, first, second);
      }
    }

    /**
     * `longestPath`, with the queue's `process` loop bounded by `fuel` pops; None when the
     * entries outlast it.
     */
    method LongestPath(fuel: nat) returns (longest: Option<int>)
      ensures longest == LongestHike(tiles, Current(), allowSlopes, start, end, fuel)
    {
      var queue := new Stack<Hike>(Truthy);
      queue.Push(Hike(start, [start], 0));
      var longestPath, _ := queue.Process(Explore(tiles, Current(), allowSlopes, end), 0, fuel);
      longest := if queue.stack == [] then Some(longestPath) else None;
    }
  }

  /** The cells of the non-empty lines; a node holds its symbol. */
  function Tiles(rows: seq<string>): Grid.Rows<char>
  {
    Grid.Filled(rows, Symbol, Grid.MaxWidth(rows))
  }

  /** The `from2DArray` callback: a node made from the input character. */
  function Symbol(input: char, row: int, col: int): char
  {
    input
  }

  /** `grid.getAt(grid.height - 1, grid.width - 2)`: the end node's cell. */
  function EndOf(rows: seq<string>): Pos
  {
    (|rows| - 1, Grid.MaxWidth(rows) - 2)
  }

  /** Lines that yield a grid with a start and an end node. */
  predicate HasEnds(rows: seq<string>)
  {
    rows != [] && Grid.MaxWidth(rows) > 0 && 1 < |rows[0]|
    && 0 <= Grid.MaxWidth(rows) - 2 < |rows[|rows| - 1]|
  }

  /**
   * The `GardenMap` constructor: the grid of the non-empty lines, the start at row 0 and
   * column 1 and the end at the last row and the last column but one, or the error thrown
   * when the grid cannot be built or one of the two is missing.
   */
  method NewGardenMap(lines: seq<string>, allowSlopes: bool) returns (r: Result<GardenMap>)
    ensures var rows := Text.NonEmpty(lines);
      (r.Failure? <==> !HasEnds(rows))
      && (r.Failure? ==> r.error == if rows == [] || Grid.MaxWidth(rows) == 0 then "Invalid input dimensions" else "No start node found")
      && (r.Success? ==>
            fresh(r.value) && r.value.tiles == Tiles(rows) && r.value.start == (0, 1) && r.value.end == EndOf(rows)
            && r.value.allowSlopes == allowSlopes
            && r.value.Current() == Built(Tiles(rows), Grid.Positions(Tiles(rows))))
  {
    var rows := Text.NonEmpty(lines);
    var grid := Grid.From2DArray(rows, Symbol, (c: char) => true, (c: char) => [c]);
    if grid.Failure? {
      return Failure(grid.error);
    }
    var g := grid.value;
    EndsInTiles(rows);
    if g.GetAt(0, 1).None? {
      return Failure("No start node found");
    }
    if g.GetAt(g.height - 1, g.width - 2).None? {
      return Failure("No start node found");
    }
    var m := new GardenMap(g.rows, (0, 1), (g.height - 1, g.width - 2), allowSlopes);
    r := Success(m);
  }

  /** The start and end cells are in the grid of `rows` exactly when `rows` has both ends. */
  lemma EndsInTiles(rows: seq<string>)
    requires rows != [] && Grid.MaxWidth(rows) > 0
    ensures var tiles, e := Tiles(rows), EndOf(rows);
      HasEnds(rows) <==> Grid.Lookup(tiles, 0, 1).Some? && Grid.Lookup(tiles, e.0, e.1).Some?
  {
  }

  /** `part1`: the longest hike that never climbs a slope. */
  method Part1(lines: seq<string>, fuel: nat) returns (r: Result<Option<int>>)
    ensures var rows := Text.NonEmpty(lines);
      (r.Failure? <==> !HasEnds(rows))
      && (r.Success? ==> r.value == LongestHike(Tiles(rows), Built(Tiles(rows), Grid.Positions(Tiles(rows))), false, (0, 1), EndOf(rows), fuel))
  {
    var m := NewGardenMap(lines, false);
    if m.Failure? {
      return Failure(m.error);
    }
    var longest := m.value.LongestPath(fuel);
    r := Success(longest);
  }

  /** The nodes' state once the constructor and `prune` have run. */
  function Pruned(rows: seq<string>): Garden
  {
    var tiles := Tiles(rows);
    BuiltWellLinked(tiles);
    PruneAll(Built(tiles, Grid.Positions(tiles)), (0, 1), EndOf(rows))
  }

  /** `part2`: slopes may be climbed; the map is pruned, then searched. */
  method Part2(lines: seq<string>, fuel: nat) returns (r: Result<Option<int>>)
    ensures var rows := Text.NonEmpty(lines);
      (r.Failure? <==> !HasEnds(rows))
      && (r.Success? ==> r.value == LongestHike(Tiles(rows), Pruned(rows), true, (0, 1), EndOf(rows), fuel))
  {
    var m := NewGardenMap(lines, true);
    if m.Failure? {
      return Failure(m.error);
    }
    BuiltWellLinked(m.value.tiles);
    m.value.Prune();
    var longest := m.value.LongestPath(fuel);
    r := Success(longest);
  }
}
