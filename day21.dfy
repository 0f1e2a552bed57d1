/**
 * Day 21: a gardener walks from the start one orthogonal step at a time on a map that
 * repeats in every direction, never onto a rock. `countGardens` walks breadth first from
 * the start, records the step count at which it first reaches each cell, going at most
 * `nSteps` steps, and counts the cells whose count has the parity of `nSteps`. What is
 * proved of the count is `GardensCounted`: the counted cells are exactly the cells reached
 * with that parity, every count is at most `nSteps`, and no reached cell but the start is a
 * rock. That the step counts are shortest distances, so that the count is the number of
 * plots a walk of exactly `nSteps` can end on, is not proved.
 */
module Day21 {
  import opened Wrappers
  import opened Worklist
  import opened Queue
  import Grid
  import Text
  import Arithmetic

  type Pos = (int, int)

  /** `MapSymbols`. */
  const StartSymbol := 'S'
  const GardenSymbol := '.'
  const RockSymbol := '#'

  /** The parsed map: the grid's cells (the start read as a garden plot), its size, and the start. */
  datatype Garden = Garden(tiles: Grid.Rows<char>, height: nat, width: nat, start: Pos)

  /** The node callback of `parseInput`: the start becomes a garden plot. */
  function Tile(input: char, row: int, col: int): char
  {
    if input == StartSymbol then GardenSymbol else input
  }

  /** The last index at which `ch` occurs in `s`. */
  function LastIndexOf(s: string, ch: char): (r: nat)
    requires ch in s
    ensures r < |s| && s[r] == ch && forall j :: r < j < |s| ==> s[j] != ch
  {
    if s[|s| - 1] == ch then |s| - 1
    else
      assert ch in s[..|s| - 1] by {
        var i :| 0 <= i < |s| && s[i] == ch;
        assert s[..|s| - 1][i] == ch;
      }
      LastIndexOf(s[..|s| - 1], ch)
  }

  /**
   * Where the callback of `parseInput` leaves `start`: the callback runs on the cells in
   * row-major order and records every start symbol, so the last one wins; `(0, 0)` when
   * there is none.
   */
  function StartIn(rows: seq<string>): Pos
  {
    if rows == [] then (0, 0)
    else if StartSymbol in rows[|rows| - 1] then (|rows| - 1, LastIndexOf(rows[|rows| - 1], StartSymbol))
    else StartIn(rows[..|rows| - 1])
  }

  predicate HasStart(rows: seq<string>)
  {
    exists i, j :: 0 <= i < |rows| && 0 <= j < |rows[i]| && rows[i][j] == StartSymbol
  }

  /** The start recorded is the last start symbol in row-major order, or `(0, 0)` when the map has none. */
  lemma {:induction false} StartInSpec(rows: seq<string>)
    ensures var p := StartIn(rows);
      (HasStart(rows) ==> (0 <= p.0 < |rows| && 0 <= p.1 < |rows[p.0]| && rows[p.0][p.1] == StartSymbol
                           && forall i, j :: (0 <= i < |rows| && 0 <= j < |rows[i]| && rows[i][j] == StartSymbol) ==>
                                (i, j) == p || Grid.Before((i, j), p)))
      && (!HasStart(rows) ==> p == (0, 0))
  {
    if rows != [] {
      var last, init := rows[|rows| - 1], rows[..|rows| - 1];
      if StartSymbol !in last {
        StartInSpec(init);
        if HasStart(rows) {
          var i, j :| 0 <= i < |rows| && 0 <= j < |rows[i]| && rows[i][j] == StartSymbol;
          assert i < |init| && init[i] == rows[i];
        }
        if HasStart(init) {
          var i, j :| 0 <= i < |init| && 0 <= j < |init[i]| && init[i][j] == StartSymbol;
          assert rows[i] == init[i];
        }
        forall i, j | 0 <= i < |rows| && 0 <= j < |rows[i]| && rows[i][j] == StartSymbol
          ensures i < |init| && init[i][j] == StartSymbol
        {
          assert init[i] == rows[i];
        }
      } else {
        var p := StartIn(rows);
        assert rows[p.0][p.1] == StartSymbol;
      }
    }
  }

  /**
   * `parseInput`: the non-empty lines split into characters, the start replaced by a garden
   * plot and recorded, or the dimension error `from2DArray` throws.
   */
  method ParseInput(lines: seq<string>) returns (r: Result<Garden>)
    ensures r.Failure? <==> Text.NonEmpty(lines) == []
    ensures r.Failure? ==> r.error == "Invalid input dimensions"
    ensures r.Success? ==> (var rows, g := Text.NonEmpty(lines), r.value;
      g.height == |rows| && g.width == Grid.MaxWidth(rows) && g.width > 0 && g.start == StartIn(rows)
      && (forall i, j :: 0 <= i < |rows| && 0 <= j < |rows[i]| ==> Grid.Lookup(g.tiles, i, j) == Some(Tile(rows[i][j], i, j)))
      && (forall i, j :: !(0 <= i < |rows| && 0 <= j < |rows[i]|) ==> Grid.Lookup(g.tiles, i, j) == None))
  {
    var rows := Text.NonEmpty(lines);
    if rows != [] {
      assert |rows[0]| <= Grid.MaxWidth(rows) && rows[0] != "";
    }
    var grid := Grid.From2DArray(rows, Tile, (c: char) => true, (c: char) => [c]);
    if grid.Failure? {
      return Failure(grid.error);
    }
    var g := grid.value;
    r := Success(Garden(g.rows, g.height, g.width, StartIn(rows)));
  }

  /** No cell of the parsed map holds the start symbol. */
  lemma NoStartLeft(rows: seq<string>, g: Garden)
    requires forall i, j :: 0 <= i < |rows| && 0 <= j < |rows[i]| ==> Grid.Lookup(g.tiles, i, j) == Some(Tile(rows[i][j], i, j))
    requires forall i, j :: !(0 <= i < |rows| && 0 <= j < |rows[i]|) ==> Grid.Lookup(g.tiles, i, j) == None
    ensures forall i, j :: Grid.Lookup(g.tiles, i, j) != Some(StartSymbol)
  {
    forall i, j
      ensures Grid.Lookup(g.tiles, i, j) != Some(StartSymbol)
    {
      if 0 <= i < |rows| && 0 <= j < |rows[i]| {
        assert Grid.Lookup(g.tiles, i, j) == Some(Tile(rows[i][j], i, j));
      }
    }
  }

  // The walk.

  /** An entry of the `walk` queue. */
  datatype Step = Step(row: int, col: int, nStepsSoFar: nat)

  /** `visitedWithNSteps` (a cell it lacks is at `Infinity`) and `endedAt`, keyed by the cell. */
  datatype Walk = Walk(visited: map<Pos, nat>, endedAt: set<Pos>)

  /**
   * `addToQueue`: a cell reached with fewer steps than before, and no more than `nSteps`,
   * is recorded with that count and queued, and kept in `endedAt` when the count has the
   * parity of `nSteps`; any other cell is ignored.
   */
  function AddToQueue(w: Walk, nSteps: nat, row: int, col: int, n: nat): (r: (Walk, seq<Step>))
    ensures var k := (row, col);
      (r.1 != [] <==> (k !in w.visited || n < w.visited[k]) && n <= nSteps)
      && (r.1 != [] ==> (r.1 == [Step(row, col, n)] && r.0.visited == w.visited[k := n]
                         && (forall x :: x in r.0.endedAt <==> x in w.endedAt || (x == k && n % 2 == nSteps % 2))))
      && (r.1 == [] ==> r.0 == w)
  {
    var k := (row, col);
    if (k in w.visited && n >= w.visited[k]) || n > nSteps then (w, [])
    else (Walk(w.visited[k := n], if n % 2 == nSteps % 2 then w.endedAt + {k} else w.endedAt), [Step(row, col, n)])
  }

  /** `grid.getAt(mod(row, height), mod(col, width))`: the map repeats in every direction. */
  function Neighbour(g: Garden, row: int, col: int): Option<char>
  {
    if g.height > 0 && g.width > 0 then Grid.Lookup(g.tiles, Arithmetic.Mod(row, g.height), Arithmetic.Mod(col, g.width))
    else None
  }

  /** The lookup repeats with the map: a whole map further in either direction reads the same cell. */
  lemma NeighbourRepeats(g: Garden, row: int, col: int)
    requires g.height > 0 && g.width > 0
    ensures Neighbour(g, row + g.height, col) == Neighbour(g, row, col)
    ensures Neighbour(g, row, col + g.width) == Neighbour(g, row, col)
  {
    ModShift(row, g.height);
    ModShift(col, g.width);
  }

  lemma ModShift(a: int, n: int)
    requires n > 0
    ensures Arithmetic.Mod(a + n, n) == Arithmetic.Mod(a, n)
  {
    ModUnique(a + n, n, a / n + 1, a % n);
  }

  /** A remainder is determined by any quotient and remainder that rebuild the dividend. */
  lemma ModUnique(x: int, n: int, q: int, r: int)
    requires n > 0 && 0 <= r < n && x == n * q + r
    ensures x % n == r
  {
    var d := q - x / n;
    assert n * d == x % n - r;
    if d >= 1 {
      MulAtLeast(n, d);
    } else if d <= -1 {
      MulAtLeast(n, -d);
    }
  }

  lemma MulAtLeast(n: int, d: int)
    requires n > 0 && d >= 1
    ensures n * d >= n
  {
    assert n * d == n * (d - 1) + n;
  }

  /** One offset of the callback of `walk.process`: a neighbour that is not a rock is added one step further on. */
  function VisitOne(g: Garden, nSteps: nat, w: Walk, s: Step, offset: (int, int)): (Walk, seq<Step>)
  {
    var row, col := s.row + offset.0, s.col + offset.1;
    if Neighbour(g, row, col) != Some(RockSymbol) then AddToQueue(w, nSteps, row, col, s.nStepsSoFar + 1) else (w, [])
  }

  /** The callback of `walk.process`, over the orthogonal offsets in order. */
  function VisitOffsets(g: Garden, nSteps: nat, w: Walk, s: Step, offsets: seq<(int, int)>): (Walk, seq<Step>)
    decreases |offsets|
  {
    if offsets == [] then (w, [])
    else
      var first := VisitOne(g, nSteps, w, s, offsets[0]);
      var rest := VisitOffsets(g, nSteps, first.0, s, offsets[1..]);
      (rest.0, first.1 + rest.1)
  }

  function Visitor(g: Garden, nSteps: nat): (Walk, Step) -> (Walk, seq<Step>)
  {
    (w: Walk, s: Step) => VisitOffsets(g, nSteps, w, s, Grid.OrthogonalOffsets())
  }

  /** Every queue entry is an object, so every one is truthy. */
  predicate Truthy(s: Step)
  {
    true
  }

  /** The first `addToQueue`, of the start with no steps. */
  function Begin(g: Garden, nSteps: nat): (Walk, seq<Step>)
  {
    AddToQueue(Walk(map[], {}), nSteps, g.start.0, g.start.1, 0)
  }

  /** The walk after `walk.process`, bounded by `fuel` shifts. */
  function Walked(g: Garden, nSteps: nat, fuel: nat): Drain<Walk, Step>
  {
    var begin := Begin(g, nSteps);
    DrainFifo(begin.1, begin.0, Visitor(g, nSteps), Truthy, fuel)
  }

  /** The count `countGardens` returns within `fuel` shifts. */
  function CountOf(g: Garden, nSteps: nat, fuel: nat): Option<nat>
  {
    var d := Walked(g, nSteps, fuel);
    if d.pending == [] then Some(|d.state.endedAt|) else None
  }

  /**
   * `countGardens`, bounded by `fuel` shifts of the queue: the size of `endedAt` once the
   * queue is empty, or `None` when the bound runs out first.
   */
  method CountGardens(g: Garden, nSteps: nat, fuel: nat) returns (count: Option<nat>)
    ensures count == CountOf(g, nSteps, fuel)
  {
    var begin := AddToQueue(Walk(map[], {}), nSteps, g.start.0, g.start.1, 0);
    var walk := new Queue<Step>(Truthy);
    walk.Enqueue(begin.1[0]);
    assert walk.queue == begin.1;
    var final, _ := walk.Process(Visitor(g, nSteps), begin.0, fuel);
    if walk.queue != [] {
      return None;
    }
    return Some(|final.endedAt|);
  }

  // What holds of the walk throughout.

  /**
   * The start is recorded with no steps; every count is at most `nSteps`; `endedAt` holds
   * exactly the recorded cells whose count has the parity of `nSteps`; and no recorded cell
   * but the start is a rock.
   */
  ghost predicate Good(g: Garden, nSteps: nat, w: Walk)
  {
    g.start in w.visited && w.visited[g.start] == 0
    && (forall k :: k in w.visited ==> w.visited[k] <= nSteps)
    && (forall k :: k in w.endedAt <==> k in w.visited && w.visited[k] % 2 == nSteps % 2)
    && (forall k :: k in w.visited && k != g.start ==> Neighbour(g, k.0, k.1) != Some(RockSymbol))
  }

  /** No recorded count exceeds `bound`. */
  predicate Bounded(w: Walk, bound: int)
  {
    forall k :: k in w.visited ==> w.visited[k] <= bound
  }

  /**
   * A breadth-first queue: its first `split` entries are `level` steps from the start and
   * the rest one step further, the front is at `level`, and no recorded count is more than
   * one step past it.
   */
  ghost predicate Inv(g: Garden, nSteps: nat, p: seq<Step>, w: Walk, level: nat, split: nat)
  {
    Good(g, nSteps, w) && Bounded(w, level + 1) && split <= |p| && (p != [] ==> split >= 1)
    && forall i :: 0 <= i < |p| ==> p[i].nStepsSoFar == if i < split then level else level + 1
  }

  /** An `addToQueue` one step past every recorded count adds only new cells and keeps the walk good. */
  lemma AddKeeps(g: Garden, nSteps: nat, w: Walk, row: int, col: int, n: nat)
    requires Good(g, nSteps, w) && Bounded(w, n) && Neighbour(g, row, col) != Some(RockSymbol)
    ensures var r := AddToQueue(w, nSteps, row, col, n);
      Good(g, nSteps, r.0) && Bounded(r.0, n) && (r.1 == [] || r.1 == [Step(row, col, n)])
  {
  }

  lemma VisitOneKeeps(g: Garden, nSteps: nat, w: Walk, s: Step, offset: (int, int))
    requires Good(g, nSteps, w) && Bounded(w, s.nStepsSoFar + 1)
    ensures var r := VisitOne(g, nSteps, w, s, offset);
      Good(g, nSteps, r.0) && Bounded(r.0, s.nStepsSoFar + 1)
      && forall i :: 0 <= i < |r.1| ==> r.1[i].nStepsSoFar == s.nStepsSoFar + 1
  {
    var row, col := s.row + offset.0, s.col + offset.1;
    if Neighbour(g, row, col) != Some(RockSymbol) {
      AddKeeps(g, nSteps, w, row, col, s.nStepsSoFar + 1);
      assert VisitOne(g, nSteps, w, s, offset) == AddToQueue(w, nSteps, row, col, s.nStepsSoFar + 1);
    } else {
      assert VisitOne(g, nSteps, w, s, offset) == (w, []);
    }
  }

  /** Visiting an entry whose count is the queue's least keeps the walk good and queues entries one step further on. */
  lemma {:induction false} VisitKeeps(g: Garden, nSteps: nat, w: Walk, s: Step, offsets: seq<(int, int)>)
    requires Good(g, nSteps, w) && Bounded(w, s.nStepsSoFar + 1)
    ensures var r := VisitOffsets(g, nSteps, w, s, offsets);
      Good(g, nSteps, r.0) && Bounded(r.0, s.nStepsSoFar + 1)
      && forall i :: 0 <= i < |r.1| ==> r.1[i].nStepsSoFar == s.nStepsSoFar + 1
    decreases |offsets|
  {
    if offsets != [] {
      var first := VisitOne(g, nSteps, w, s, offsets[0]);
      VisitOneKeeps(g, nSteps, w, s, offsets[0]);
      VisitKeeps(g, nSteps, first.0, s, offsets[1..]);
      var rest := VisitOffsets(g, nSteps, first.0, s, offsets[1..]);
      AllOneFurther(first.1, rest.1, s.nStepsSoFar + 1);
    }
  }

  lemma AllOneFurther(a: seq<Step>, b: seq<Step>, n: nat)
    requires forall i :: 0 <= i < |a| ==> a[i].nStepsSoFar == n
    requires forall i :: 0 <= i < |b| ==> b[i].nStepsSoFar == n
    ensures forall i :: 0 <= i < |a + b| ==> (a + b)[i].nStepsSoFar == n
  {
    forall i | 0 <= i < |a + b|
      ensures (a + b)[i].nStepsSoFar == n
    {
      if i >= |a| {
        assert (a + b)[i] == b[i - |a|];
      }
    }
  }

  /** Shifting the front entry and queueing entries one step past it keeps the queue breadth-first. */
  lemma LevelNext(p: seq<Step>, added: seq<Step>, level: nat, split: nat)
    requires p != [] && 1 <= split <= |p|
    requires forall i :: 0 <= i < |p| ==> p[i].nStepsSoFar == if i < split then level else level + 1
    requires forall i :: 0 <= i < |added| ==> added[i].nStepsSoFar == level + 1
    ensures var q := Behind(p) + added;
      var next, nextSplit := NextLevel(level, split), NextSplit(split, |q|);
      nextSplit <= |q| && (q != [] ==> nextSplit >= 1)
      && forall i :: 0 <= i < |q| ==> q[i].nStepsSoFar == if i < nextSplit then next else next + 1
  {
    var q := Behind(p) + added;
    forall i | 0 <= i < |q|
      ensures q[i].nStepsSoFar == if i < NextSplit(split, |q|) then NextLevel(level, split) else NextLevel(level, split) + 1
    {
      if i < |p| - 1 {
        assert q[i] == p[i + 1];
      } else {
        assert q[i] == added[i - (|p| - 1)];
      }
    }
  }

  /** The level of the queue after a shift: the front's, or one more when the last entry of the level went. */
  function NextLevel(level: nat, split: nat): nat
  {
    if split > 1 then level else level + 1
  }

  function NextSplit(split: nat, length: nat): nat
  {
    if split > 1 then split - 1 else length
  }

  /** Draining a levelled queue from a good walk leaves a good walk. */
  lemma {:induction false} DrainGood(g: Garden, nSteps: nat, p: seq<Step>, w: Walk, level: nat, split: nat, fuel: nat)
    requires Inv(g, nSteps, p, w, level, split)
    ensures Good(g, nSteps, DrainFifo(p, w, Visitor(g, nSteps), Truthy, fuel).state)
    decreases fuel
  {
    var visit := Visitor(g, nSteps);
    if p == [] || fuel == 0 {
      assert DrainFifo(p, w, visit, Truthy, fuel).state == w;
    } else {
      var step := visit(w, Front(p));
      assert step == VisitOffsets(g, nSteps, w, Front(p), Grid.OrthogonalOffsets());
      StepKeeps(g, nSteps, p, w, level, split);
      var q := Behind(p) + step.1;
      DrainGood(g, nSteps, q, step.0, NextLevel(level, split), NextSplit(split, |q|), fuel - 1);
      var rest := DrainFifo(q, step.0, visit, Truthy, fuel - 1);
      assert DrainFifo(p, w, visit, Truthy, fuel).state == rest.state;
    }
  }

  /** One shift of the queue keeps the invariant. */
  lemma StepKeeps(g: Garden, nSteps: nat, p: seq<Step>, w: Walk, level: nat, split: nat)
    requires p != [] && Inv(g, nSteps, p, w, level, split)
    ensures var step := VisitOffsets(g, nSteps, w, Front(p), Grid.OrthogonalOffsets());
      var q := Behind(p) + step.1;
      Inv(g, nSteps, q, step.0, NextLevel(level, split), NextSplit(split, |q|))
  {
    var s := Front(p);
    assert s.nStepsSoFar == level;
    var step := VisitOffsets(g, nSteps, w, s, Grid.OrthogonalOffsets());
    VisitKeeps(g, nSteps, w, s, Grid.OrthogonalOffsets());
    LevelNext(p, step.1, level, split);
  }

  /**
   * What `countGardens` counts: the start has no steps and counts exactly when `nSteps` is
   * even; the cells counted are exactly the cells reached whose count has the parity of
   * `nSteps`, so there are no more of them than cells reached; every count is at most
   * `nSteps`; and no cell reached but the start is a rock.
   */
  lemma GardensCounted(g: Garden, nSteps: nat, fuel: nat)
    ensures var w := Walked(g, nSteps, fuel).state;
      g.start in w.visited && w.visited[g.start] == 0 && (g.start in w.endedAt <==> nSteps % 2 == 0)
      && (forall k :: k in w.endedAt <==> k in w.visited && w.visited[k] % 2 == nSteps % 2)
      && |w.endedAt| <= |w.visited.Keys|
      && (forall k :: k in w.visited ==> w.visited[k] <= nSteps)
      && (forall k :: k in w.visited && k != g.start ==> Neighbour(g, k.0, k.1) != Some(RockSymbol))
  {
    var begin := Begin(g, nSteps);
    DrainGood(g, nSteps, begin.1, begin.0, 0, |begin.1|, fuel);
    var w := Walked(g, nSteps, fuel).state;
    assert w.endedAt <= w.visited.Keys;
    SubsetSize(w.endedAt, w.visited.Keys);
  }

  lemma SubsetSize<T>(a: set<T>, b: set<T>)
    requires a <= b
    ensures |a| <= |b|
  {
    if a != {} {
      var x :| x in a;
      SubsetSize(a - {x}, b - {x});
    }
  }

  // The puzzle's answers.

  /** `part1`: the plots reachable in exactly 64 steps. */
  method Part1(g: Garden, fuel: nat) returns (count: Option<nat>)
    ensures count == CountOf(g, 64, fuel)
  {
    count := CountGardens(g, 64, fuel);
  }

  /** What `part2` returns: a count, the square-grid error, or the three counts its extrapolation starts from. */
  datatype Part2Answer = Counted(count: Option<nat>) | NotSquare | Manual(results: seq<Option<nat>>)

  const MaxSteps := 26501365

  /**
   * `part2`: a map that is not 131 wide is walked 500 steps; a 131-wide one must be square,
   * and is walked `remainder + x * 131` steps for x = 0, 1, 2, where `remainder` is what is
   * left of 26501365 steps after whole maps.
   */
  method Part2(g: Garden, fuel: nat) returns (answer: Part2Answer)
    ensures g.width != 131 ==> answer.Counted? && answer.count == CountOf(g, 500, fuel)
    ensures g.width == 131 && g.height != 131 ==> answer == NotSquare
    ensures g.width == 131 && g.height == 131 ==>
      answer == Manual([CountOf(g, MaxSteps % 131, fuel), CountOf(g, MaxSteps % 131 + 131, fuel), CountOf(g, MaxSteps % 131 + 2 * 131, fuel)])
  {
    if g.width != 131 {
      var count := CountGardens(g, 500, fuel);
      return Counted(count);
    }
    if g.width != g.height {
      return NotSquare;
    }
    var cycleLength := g.width;
    var remainder := MaxSteps % cycleLength;
    var c0 := CountGardens(g, remainder, fuel);
    var c1 := CountGardens(g, remainder + cycleLength, fuel);
    var c2 := CountGardens(g, remainder + 2 * cycleLength, fuel);
    var results := [c0, c1, c2];
    return Manual(results);
  }
}
