/**
 * Day 18: a dig plan of instructions, each a direction and a number of one-metre steps,
 * trenches a loop; the lagoon is the trench together with every cell of the plan's bounding
 * box that the border cannot reach without crossing the trench.
 */
module Day18 {
  import opened Wrappers
  import opened Stack
  import VG = VirtualGrid
  import Decimal
  import Grid
  import Sorting

  datatype Direction = Up | Down | Left | Right

  /** `toDirection`: a plan letter, or the digit a hex code ends in; anything else, `undefined` included, throws. */
  function ToDirection(d: Option<char>): (r: Result<Direction>)
    ensures r.Success? <==> d.Some? && d.value in "UDLR3120"
    ensures r.Success? ==> (r.value == Up <==> d.value in "U3")
    ensures r.Success? ==> (r.value == Down <==> d.value in "D1")
    ensures r.Success? ==> (r.value == Left <==> d.value in "L2")
    ensures r.Success? ==> (r.value == Right <==> d.value in "R0")
    ensures r.Failure? ==> r.error == "Invalid direction: " + if d.None? then "undefined" else [d.value]
  {
    match d
    case None => Failure("Invalid direction: undefined")
    case Some(ch) =>
      if ch == 'U' || ch == '3' then Success(Up)
      else if ch == 'D' || ch == '1' then Success(Down)
      else if ch == 'L' || ch == '2' then Success(Left)
      else if ch == 'R' || ch == '0' then Success(Right)
      else Failure("Invalid direction: " + [ch])
  }

  /** `PositionDiffs` as (row, col) offsets: `y` is the row, `x` the column. */
  function Diff(d: Direction): (int, int)
  {
    match d
    case Up => (-1, 0)
    case Down => (1, 0)
    case Left => (0, -1)
    case Right => (0, 1)
  }

  predicate IsVertical(d: Direction)
  {
    d == Up || d == Down
  }

  datatype Instruction = Instruction(direction: Direction, nSteps: nat)

  /** A line of the plan as the regular expression splits it: the letter, the decimal steps and the hex code. */
  datatype Line = Line(letter: string, steps: string, hexCode: string)

  /** `parseInput`: throws when a captured group is empty, as the decimal steps may be. */
  function ParseInput(lines: seq<Line>): (r: Result<seq<Line>>)
    ensures r.Success? <==> forall i :: 0 <= i < |lines| ==> lines[i].letter != "" && lines[i].steps != "" && lines[i].hexCode != ""
    ensures r.Success? ==> r.value == lines
    ensures r.Failure? ==> r.error == "Invalid input"
  {
    if forall i :: 0 <= i < |lines| ==> lines[i].letter != "" && lines[i].steps != "" && lines[i].hexCode != "" then Success(lines)
    else Failure("Invalid input")
  }

  /** The first character of a string, or `undefined`. */
  function CharAt(s: string, i: nat): Option<char>
  {
    if i < |s| then Some(s[i]) else None
  }

  /** Part 1's instruction: the letter's direction and the decimal step count. */
  function DecimalInstruction(line: Line): (r: Result<Instruction>)
    requires Decimal.AllDigits(line.steps)
    ensures r.Success? <==> ToDirection(CharAt(line.letter, 0)).Success?
    ensures r.Success? ==> r.value.nSteps == Decimal.DigitsValue(line.steps)
  {
    match ToDirection(CharAt(line.letter, 0))
    case Failure(e) => Failure(e)
    case Success(d) => Success(Instruction(d, Decimal.DigitsValue(line.steps)))
  }

  predicate IsHexDigit(c: char)
  {
    '0' <= c <= '9' || 'a' <= c <= 'f' || 'A' <= c <= 'F'
  }

  function HexDigitValue(c: char): (v: nat)
    requires IsHexDigit(c)
    ensures v < 16
  {
    if '0' <= c <= '9' then c as int - '0' as int
    else if 'a' <= c <= 'f' then c as int - 'a' as int + 10
    else c as int - 'A' as int + 10
  }

  /** `parseInt(s, 16)` of a string of hex digits. */
  function HexValue(s: string): (v: nat)
    requires forall i :: 0 <= i < |s| ==> IsHexDigit(s[i])
  {
    if s == [] then 0 else HexValue(s[..|s| - 1]) * 16 + HexDigitValue(s[|s| - 1])
  }

  lemma {:induction false} HexValueBound(s: string)
    requires forall i :: 0 <= i < |s| ==> IsHexDigit(s[i])
    ensures HexValue(s) < Power16(|s|)
    decreases |s|
  {
    if s != [] {
      HexValueBound(s[..|s| - 1]);
    }
  }

  function Power16(k: nat): nat
  {
    if k == 0 then 1 else 16 * Power16(k - 1)
  }

  /** Part 2's instruction: the steps from the first five hex digits and the direction from the sixth character. */
  function HexInstruction(line: Line): (r: Result<Instruction>)
    requires |line.hexCode| >= 5 && forall i :: 0 <= i < 5 ==> IsHexDigit(line.hexCode[i])
    ensures r.Success? <==> ToDirection(CharAt(line.hexCode, 5)).Success?
    ensures r.Success? ==> r.value.nSteps == HexValue(line.hexCode[..5]) && r.value.nSteps < 0x10_0000
  {
    HexValueBound(line.hexCode[..5]);
    match ToDirection(CharAt(line.hexCode, 5))
    case Failure(e) => Failure(e)
    case Success(d) => Success(Instruction(d, HexValue(line.hexCode[..5])))
  }

  // Digging.

  type Coord = VG.Coord

  const Origin: Coord := (0, 0)

  /** `n` steps from `p` in direction `d`. */
  function Move(p: Coord, d: Direction, n: int): Coord
  {
    match d
    case Up => (p.0 - n, p.1)
    case Down => (p.0 + n, p.1)
    case Left => (p.0, p.1 - n)
    case Right => (p.0, p.1 + n)
  }

  /** The cells the first `n` steps of an instruction pass through, after `p`. */
  function Steps(p: Coord, d: Direction, n: nat): (r: seq<Coord>)
    ensures |r| == n
  {
    if n == 0 then [] else Steps(p, d, n - 1) + [Move(p, d, n)]
  }

  /** One unit step from the cell `i` steps away is the cell `i + 1` steps away, the next cell stepped through. */
  lemma MoveStep(p: Coord, d: Direction, i: nat, q: Coord)
    requires q == Move(p, d, i)
    ensures (q.0 + Diff(d).0, q.1 + Diff(d).1) == Move(p, d, i + 1)
    ensures Steps(p, d, i + 1) == Steps(p, d, i) + [Move(p, d, i + 1)]
  {
  }

  /** The `i`-th cell stepped through is `i + 1` steps away. */
  lemma {:induction false} StepsExactly(p: Coord, d: Direction, n: nat)
    ensures forall i :: 0 <= i < n ==> Steps(p, d, n)[i] == Move(p, d, i + 1)
    decreases n
  {
    if n > 0 {
      StepsExactly(p, d, n - 1);
      assert forall i :: 0 <= i < n - 1 ==> Steps(p, d, n)[i] == Steps(p, d, n - 1)[i];
    }
  }

  /** Where the plan, started at `p`, ends. */
  function EndOf(p: Coord, plan: seq<Instruction>): Coord
  {
    if plan == [] then p else Move(EndOf(p, Init(plan)), Last(plan).direction, Last(plan).nSteps)
  }

  /** Every cell the plan steps through after `p`, in order. */
  function Trail(p: Coord, plan: seq<Instruction>): seq<Coord>
  {
    if plan == [] then []
    else Trail(p, Init(plan)) + Steps(EndOf(p, Init(plan)), Last(plan).direction, Last(plan).nSteps)
  }

  function Total(plan: seq<Instruction>): nat
  {
    if plan == [] then 0 else Total(Init(plan)) + Last(plan).nSteps
  }

  predicate Adjacent(p: Coord, q: Coord)
  {
    (p.0 == q.0 && (p.1 - q.1 == 1 || q.1 - p.1 == 1)) || (p.1 == q.1 && (p.0 - q.0 == 1 || q.0 - p.0 == 1))
  }

  /** The trail is one cell per step, each next to the one before, and it ends where the plan ends. */
  lemma {:induction false} TrailSteps(p: Coord, plan: seq<Instruction>)
    ensures var t := [p] + Trail(p, plan);
      |t| == Total(plan) + 1 && Last(t) == EndOf(p, plan) && forall i :: 0 < i < |t| ==> Adjacent(t[i - 1], t[i])
    decreases |plan|
  {
    if plan != [] {
      TrailSteps(p, Init(plan));
      var before := [p] + Trail(p, Init(plan));
      var s := Steps(EndOf(p, Init(plan)), Last(plan).direction, Last(plan).nSteps);
      var t := [p] + Trail(p, plan);
      StepsExactly(EndOf(p, Init(plan)), Last(plan).direction, Last(plan).nSteps);
      assert t == before + s;
      forall i | 0 < i < |t| ensures Adjacent(t[i - 1], t[i]) {
        if i < |before| {
          assert t[i - 1] == before[i - 1] && t[i] == before[i];
        } else if i == |before| {
          assert t[i - 1] == Last(before) && t[i] == s[0];
        } else {
          assert t[i - 1] == s[i - 1 - |before|] && t[i] == s[i - |before|];
        }
      }
      if s != [] {
        assert Last(t) == Last(s);
      } else {
        assert t == before;
      }
    }
  }

  /** The bounding box after `setAt` at each of `ps`. */
  function Bounds(box: VG.Box, ps: seq<Coord>): VG.Box
  {
    if ps == [] then box else VG.Extend(Some(Bounds(box, Init(ps))), Last(ps).0, Last(ps).1)
  }

  /** The box holds the box it grew from and every cell written. */
  lemma {:induction false} BoundsHold(box: VG.Box, ps: seq<Coord>)
    ensures VG.Contains(Bounds(box, ps), box)
    ensures forall i :: 0 <= i < |ps| ==> VG.InBox(Some(Bounds(box, ps)), ps[i])
    decreases |ps|
  {
    if ps != [] {
      BoundsHold(box, Init(ps));
      forall i | 0 <= i < |ps| ensures VG.InBox(Some(Bounds(box, ps)), ps[i]) {
        if i < |ps| - 1 {
          assert ps[i] == Init(ps)[i];
        }
      }
    }
  }

  /** A box that holds a cell: any box `setAt` has grown. */
  predicate Proper(box: VG.Box)
  {
    box.minX <= box.maxX && box.minY <= box.maxY
  }

  /** The cells in a box, all of which read as a terrain: the blank one when nothing was written there. */
  ghost function Cells(box: Option<VG.Box>): set<Coord>
  {
    if box.None? then {}
    else set r: int, c: int | box.value.minY <= r <= box.value.maxY && box.value.minX <= c <= box.value.maxX :: (r, c)
  }

  lemma CellsExactly(box: Option<VG.Box>, p: Coord)
    ensures p in Cells(box) <==> VG.InBox(box, p)
  {
    if box.Some? && VG.InBox(box, p) {
      var r, c := p.0, p.1;
      assert (r, c) in Cells(box);
    }
  }

  function ElementsOf<T>(s: seq<T>): set<T>
  {
    set x | x in s
  }

  /** Appending cells to a trail grows the box as writing them one by one does. */
  lemma {:induction false} BoundsAppend(box: VG.Box, ps: seq<Coord>, qs: seq<Coord>)
    ensures Bounds(box, ps + qs) == Bounds(Bounds(box, ps), qs)
    decreases |qs|
  {
    if qs == [] {
      assert ps + qs == ps;
    } else {
      assert Init(ps + qs) == ps + Init(qs) && Last(ps + qs) == Last(qs);
      BoundsAppend(box, ps, Init(qs));
    }
  }

  lemma ElementsAppend<T>(a: seq<T>, b: seq<T>)
    ensures ElementsOf(a + b) == ElementsOf(a) + ElementsOf(b)
  {
  }

  /** One more cell on a trail: one more trenched cell, and the box grown to hold it. */
  lemma TrailGrows(box: VG.Box, trail: seq<Coord>, x: Coord)
    ensures ElementsOf(trail + [x]) == ElementsOf(trail) + {x}
    ensures Bounds(box, trail + [x]) == VG.Extend(Some(Bounds(box, trail)), x.0, x.1)
  {
    assert Init(trail + [x]) == trail && Last(trail + [x]) == x;
  }

  /** One more instruction extends the trail by its steps. */
  lemma TrailSnoc(p: Coord, plan: seq<Instruction>, k: nat)
    requires k < |plan|
    ensures Trail(p, plan[..k + 1]) == Trail(p, plan[..k]) + Steps(EndOf(p, plan[..k]), plan[k].direction, plan[k].nSteps)
    ensures EndOf(p, plan[..k + 1]) == Move(EndOf(p, plan[..k]), plan[k].direction, plan[k].nSteps)
  {
    assert Init(plan[..k + 1]) == plan[..k] && Last(plan[..k + 1]) == plan[k];
  }

  // The flood fill from the border.

  /** A cell of the box that is not trenched. */
  ghost predicate Open(box: Option<VG.Box>, trenched: set<Coord>, p: Coord)
  {
    VG.InBox(box, p) && p !in trenched
  }

  predicate OnBorder(box: Option<VG.Box>, p: Coord)
  {
    VG.InBox(box, p)
    && (p.0 == box.value.minY || p.0 == box.value.maxY || p.1 == box.value.minX || p.1 == box.value.maxX)
  }

  /** A walk from a border cell, one orthogonal step at a time, that never enters a trenched cell. */
  ghost predicate OpenPath(box: Option<VG.Box>, trenched: set<Coord>, path: seq<Coord>)
  {
    path != [] && OnBorder(box, path[0])
    && (forall i :: 0 <= i < |path| ==> Open(box, trenched, path[i]))
    && (forall i :: 0 < i < |path| ==> Adjacent(path[i - 1], path[i]))
  }

  ghost predicate Reachable(box: Option<VG.Box>, trenched: set<Coord>, p: Coord)
  {
    exists path :: OpenPath(box, trenched, path) && Last(path) == p
  }

  /** Every open neighbour of `p` is marked. */
  ghost predicate Closed(box: Option<VG.Box>, trenched: set<Coord>, edge: set<Coord>, p: Coord)
  {
    forall q :: Adjacent(p, q) && Open(box, trenched, q) ==> q in edge
  }

  lemma ReachBorder(box: Option<VG.Box>, trenched: set<Coord>, p: Coord)
    requires OnBorder(box, p) && p !in trenched
    ensures Reachable(box, trenched, p)
  {
    assert OpenPath(box, trenched, [p]) && Last([p]) == p;
  }

  lemma ReachStep(box: Option<VG.Box>, trenched: set<Coord>, p: Coord, q: Coord)
    requires Reachable(box, trenched, p) && Adjacent(p, q) && Open(box, trenched, q)
    ensures Reachable(box, trenched, q)
  {
    var path :| OpenPath(box, trenched, path) && Last(path) == p;
    var longer := path + [q];
    assert forall i :: 0 <= i < |path| ==> longer[i] == path[i];
    assert OpenPath(box, trenched, longer) && Last(longer) == q;
  }

  /** A marked set holding the open border and every open neighbour of its cells holds every cell a path reaches. */
  lemma {:induction false} ClosedHoldsPath(box: Option<VG.Box>, trenched: set<Coord>, edge: set<Coord>, path: seq<Coord>)
    requires forall p :: OnBorder(box, p) && p !in trenched ==> p in edge
    requires forall p :: p in edge ==> Closed(box, trenched, edge, p)
    requires OpenPath(box, trenched, path)
    ensures Last(path) in edge
    decreases |path|
  {
    if |path| > 1 {
      var shorter := Init(path);
      assert forall i :: 0 <= i < |shorter| ==> shorter[i] == path[i];
      assert OpenPath(box, trenched, shorter);
      ClosedHoldsPath(box, trenched, edge, shorter);
      assert Adjacent(path[|path| - 2], path[|path| - 1]) && Open(box, trenched, path[|path| - 1]);
    }
  }

  /**
   * The bookkeeping of one round of the fill, on values: `t` was popped off `below + [t]`,
   * its open neighbours were marked and pushed, giving `edge` and `stack`.
   */
  lemma FillStepFacts(box: Option<VG.Box>, trenched: set<Coord>, before: set<Coord>, edge: set<Coord>, below: seq<Coord>, t: Coord, stack: seq<Coord>)
    requires forall p :: p in below + [t] ==> p in before
    requires forall p :: p in before && p !in below + [t] ==> Closed(box, trenched, before, p)
    requires forall p :: p in edge <==> p in before || (Adjacent(t, p) && Open(box, trenched, p))
    requires |stack| >= |below| && stack[..|below|] == below
    requires forall i :: |below| <= i < |stack| ==> stack[i] in edge && stack[i] !in before
    requires forall p :: p in edge && p !in before ==> p in stack
    requires edge == before ==> stack == below
    ensures forall p :: p in stack ==> p in edge
    ensures forall p :: p in edge && p !in stack ==> Closed(box, trenched, edge, p)
    ensures |Cells(box) - edge| < |Cells(box) - before|
      || (|Cells(box) - edge| == |Cells(box) - before| && |stack| < |below + [t]|)
  {
    PrefixMembers(below, stack);
    forall p | p in stack ensures p in edge {
      var i :| 0 <= i < |stack| && stack[i] == p;
      if i < |below| {
        assert below[i] == p;
        assert p in below + [t];
      }
    }
    forall p | p in edge && p !in stack ensures Closed(box, trenched, edge, p) {
      if p != t {
        assert p in before && p !in below + [t];
        ClosedGrows(box, trenched, before, edge, p);
      }
    }
    if edge != before {
      var q :| q in edge && q !in before;
      CellsExactly(box, q);
      FewerLeft(Cells(box), before, edge, q);
    }
  }

  lemma ClosedGrows(box: Option<VG.Box>, trenched: set<Coord>, edge: set<Coord>, more: set<Coord>, p: Coord)
    requires Closed(box, trenched, edge, p) && edge <= more
    ensures Closed(box, trenched, more, p)
  {
  }

  /** Marking one more cell of a finite set leaves fewer of it unmarked. */
  lemma FewerLeft<T>(all: set<T>, before: set<T>, after: set<T>, q: T)
    requires before <= after && q in all && q in after && q !in before
    ensures |all - after| < |all - before|
  {
    var left, fewer := all - after, (all - before) - {q};
    assert left <= fewer && fewer * left == left;
    assert |fewer - left| == |fewer| - |fewer * left|;
    assert |fewer| == |all - before| - 1;
  }

  lemma PrefixMembers<T>(prefix: seq<T>, s: seq<T>)
    requires |prefix| <= |s| && s[..|prefix|] == prefix
    ensures forall x :: x in prefix ==> x in s
  {
    forall x | x in prefix ensures x in s {
      var i :| 0 <= i < |prefix| && prefix[i] == x;
      assert s[i] == x;
    }
  }

  /** The cells one offset away from `p`, in the order of the offsets. */
  lemma AroundAdjacent(p: Coord, q: Coord)
    ensures q in VG.Around(p.0, p.1, Grid.OrthogonalOffsets()) <==> Adjacent(p, q)
  {
    var around := VG.Around(p.0, p.1, Grid.OrthogonalOffsets());
    assert around == [(p.0, p.1 + 1), (p.0, p.1 - 1), (p.0 + 1, p.1), (p.0 - 1, p.1)];
  }

  /** `getRow(row)`: the `width` cells of the row from `minX`. */
  function RowCells(row: int, box: VG.Box): (r: seq<Coord>)
    ensures |r| == if box.maxX < box.minX then 0 else box.maxX - box.minX + 1
    ensures forall i :: 0 <= i < |r| ==> r[i] == (row, box.minX + i)
  {
    seq(if box.maxX < box.minX then 0 else box.maxX - box.minX + 1, i => (row, box.minX + i))
  }

  /** `getColumn(col)`: the `height` cells of the column from `minY`. */
  function ColumnCells(col: int, box: VG.Box): (r: seq<Coord>)
    ensures |r| == if box.maxY < box.minY then 0 else box.maxY - box.minY + 1
    ensures forall i :: 0 <= i < |r| ==> r[i] == (box.minY + i, col)
  {
    seq(if box.maxY < box.minY then 0 else box.maxY - box.minY + 1, i => (box.minY + i, col))
  }

  /** The cells `fillEdges` starts from: the top and bottom rows, then the left and right columns. */
  function BorderCells(box: VG.Box): seq<Coord>
  {
    RowCells(box.minY, box) + RowCells(box.maxY, box) + ColumnCells(box.minX, box) + ColumnCells(box.maxX, box)
  }

  /** The border rows and columns are exactly the cells of the box on its edge, corners twice. */
  lemma BorderExactly(box: VG.Box, p: Coord)
    requires Proper(box)
    ensures p in BorderCells(box) <==> OnBorder(Some(box), p)
  {
    var top, bottom := RowCells(box.minY, box), RowCells(box.maxY, box);
    var left, right := ColumnCells(box.minX, box), ColumnCells(box.maxX, box);
    assert BorderCells(box) == top + bottom + left + right;
    if OnBorder(Some(box), p) {
      if p.0 == box.minY {
        assert top[p.1 - box.minX] == p;
      } else if p.0 == box.maxY {
        assert bottom[p.1 - box.minX] == p;
      } else if p.1 == box.minX {
        assert left[p.0 - box.minY] == p;
      } else {
        assert right[p.0 - box.minY] == p;
      }
    }
  }

  /** The lagoon: every cell of the box that no open path from the border reaches. */
  ghost function Lagoon(box: Option<VG.Box>, trenched: set<Coord>): set<Coord>
  {
    set p | p in Cells(box) && !Reachable(box, trenched, p)
  }

  /**
   * `TerrainMap`: the `VirtualGrid` of terrains, each terrain being the flags of the cell it
   * sits on. A cell is trenched or marked as edge through its terrain object; every cell in
   * the bounding box holds one, as the blank generator makes a terrain for any cell read.
   */
  /**
   * What the fill's callback has done after visiting the neighbours `seen`: `edge` grew from `e0` by
   * exactly the open ones, and `pushed` lists each newly marked cell.
   */
  ghost predicate Marked(box: Option<VG.Box>, trenched: set<Coord>, e0: set<Coord>, edge: set<Coord>, seen: seq<Coord>, pushed: seq<Coord>)
  {
    (forall p :: p in edge <==> p in e0 || (p in seen && Open(box, trenched, p)))
    && (forall i :: 0 <= i < |pushed| ==> pushed[i] in edge && pushed[i] !in e0)
    && (forall p :: p in edge && p !in e0 ==> p in pushed)
    && (edge == e0 ==> pushed == [])
  }

  /** Visiting one more neighbour `n` keeps `Marked`. */
  lemma MarkedStep(box: Option<VG.Box>, trenched: set<Coord>, e0: set<Coord>, before: set<Coord>, after: set<Coord>,
                   seen: seq<Coord>, n: Coord, pushed: seq<Coord>)
    requires Marked(box, trenched, e0, before, seen, pushed)
    requires after == if Open(box, trenched, n) && n !in before then before + {n} else before
    ensures Marked(box, trenched, e0, after, seen + [n], pushed + (if Open(box, trenched, n) && n !in before then [n] else []))
  {
  }

  /** Once every neighbour of `t` is visited, `edge` grew by exactly the open neighbours. */
  lemma MarkedAll(box: Option<VG.Box>, trenched: set<Coord>, e0: set<Coord>, edge: set<Coord>, t: Coord, pushed: seq<Coord>)
    requires Marked(box, trenched, e0, edge, VG.Around(t.0, t.1, Grid.OrthogonalOffsets()), pushed)
    ensures forall p :: p in edge <==> p in e0 || (Adjacent(t, p) && Open(box, trenched, p))
    ensures forall i :: 0 <= i < |pushed| ==> pushed[i] in edge && pushed[i] !in e0
    ensures forall p :: p in edge && p !in e0 ==> p in pushed
    ensures edge == e0 ==> pushed == []
  {
    forall p ensures p in VG.Around(t.0, t.1, Grid.OrthogonalOffsets()) <==> Adjacent(t, p) {
      AroundAdjacent(t, p);
    }
  }

  /** The stack grown by `extra` after growing by `pushed` has grown by both. */
  lemma StackGrows(s0: seq<Coord>, pushed: seq<Coord>, extra: seq<Coord>, s1: seq<Coord>, s2: seq<Coord>)
    requires s1 == s0 + pushed && s2 == s1 + extra
    ensures s2 == s0 + (pushed + extra)
  {
  }

  class TerrainMap {
    var box: Option<VG.Box>
    var trenched: set<Coord>
    var edge: set<Coord>

    /** Flags are only ever set on terrains inside the box. */
    ghost predicate Valid()
      reads this
    {
      (box.Some? ==> Proper(box.value))
      && (forall p :: p in trenched ==> VG.InBox(box, p)) && (forall p :: p in edge ==> VG.InBox(box, p))
    }

    constructor ()
      ensures Valid() && box == None && trenched == {} && edge == {}
    {
      box, trenched, edge := None, {}, {};
    }

    /**
     * `processInstructions`: the origin gets a fresh trenched terrain, and every cell each
     * instruction steps through is trenched; the box grows to hold them all.
     */
    method ProcessInstructions(plan: seq<Instruction>)
      requires Valid()
      modifies this
      ensures Valid()
      ensures trenched == old(trenched) + {Origin} + ElementsOf(Trail(Origin, plan))
      ensures edge == old(edge) - {Origin}
      ensures box == Some(Bounds(VG.Extend(old(box), 0, 0), Trail(Origin, plan)))
    {
      var position := Origin;
      var first := VG.Extend(box, 0, 0);
      trenched, edge, box := trenched + {position}, edge - {position}, Some(first);
      ghost var t0 := trenched;
      for k := 0 to |plan|
        invariant position == EndOf(Origin, plan[..k])
        invariant trenched == t0 + ElementsOf(Trail(Origin, plan[..k]))
        invariant edge == old(edge) - {Origin}
        invariant box == Some(Bounds(first, Trail(Origin, plan[..k])))
        invariant Valid()
      {
        ghost var done := Trail(Origin, plan[..k]);
        TrailSnoc(Origin, plan, k);
        ElementsAppend(done, Steps(position, plan[k].direction, plan[k].nSteps));
        BoundsAppend(first, done, Steps(position, plan[k].direction, plan[k].nSteps));
        position := DigInstruction(position, plan[k].direction, plan[k].nSteps);
      }
      assert plan[..|plan|] == plan;
    }

    /** One instruction: `nSteps` single steps, each trenching the terrain it reaches. */
    method DigInstruction(start: Coord, d: Direction, n: nat) returns (position: Coord)
      requires Valid() && box.Some?
      modifies this
      ensures Valid() && position == Move(start, d, n)
      ensures trenched == old(trenched) + ElementsOf(Steps(start, d, n))
      ensures edge == old(edge)
      ensures box == Some(Bounds(old(box).value, Steps(start, d, n)))
    {
      position := start;
      ghost var dug: seq<Coord> := [];
      for i := 0 to n
        invariant dug == Steps(start, d, i) && position == Move(start, d, i)
        invariant trenched == old(trenched) + ElementsOf(dug) && edge == old(edge)
        invariant box == Some(Bounds(old(box).value, dug)) && Valid()
      {
        var next := (position.0 + Diff(d).0, position.1 + Diff(d).1);
        MoveStep(start, d, i, position);
        TrailGrows(old(box).value, dug, next);
        Trench(next);
        position, dug := next, dug + [next];
      }
    }

    /** `getAt(...) ?? new Terrain`, `setAt` and `trench()`: the box grows to hold `p`, which is trenched. */
    method Trench(p: Coord)
      requires Valid()
      modifies this
      ensures Valid() && trenched == old(trenched) + {p} && edge == old(edge)
      ensures box == Some(VG.Extend(old(box), p.0, p.1))
    {
      trenched := trenched + {p};
      box := Some(VG.Extend(box, p.0, p.1));
    }

    /**
     * `fillEdges`: every open border cell is marked and stacked, then each cell popped marks
     * and stacks its unmarked open neighbours; the marked cells end up exactly the open cells
     * the border reaches.
     */
    method FillEdges()
      requires Valid() && edge == {}
      modifies this
      ensures Valid() && box == old(box) && trenched == old(trenched)
      ensures forall p :: p in edge <==> Reachable(box, trenched, p)
      ensures trenched !! edge
    {
      if box.None? {
        return;
      }
      var fill := new Stack<Coord>(_ => true);
      MarkBorder(fill);
      forall p | p in edge ensures Reachable(box, trenched, p) {
        ReachBorder(box, trenched, p);
      }
      while fill.stack != []
        invariant Filling(fill) && box == old(box) && trenched == old(trenched)
        decreases |Cells(box) - edge|, |fill.stack|
      {
        FillStep(fill);
      }
      forall p | Reachable(box, trenched, p) ensures p in edge {
        var path :| OpenPath(box, trenched, path) && Last(path) == p;
        ClosedHoldsPath(box, trenched, edge, path);
      }
    }

    /**
     * What holds of the fill while it runs: stacked cells are marked, marked cells are
     * reachable, the open border is marked, and a marked cell off the stack has its open
     * neighbours marked.
     */
    ghost predicate Filling(fill: Stack<Coord>)
      reads this, fill
    {
      Valid()
      && (forall p :: p in fill.stack ==> p in edge)
      && (forall p :: p in edge ==> Reachable(box, trenched, p))
      && (forall p :: OnBorder(box, p) && p !in trenched ==> p in edge)
      && (forall p :: p in edge && p !in fill.stack ==> Closed(box, trenched, edge, p))
    }

    /** One round of `process`: pop a cell and run the callback on it. */
    method FillStep(fill: Stack<Coord>)
      requires Filling(fill) && fill.stack != []
      modifies this, fill
      ensures Filling(fill) && box == old(box) && trenched == old(trenched)
      ensures |Cells(box) - edge| < |Cells(box) - old(edge)|
        || (|Cells(box) - edge| == |Cells(box) - old(edge)| && |fill.stack| < |old(fill.stack)|)
    {
      ghost var before, below := edge, Init(fill.stack);
      assert fill.stack == below + [Last(fill.stack)];
      var t := fill.Pop();
      MarkNeighbors(t, fill);
      FillStepFacts(box, trenched, before, edge, below, t, fill.stack);
    }

    /** The first half of `fillEdges`: mark and stack every open border cell, in the order the rows and columns list them. */
    method MarkBorder(fill: Stack<Coord>)
      requires Valid() && box.Some? && edge == {}
      modifies this, fill
      ensures Valid() && box == old(box) && trenched == old(trenched)
      ensures forall p :: p in edge <==> OnBorder(box, p) && p !in trenched
      ensures forall p :: p in fill.stack <==> p in old(fill.stack) || p in edge
    {
      var border := BorderCells(box.value);
      for i := 0 to |border|
        invariant Valid() && box == old(box) && trenched == old(trenched)
        invariant forall p :: p in edge <==> p in border[..i] && p !in trenched
        invariant forall p :: p in fill.stack <==> p in old(fill.stack) || p in edge
      {
        assert border[..i + 1] == border[..i] + [border[i]];
        BorderExactly(box.value, border[i]);
        if border[i] !in trenched {
          edge := edge + {border[i]};
          fill.Push(border[i]);
        }
      }
      assert border[..|border|] == border;
      forall p ensures p in border <==> OnBorder(box, p) {
        BorderExactly(box.value, p);
      }
    }

    /** One neighbour `n` of `t`: marked and stacked when it is open and not yet marked. */
    method MarkOne(t: Coord, n: Coord, fill: Stack<Coord>)
      requires Valid() && Reachable(box, trenched, t) && Adjacent(t, n)
      requires forall p :: p in edge ==> Reachable(box, trenched, p)
      modifies this, fill
      ensures Valid() && box == old(box) && trenched == old(trenched)
      ensures var added := Open(box, trenched, n) && n !in old(edge);
        edge == (if added then old(edge) + {n} else old(edge))
        && fill.stack == old(fill.stack) + (if added then [n] else [])
      ensures forall p :: p in edge ==> Reachable(box, trenched, p)
    {
      if VG.InBox(box, n) && n !in trenched && n !in edge {
        ReachStep(box, trenched, t, n);
        edge := edge + {n};
        fill.Push(n);
      }
    }

    /** The callback of the fill: mark and stack each open, unmarked neighbour of `t`, in the offsets' order. */
    method MarkNeighbors(t: Coord, fill: Stack<Coord>)
      requires Valid() && Reachable(box, trenched, t)
      requires forall p :: p in edge ==> Reachable(box, trenched, p)
      modifies this, fill
      ensures Valid() && box == old(box) && trenched == old(trenched)
      ensures forall p :: p in edge <==> p in old(edge) || (Adjacent(t, p) && Open(box, trenched, p))
      ensures forall p :: p in edge ==> Reachable(box, trenched, p)
      ensures |fill.stack| >= |old(fill.stack)| && fill.stack[..|old(fill.stack)|] == old(fill.stack)
      ensures forall i :: |old(fill.stack)| <= i < |fill.stack| ==> fill.stack[i] in edge && fill.stack[i] !in old(edge)
      ensures forall p :: p in edge && p !in old(edge) ==> p in fill.stack
      ensures edge == old(edge) ==> fill.stack == old(fill.stack)
    {
      var offsets := Grid.OrthogonalOffsets();
      var around := VG.Around(t.0, t.1, offsets);
      ghost var pushed: seq<Coord> := [];
      for k := 0 to |offsets|
        invariant Valid() && box == old(box) && trenched == old(trenched)
        invariant forall p :: p in edge ==> Reachable(box, trenched, p)
        invariant fill.stack == old(fill.stack) + pushed
        invariant Marked(box, trenched, old(edge), edge, around[..k], pushed)
      {
        var n := around[k];
        assert around[..k + 1] == around[..k] + [n];
        AroundAdjacent(t, n);
        ghost var before := edge;
        ghost var extra := if Open(box, trenched, n) && n !in before then [n] else [];
        ghost var stacked := fill.stack;
        MarkOne(t, n, fill);
        MarkedStep(box, trenched, old(edge), before, edge, around[..k], n, pushed);
        StackGrows(old(fill.stack), pushed, extra, stacked, fill.stack);
        pushed := pushed + extra;
      }
      assert around[..|offsets|] == around;
      MarkedAll(box, trenched, old(edge), edge, t, pushed);
    }

    /** `trenchInnards`: every terrain of the box that is neither edge nor trenched is trenched. */
    method TrenchInnards()
      requires Valid()
      modifies this
      ensures Valid() && box == old(box) && edge == old(edge)
      ensures forall p :: p in trenched <==> p in old(trenched) || (VG.InBox(box, p) && p !in edge)
    {
      if box.None? {
        return;
      }
      var b := box.value;
      for row := b.minY to b.maxY + 1
        invariant Valid() && box == old(box) && edge == old(edge)
        invariant forall p :: p in trenched <==> p in old(trenched) || (VG.InBox(box, p) && p.0 < row && p !in edge)
      {
        for col := b.minX to b.maxX + 1
          invariant Valid() && box == old(box) && edge == old(edge)
          invariant forall p :: p in trenched <==> (p in old(trenched)
            || (VG.InBox(box, p) && (p.0 < row || (p.0 == row && p.1 < col)) && p !in edge))
        {
          if (row, col) !in edge && (row, col) !in trenched {
            trenched := trenched + {(row, col)};
          }
        }
      }
    }

    /** `trenchCount`: the number of trenched terrains in the box, which is all of them. */
    method TrenchCount() returns (count: nat)
      requires Valid()
      ensures count == |trenched|
    {
      count := 0;
      if box.None? {
        assert trenched == {};
        return;
      }
      var b := box.value;
      ghost var seen: set<Coord> := {};
      for row := b.minY to b.maxY + 1
        invariant forall p :: p in seen <==> VG.InBox(box, p) && p.0 < row
        invariant count == |trenched * seen|
      {
        for col := b.minX to b.maxX + 1
          invariant forall p :: p in seen <==> VG.InBox(box, p) && (p.0 < row || (p.0 == row && p.1 < col))
          invariant count == |trenched * seen|
        {
          if (row, col) in trenched {
            assert trenched * (seen + {(row, col)}) == (trenched * seen) + {(row, col)};
            count := count + 1;
          } else {
            assert trenched * (seen + {(row, col)}) == trenched * seen;
          }
          seen := seen + {(row, col)};
        }
      }
      assert trenched * seen == trenched;
    }
  }

  /** The lagoon holds the trench itself, since no open path enters a trenched cell. */
  lemma TrenchInLagoon(box: Option<VG.Box>, trenched: set<Coord>)
    requires forall p :: p in trenched ==> VG.InBox(box, p)
    ensures trenched <= Lagoon(box, trenched)
  {
    forall p | p in trenched ensures p in Lagoon(box, trenched) {
      CellsExactly(box, p);
      if Reachable(box, trenched, p) {
        var path :| OpenPath(box, trenched, path) && Last(path) == p;
        assert Open(box, trenched, path[|path| - 1]);
      }
    }
  }

  /** The box and the trench that digging the plan on a fresh map leaves. */
  function PlanBox(plan: seq<Instruction>): VG.Box
  {
    Bounds(VG.Box(0, 0, 0, 0), Trail(Origin, plan))
  }

  function PlanTrench(plan: seq<Instruction>): set<Coord>
  {
    {Origin} + ElementsOf(Trail(Origin, plan))
  }

  /**
   * Digging, filling the edges and trenching the innards of a fresh map counts the lagoon:
   * every cell of the box the border cannot reach along undug cells.
   */
  method LagoonSize(plan: seq<Instruction>) returns (count: nat)
    ensures count == |Lagoon(Some(PlanBox(plan)), PlanTrench(plan))|
    ensures var box := Some(PlanBox(plan)); PlanTrench(plan) <= Lagoon(box, PlanTrench(plan)) <= Cells(box)
  {
    var terrain := new TerrainMap();
    terrain.ProcessInstructions(plan);
    ghost var box, trench := terrain.box, terrain.trenched;
    assert box == Some(PlanBox(plan)) && trench == PlanTrench(plan);
    terrain.FillEdges();
    terrain.TrenchInnards();
    forall p ensures p in terrain.trenched <==> p in Lagoon(box, trench) {
      CellsExactly(box, p);
      if p in trench {
        TrenchInLagoon(box, trench);
      }
    }
    assert terrain.trenched == Lagoon(box, trench);
    TrenchInLagoon(box, trench);
    count := terrain.TrenchCount();
  }

  /** `part1`: the letters' directions and the decimal step counts, dug on a fresh map. */
  method Part1(lines: seq<Line>) returns (r: Result<nat>)
    requires forall i :: 0 <= i < |lines| ==> Decimal.AllDigits(lines[i].steps)
    ensures ParseInput(lines).Failure? ==> r == Failure("Invalid input")
    ensures ParseInput(lines).Success? ==> (r.Success? <==> MapAll(lines, DecimalInstruction).Success?)
    ensures r.Success? ==> var plan := MapAll(lines, DecimalInstruction).value;
      r.value == |Lagoon(Some(PlanBox(plan)), PlanTrench(plan))|
  {
    var parsed := ParseInput(lines);
    if parsed.Failure? {
      return Failure(parsed.error);
    }
    var plan := MapAll(lines, DecimalInstruction);
    if plan.Failure? {
      return Failure(plan.error);
    }
    var count := LagoonSize(plan.value);
    return Success(count);
  }

  // The giant map, which keeps each instruction's segment instead of its cells.

  /** `{direction, range}`: the segment an instruction digs, from where it starts to where it ends. */
  datatype Segment = Segment(direction: Direction, start: Coord, end: Coord)

  /** `isInRange`: the cell lies within the segment's closed bounding rectangle. */
  function IsInRange(row: int, col: int, range: Segment): (r: bool)
    ensures r <==> ((range.start.0 <= row <= range.end.0 || range.end.0 <= row <= range.start.0)
      && (range.start.1 <= col <= range.end.1 || range.end.1 <= col <= range.start.1))
  {
    VG.Min(range.start.1, range.end.1) <= col && col <= VG.Max(range.start.1, range.end.1)
    && VG.Min(range.start.0, range.end.0) <= row && row <= VG.Max(range.start.0, range.end.0)
  }

  /** The order of a range's endpoints does not matter. */
  lemma InRangeEitherWay(row: int, col: int, d: Direction, a: Coord, b: Coord)
    ensures IsInRange(row, col, Segment(d, a, b)) == IsInRange(row, col, Segment(d, b, a))
  {
  }

  /** An instruction's range holds exactly the cells `0..nSteps` steps from its start. */
  lemma InRangeIsStepped(p: Coord, d: Direction, n: nat, q: Coord)
    ensures IsInRange(q.0, q.1, Segment(d, p, Move(p, d, n))) <==> exists k :: 0 <= k <= n && q == Move(p, d, k)
  {
    if IsInRange(q.0, q.1, Segment(d, p, Move(p, d, n))) {
      var k := match d
        case Up => p.0 - q.0
        case Down => q.0 - p.0
        case Left => p.1 - q.1
        case Right => q.1 - p.1;
      assert q == Move(p, d, k);
    }
  }

  /** An instruction's range is its start and the cells it steps through. */
  lemma InRangeIsStart(p: Coord, d: Direction, n: nat, q: Coord)
    ensures IsInRange(q.0, q.1, Segment(d, p, Move(p, d, n))) <==> q == p || q in Steps(p, d, n)
  {
    InRangeIsStepped(p, d, n, q);
    StepsExactly(p, d, n);
    if q in Steps(p, d, n) {
      var i :| 0 <= i < n && Steps(p, d, n)[i] == q;
      assert q == Move(p, d, i + 1);
    }
    if exists k :: 0 <= k <= n && q == Move(p, d, k) {
      var k :| 0 <= k <= n && q == Move(p, d, k);
      if k > 0 {
        assert Steps(p, d, n)[k - 1] == q;
      }
    }
  }

  /** One segment per instruction, each starting where the one before ends. */
  function Segments(p: Coord, plan: seq<Instruction>): (r: seq<Segment>)
    ensures |r| == |plan|
  {
    if plan == [] then []
    else Segments(p, Init(plan)) + [Segment(Last(plan).direction, EndOf(p, Init(plan)), EndOf(p, plan))]
  }

  /** The cells `pointsInRange` collects: those of some range. */
  predicate InSomeRange(p: Coord, ranges: seq<Segment>)
  {
    ranges != [] && (InSomeRange(p, Init(ranges)) || IsInRange(p.0, p.1, Last(ranges)))
  }

  function Verticals(ranges: seq<Segment>): (r: seq<Segment>)
    ensures forall x :: x in r <==> x in ranges && IsVertical(x.direction)
  {
    if ranges == [] then []
    else Verticals(Init(ranges)) + if IsVertical(Last(ranges).direction) then [Last(ranges)] else []
  }

  /** Where each instruction of the plan ends. */
  function Vertices(p: Coord, plan: seq<Instruction>): (r: seq<Coord>)
    ensures |r| == |plan|
  {
    if plan == [] then [] else Vertices(p, Init(plan)) + [EndOf(p, plan)]
  }

  function Row(c: Coord): int { c.0 }

  function Col(c: Coord): int { c.1 }

  function StartColumn(range: Segment): int { range.start.1 }

  /** `Math.min` folded over `f` of each coordinate, from `m`. */
  function Least(m: int, vs: seq<Coord>, f: Coord -> int): int
  {
    if vs == [] then m else VG.Min(Least(m, Init(vs), f), f(Last(vs)))
  }

  /** `Math.max` folded over `f` of each coordinate, from `m`. */
  function Greatest(m: int, vs: seq<Coord>, f: Coord -> int): int
  {
    if vs == [] then m else VG.Max(Greatest(m, Init(vs), f), f(Last(vs)))
  }

  /** The fold is a lower bound of the start and of every coordinate, and it is one of them. */
  lemma {:induction false} LeastIsLeast(m: int, vs: seq<Coord>, f: Coord -> int)
    ensures var r := Least(m, vs, f);
      r <= m && (forall i :: 0 <= i < |vs| ==> r <= f(vs[i])) && (r == m || exists i :: 0 <= i < |vs| && r == f(vs[i]))
    decreases |vs|
  {
    if vs != [] {
      LeastIsLeast(m, Init(vs), f);
      assert forall i :: 0 <= i < |vs| - 1 ==> Init(vs)[i] == vs[i];
    }
  }

  /** The fold is an upper bound of the start and of every coordinate, and it is one of them. */
  lemma {:induction false} GreatestIsGreatest(m: int, vs: seq<Coord>, f: Coord -> int)
    ensures var r := Greatest(m, vs, f);
      m <= r && (forall i :: 0 <= i < |vs| ==> f(vs[i]) <= r) && (r == m || exists i :: 0 <= i < |vs| && r == f(vs[i]))
    decreases |vs|
  {
    if vs != [] {
      GreatestIsGreatest(m, Init(vs), f);
      assert forall i :: 0 <= i < |vs| - 1 ==> Init(vs)[i] == vs[i];
    }
  }

  /** The giant map's ranges cover exactly the cells the terrain map trenches, for any plan with an instruction. */
  lemma {:induction false} RangesAreTrench(plan: seq<Instruction>, p: Coord)
    requires plan != []
    ensures InSomeRange(p, Segments(Origin, plan)) <==> p in PlanTrench(plan)
    decreases |plan|
  {
    var e, d, n := EndOf(Origin, Init(plan)), Last(plan).direction, Last(plan).nSteps;
    var segs := Segments(Origin, Init(plan));
    var range := Segment(d, e, EndOf(Origin, plan));
    assert Segments(Origin, plan) == segs + [range];
    assert Init(segs + [range]) == segs && Last(segs + [range]) == range;
    ElementsAppend(Trail(Origin, Init(plan)), Steps(e, d, n));
    assert PlanTrench(plan) == PlanTrench(Init(plan)) + ElementsOf(Steps(e, d, n));
    InRangeIsStart(e, d, n, p);
    TrailSteps(Origin, Init(plan));
    var before := [Origin] + Trail(Origin, Init(plan));
    assert e == before[|before| - 1];
    assert e in PlanTrench(Init(plan));
    if Init(plan) != [] {
      RangesAreTrench(Init(plan), p);
    }
  }

  /** One more range adds at most itself to the verticals and its cells to those in some range. */
  lemma RangesSnoc(segs: seq<Segment>, range: Segment)
    ensures Verticals(segs + [range]) == Verticals(segs) + (if IsVertical(range.direction) then [range] else [])
    ensures forall p :: InSomeRange(p, segs + [range]) <==> InSomeRange(p, segs) || IsInRange(p.0, p.1, range)
  {
    assert Init(segs + [range]) == segs && Last(segs + [range]) == range;
  }

  /** One more vertex folds into each bound once. */
  lemma VerticesSnoc(vs: seq<Coord>, v: Coord, x0: int, xx0: int, y0: int, yy0: int)
    ensures Least(x0, vs + [v], Col) == VG.Min(Least(x0, vs, Col), v.1)
    ensures Greatest(xx0, vs + [v], Col) == VG.Max(Greatest(xx0, vs, Col), v.1)
    ensures Least(y0, vs + [v], Row) == VG.Min(Least(y0, vs, Row), v.0)
    ensures Greatest(yy0, vs + [v], Row) == VG.Max(Greatest(yy0, vs, Row), v.0)
  {
    assert Init(vs + [v]) == vs && Last(vs + [v]) == v;
  }

  /** The plan up to `k + 1` is the plan up to `k` and one more instruction. */
  lemma PlanSnoc(plan: seq<Instruction>, k: nat)
    requires k < |plan|
    ensures EndOf(Origin, plan[..k + 1]) == Move(EndOf(Origin, plan[..k]), plan[k].direction, plan[k].nSteps)
    ensures Segments(Origin, plan[..k + 1])
      == Segments(Origin, plan[..k]) + [Segment(plan[k].direction, EndOf(Origin, plan[..k]), EndOf(Origin, plan[..k + 1]))]
    ensures Vertices(Origin, plan[..k + 1]) == Vertices(Origin, plan[..k]) + [EndOf(Origin, plan[..k + 1])]
  {
    assert Init(plan[..k + 1]) == plan[..k] && Last(plan[..k + 1]) == plan[k];
  }

  /** The fields of a `GiantTerrainMap`, as values. */
  datatype GiantFields = GiantFields(trenched: seq<Segment>, points: set<Coord>, verticals: seq<Segment>, minX: int, maxX: int, minY: int, maxY: int)

  /** `now` holds what `start` held plus the segments, cells, verticals and bounds of `done`. */
  ghost predicate AddedSince(start: GiantFields, done: seq<Instruction>, now: GiantFields)
  {
    now.trenched == start.trenched + Segments(Origin, done)
    && (forall p :: p in now.points <==> p in start.points || InSomeRange(p, Segments(Origin, done)))
    && now.verticals == start.verticals + Verticals(Segments(Origin, done))
    && now.minX == Least(start.minX, Vertices(Origin, done), Col) && now.maxX == Greatest(start.maxX, Vertices(Origin, done), Col)
    && now.minY == Least(start.minY, Vertices(Origin, done), Row) && now.maxY == Greatest(start.maxY, Vertices(Origin, done), Row)
  }

  /** Adding the instruction at `k` as `addInstruction` does extends the segments and verticals of the earlier instructions. */
  lemma RangesStep(plan: seq<Instruction>, k: nat, t0: seq<Segment>, v0: seq<Segment>, before: GiantFields, after: GiantFields)
    requires k < |plan|
    requires before.trenched == t0 + Segments(Origin, plan[..k]) && before.verticals == v0 + Verticals(Segments(Origin, plan[..k]))
    requires var range := Segment(plan[k].direction, EndOf(Origin, plan[..k]), EndOf(Origin, plan[..k + 1]));
      after.trenched == before.trenched + [range]
      && after.verticals == before.verticals + (if IsVertical(plan[k].direction) then [range] else [])
    ensures after.trenched == t0 + Segments(Origin, plan[..k + 1]) && after.verticals == v0 + Verticals(Segments(Origin, plan[..k + 1]))
  {
    PlanSnoc(plan, k);
    var segs, range := Segments(Origin, plan[..k]), Segment(plan[k].direction, EndOf(Origin, plan[..k]), EndOf(Origin, plan[..k + 1]));
    var extra := if IsVertical(plan[k].direction) then [range] else [];
    RangesSnoc(segs, range);
    assert after.trenched == t0 + (segs + [range]);
    assert after.verticals == v0 + (Verticals(segs) + extra);
  }

  /** Adding the cells of the instruction at `k` extends the cells of the earlier instructions. */
  lemma PointsStep(plan: seq<Instruction>, k: nat, p0: set<Coord>, before: set<Coord>, after: set<Coord>)
    requires k < |plan|
    requires forall p :: p in before <==> p in p0 || InSomeRange(p, Segments(Origin, plan[..k]))
    requires forall p :: p in after <==> p in before || IsInRange(p.0, p.1, Segment(plan[k].direction, EndOf(Origin, plan[..k]), EndOf(Origin, plan[..k + 1])))
    ensures forall p :: p in after <==> p in p0 || InSomeRange(p, Segments(Origin, plan[..k + 1]))
  {
    PlanSnoc(plan, k);
    RangesSnoc(Segments(Origin, plan[..k]), Segment(plan[k].direction, EndOf(Origin, plan[..k]), EndOf(Origin, plan[..k + 1])));
  }

  /** Folding the end of the instruction at `k` into the bounds extends the bounds of the earlier instructions. */
  lemma BoundsStep(plan: seq<Instruction>, k: nat, start: GiantFields, before: GiantFields, after: GiantFields)
    requires k < |plan|
    requires before.minX == Least(start.minX, Vertices(Origin, plan[..k]), Col) && before.maxX == Greatest(start.maxX, Vertices(Origin, plan[..k]), Col)
    requires before.minY == Least(start.minY, Vertices(Origin, plan[..k]), Row) && before.maxY == Greatest(start.maxY, Vertices(Origin, plan[..k]), Row)
    requires var v := EndOf(Origin, plan[..k + 1]);
      after.minX == VG.Min(before.minX, v.1) && after.maxX == VG.Max(before.maxX, v.1)
      && after.minY == VG.Min(before.minY, v.0) && after.maxY == VG.Max(before.maxY, v.0)
    ensures after.minX == Least(start.minX, Vertices(Origin, plan[..k + 1]), Col) && after.maxX == Greatest(start.maxX, Vertices(Origin, plan[..k + 1]), Col)
    ensures after.minY == Least(start.minY, Vertices(Origin, plan[..k + 1]), Row) && after.maxY == Greatest(start.maxY, Vertices(Origin, plan[..k + 1]), Row)
  {
    PlanSnoc(plan, k);
    VerticesSnoc(Vertices(Origin, plan[..k]), EndOf(Origin, plan[..k + 1]), start.minX, start.maxX, start.minY, start.maxY);
  }

  class GiantTerrainMap {
    var trenchedRanges: seq<Segment>
    var verticalRanges: seq<Segment>
    /** A `CustomSet` keyed by `toString`, which tells points apart, so a set of cells. */
    var pointsInRange: set<Coord>
    var minX: int
    var minY: int
    var maxX: int
    var maxY: int

    constructor ()
      ensures trenchedRanges == [] && verticalRanges == [] && pointsInRange == {}
      ensures minX == 0 && minY == 0 && maxX == 0 && maxY == 0
    {
      trenchedRanges, verticalRanges, pointsInRange := [], [], {};
      minX, minY, maxX, maxY := 0, 0, 0, 0;
    }

    /**
     * `processInstructions`: from the origin, every instruction adds its segment and the
     * cells of its range, a vertical one is kept apart, and the bounds grow to hold where it
     * ends; the vertical segments are then sorted by the column they start in.
     */
    method ProcessInstructions(plan: seq<Instruction>)
      modifies this
      ensures trenchedRanges == old(trenchedRanges) + Segments(Origin, plan)
      ensures forall p :: p in pointsInRange <==> p in old(pointsInRange) || InSomeRange(p, Segments(Origin, plan))
      ensures verticalRanges == Sorting.SortBy(old(verticalRanges) + Verticals(Segments(Origin, plan)), StartColumn)
      ensures minX == Least(old(minX), Vertices(Origin, plan), Col) && maxX == Greatest(old(maxX), Vertices(Origin, plan), Col)
      ensures minY == Least(old(minY), Vertices(Origin, plan), Row) && maxY == Greatest(old(maxY), Vertices(Origin, plan), Row)
    {
      AddAll(plan);
      verticalRanges := Sorting.SortBy(verticalRanges, StartColumn);
    }

    /** The `forEach` over the instructions, before the sort. */
    method AddAll(plan: seq<Instruction>)
      modifies this
      ensures trenchedRanges == old(trenchedRanges) + Segments(Origin, plan)
      ensures forall p :: p in pointsInRange <==> p in old(pointsInRange) || InSomeRange(p, Segments(Origin, plan))
      ensures verticalRanges == old(verticalRanges) + Verticals(Segments(Origin, plan))
      ensures minX == Least(old(minX), Vertices(Origin, plan), Col) && maxX == Greatest(old(maxX), Vertices(Origin, plan), Col)
      ensures minY == Least(old(minY), Vertices(Origin, plan), Row) && maxY == Greatest(old(maxY), Vertices(Origin, plan), Row)
    {
      var position := Origin;
      ghost var start := Fields();
      assert plan[..0] == [];
      for k := 0 to |plan|
        invariant position == EndOf(Origin, plan[..k]) && AddedSince(start, plan[..k], Fields())
      {
        position := AddNext(plan, k, position, start);
      }
      assert plan[..|plan|] == plan;
    }

    /** The segments, cells, verticals and bounds the map holds. */
    ghost function Fields(): GiantFields
      reads this
    {
      GiantFields(trenchedRanges, pointsInRange, verticalRanges, minX, maxX, minY, maxY)
    }

    /** One pass of the `forEach`: the instruction at `k` is added after those before it. */
    method AddNext(plan: seq<Instruction>, k: nat, position: Coord, ghost start: GiantFields) returns (next: Coord)
      requires k < |plan| && position == EndOf(Origin, plan[..k]) && AddedSince(start, plan[..k], Fields())
      modifies this
      ensures next == EndOf(Origin, plan[..k + 1]) && AddedSince(start, plan[..k + 1], Fields())
    {
      ghost var before := Fields();
      PlanSnoc(plan, k);
      next := AddInstruction(position, plan[k]);
      RangesStep(plan, k, start.trenched, start.verticals, before, Fields());
      PointsStep(plan, k, start.points, before.points, pointsInRange);
      BoundsStep(plan, k, start, before, Fields());
    }

    /** The body of the `forEach`: one instruction's segment, cells, vertical and bounds. */
    method AddInstruction(position: Coord, ins: Instruction) returns (finalPoint: Coord)
      modifies this
      ensures finalPoint == Move(position, ins.direction, ins.nSteps)
      ensures var range := Segment(ins.direction, position, finalPoint);
        trenchedRanges == old(trenchedRanges) + [range]
        && (forall p :: p in pointsInRange <==> p in old(pointsInRange) || IsInRange(p.0, p.1, range))
        && verticalRanges == old(verticalRanges) + if IsVertical(ins.direction) then [range] else []
      ensures minX == VG.Min(old(minX), finalPoint.1) && maxX == VG.Max(old(maxX), finalPoint.1)
      ensures minY == VG.Min(old(minY), finalPoint.0) && maxY == VG.Max(old(maxY), finalPoint.0)
    {
      finalPoint := Move(position, ins.direction, ins.nSteps);
      var range := Segment(ins.direction, position, finalPoint);
      trenchedRanges := trenchedRanges + [range];
      AddRange(range);
      if IsVertical(ins.direction) {
        verticalRanges := verticalRanges + [range];
      }
      minX, minY := VG.Min(minX, finalPoint.1), VG.Min(minY, finalPoint.0);
      maxX, maxY := VG.Max(maxX, finalPoint.1), VG.Max(maxY, finalPoint.0);
    }

    /** The two nested loops over a range's rows and columns, adding each cell. */
    method AddRange(range: Segment)
      modifies this
      ensures forall p :: p in pointsInRange <==> p in old(pointsInRange) || IsInRange(p.0, p.1, range)
      ensures trenchedRanges == old(trenchedRanges) && verticalRanges == old(verticalRanges)
      ensures minX == old(minX) && minY == old(minY) && maxX == old(maxX) && maxY == old(maxY)
    {
      var minCol, maxCol := VG.Min(range.start.1, range.end.1), VG.Max(range.start.1, range.end.1);
      var minRow, maxRow := VG.Min(range.start.0, range.end.0), VG.Max(range.start.0, range.end.0);
      for row := minRow to maxRow + 1
        invariant forall p :: p in pointsInRange <==> p in old(pointsInRange) || (IsInRange(p.0, p.1, range) && p.0 < row)
        invariant trenchedRanges == old(trenchedRanges) && verticalRanges == old(verticalRanges)
        invariant minX == old(minX) && minY == old(minY) && maxX == old(maxX) && maxY == old(maxY)
      {
        for col := minCol to maxCol + 1
          invariant forall p :: p in pointsInRange <==> (p in old(pointsInRange)
            || (IsInRange(p.0, p.1, range) && (p.0 < row || (p.0 == row && p.1 < col))))
          invariant trenchedRanges == old(trenchedRanges) && verticalRanges == old(verticalRanges)
          invariant minX == old(minX) && minY == old(minY) && maxX == old(maxX) && maxY == old(maxY)
        {
          pointsInRange := pointsInRange + {(row, col)};
        }
      }
    }
  }

  /** The vertical segments come out in order of their start column, and none is lost or added. */
  lemma VerticalsSorted(old_verticals: seq<Segment>, plan: seq<Instruction>)
    ensures var all := old_verticals + Verticals(Segments(Origin, plan));
      Sorting.SortedBy(Sorting.SortBy(all, StartColumn), StartColumn)
      && multiset(Sorting.SortBy(all, StartColumn)) == multiset(all)
  {
    Sorting.SortBySortsAndPermutes(old_verticals + Verticals(Segments(Origin, plan)), StartColumn);
  }
}
