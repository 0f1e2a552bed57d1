/**
 * Day 17, "Clumsy Crucible": a least-heat-loss walk through the city from the top-left block
 * to the bottom-right one. Walks are kept in a `PriorityQueue` (priority: heat lost so far,
 * lowest popped first) and pruned by the best heat loss found so far and by the best heat
 * loss seen at each state key (the block and the most recent moves). Part 1 moves a crucible
 * that never reverses and never makes four equal moves in a row; part 2 an ultra crucible
 * that goes straight for (up to) four moves before a turn and never makes eleven equal moves.
 */
module Day17 {
  import opened Wrappers
  import opened Stack
  import Grid
  import Text
  import PQ = PriorityQueue

  datatype Direction = Up | Down | Left | Right

  /** `Object.keys(DirectionDiff)`. */
  const Directions: seq<Direction> := [Up, Down, Left, Right]

  /** `DirectionDiff`: (row, col) offsets. */
  function Diff(d: Direction): (int, int)
  {
    match d
    case Up => (-1, 0)
    case Down => (1, 0)
    case Left => (0, -1)
    case Right => (0, 1)
  }

  /** `OppositeDirections`: the direction whose offset is the negated one. */
  function Opposite(d: Direction): (o: Direction)
    ensures Diff(o) == (-Diff(d).0, -Diff(d).1)
    ensures o != d
  {
    match d
    case Up => Down
    case Down => Up
    case Left => Right
    case Right => Left
  }

  lemma DiffInjective(d: Direction, e: Direction)
    ensures Diff(d) == Diff(e) ==> d == e
  {
  }

  /** A block's position as (row, col). */
  type Pos = (int, int)

  function Step(p: Pos, d: Direction): Pos
  {
    (p.0 + Diff(d).0, p.1 + Diff(d).1)
  }

  /** Which rules a walk follows: part 1's, part 2's as written, and part 2's as the puzzle states them. */
  datatype Crucible = Standard | Ultra | UltraCorrected

  /** Moves in one direction before a turn: `nMinInDirection`. */
  const MinRun: nat := 4

  /** Most moves in one direction, and how many recent moves a state key holds. */
  function MaxRun(c: Crucible): nat
  {
    if c == Standard then 3 else 10
  }

  /** `s.slice(-n)`: the last `n` elements, or all of them when there are fewer. */
  function Window<T>(s: seq<T>, n: nat): (w: seq<T>)
    ensures |w| == (if |s| < n then |s| else n)
    ensures w == s[|s| - |w|..]
  {
    if |s| <= n then s else s[|s| - n..]
  }

  predicate AllAre(s: seq<Direction>, d: Direction)
  {
    forall i :: 0 <= i < |s| ==> s[i] == d
  }

  /** The walk may only continue in its last direction. */
  predicate MustGoStraight(c: Crucible, dirs: seq<Direction>)
    requires dirs != []
  {
    match c
    case Standard => false
    case Ultra => !AllAre(Window(dirs, MinRun), Last(dirs))
    case UltraCorrected => |dirs| < MinRun || !AllAre(Window(dirs, MinRun), Last(dirs))
  }

  /** The loop's two `continue` tests: not back, and not once more after a full run of `MaxRun` moves. */
  predicate MayTurnTo(c: Crucible, dirs: seq<Direction>, d: Direction)
    requires dirs != []
  {
    d != Opposite(Last(dirs))
    && !(|Window(dirs, MaxRun(c))| == MaxRun(c) && AllAre(Window(dirs, MaxRun(c)), d))
  }

  /** The directions among `ds` that pass `MayTurnTo`, in order. */
  function TurnsFrom(c: Crucible, dirs: seq<Direction>, ds: seq<Direction>): seq<Direction>
    requires dirs != []
  {
    if ds == [] then []
    else TurnsFrom(c, dirs, Init(ds)) + (if MayTurnTo(c, dirs, Last(ds)) then [Last(ds)] else [])
  }

  /** `possibleNextDirections`. */
  function Next(c: Crucible, dirs: seq<Direction>): seq<Direction>
  {
    if dirs == [] then [Right, Down]
    else if MustGoStraight(c, dirs) then [Last(dirs)]
    else TurnsFrom(c, dirs, Directions)
  }

  /** Whether reaching the end block with these moves counts. */
  predicate Accepts(c: Crucible, dirs: seq<Direction>)
  {
    match c
    case Standard => true
    case Ultra => dirs == [] || AllAre(Window(dirs, MinRun), Last(dirs))
    case UltraCorrected => |dirs| >= MinRun && AllAre(Window(dirs, MinRun), Last(dirs))
  }

  // The rules, stated on the whole sequence of moves.

  /** The `k` moves just before index `i` are all `d`. */
  predicate RunBefore(dirs: seq<Direction>, i: int, k: nat, d: Direction)
  {
    0 <= i - k && i <= |dirs| && forall j :: i - k <= j < i ==> dirs[j] == d
  }

  /** How many moves part 2's `slice(-nMinInDirection)` looks back on after `i` moves. */
  function Recent(i: nat): nat
  {
    if i < MinRun then i else MinRun
  }

  predicate StartsRightOrDown(dirs: seq<Direction>)
  {
    dirs != [] ==> dirs[0] == Right || dirs[0] == Down
  }

  predicate NeverReverses(dirs: seq<Direction>)
  {
    forall i :: 0 < i < |dirs| ==> dirs[i] != Opposite(dirs[i - 1])
  }

  /** No `n + 1` equal moves in a row. */
  predicate RunsAtMost(dirs: seq<Direction>, n: nat)
  {
    forall i :: n <= i < |dirs| ==> !RunBefore(dirs, i, n, dirs[i])
  }

  /** Part 2 as written: a turn comes after `MinRun` equal moves, or after all the moves so far when there are fewer. */
  predicate TurnsAfterRecent(dirs: seq<Direction>)
  {
    forall i :: 0 < i < |dirs| && dirs[i] != dirs[i - 1] ==> RunBefore(dirs, i, Recent(i), dirs[i - 1])
  }

  /** Part 2 as the puzzle states it: a turn comes after at least `MinRun` equal moves. */
  predicate TurnsAfterFour(dirs: seq<Direction>)
  {
    forall i :: 0 < i < |dirs| && dirs[i] != dirs[i - 1] ==> RunBefore(dirs, i, MinRun, dirs[i - 1])
  }

  predicate Rules(c: Crucible, dirs: seq<Direction>)
  {
    StartsRightOrDown(dirs) && NeverReverses(dirs) && RunsAtMost(dirs, MaxRun(c))
    && match c
       case Standard => true
       case Ultra => TurnsAfterRecent(dirs)
       case UltraCorrected => TurnsAfterFour(dirs)
  }

  /** Whether the rules let the walk turn after `dirs`. */
  predicate TurnAllowed(c: Crucible, dirs: seq<Direction>)
    requires dirs != []
  {
    match c
    case Standard => true
    case Ultra => RunBefore(dirs, |dirs|, Recent(|dirs|), Last(dirs))
    case UltraCorrected => RunBefore(dirs, |dirs|, MinRun, Last(dirs))
  }

  /** What one more move `d` after `dirs` must satisfy for the rules to keep holding. */
  predicate StepRule(c: Crucible, dirs: seq<Direction>, d: Direction)
  {
    if dirs == [] then d == Right || d == Down
    else
      d != Opposite(Last(dirs)) && !RunBefore(dirs, |dirs|, MaxRun(c), d)
      && (d != Last(dirs) ==> TurnAllowed(c, dirs))
  }

  /** `[d]` when the loop keeps `d`. */
  function Kept(c: Crucible, dirs: seq<Direction>, d: Direction): seq<Direction>
    requires dirs != []
  {
    if MayTurnTo(c, dirs, d) then [d] else []
  }

  lemma TurnsUnrolled(c: Crucible, dirs: seq<Direction>)
    requires dirs != []
    ensures TurnsFrom(c, dirs, Directions) == Kept(c, dirs, Up) + Kept(c, dirs, Down) + Kept(c, dirs, Left) + Kept(c, dirs, Right)
  {
    assert Init([Up]) == [] && Init([Up, Down]) == [Up] && Init([Up, Down, Left]) == [Up, Down] && Init(Directions) == [Up, Down, Left];
    assert TurnsFrom(c, dirs, [Up]) == Kept(c, dirs, Up);
    assert TurnsFrom(c, dirs, [Up, Down]) == Kept(c, dirs, Up) + Kept(c, dirs, Down);
    assert TurnsFrom(c, dirs, [Up, Down, Left]) == Kept(c, dirs, Up) + Kept(c, dirs, Down) + Kept(c, dirs, Left);
  }

  lemma InFour(d: Direction, up: bool, down: bool, left: bool, right: bool)
    ensures d in (if up then [Up] else []) + (if down then [Down] else []) + (if left then [Left] else []) + (if right then [Right] else [])
      <==> (d == Up && up) || (d == Down && down) || (d == Left && left) || (d == Right && right)
  {
  }

  /** The loop over `Directions` keeps exactly the directions that pass its tests. */
  lemma TurnsExactly(c: Crucible, dirs: seq<Direction>, d: Direction)
    requires dirs != []
    ensures d in TurnsFrom(c, dirs, Directions) <==> MayTurnTo(c, dirs, d)
  {
    TurnsUnrolled(c, dirs);
    InFour(d, MayTurnTo(c, dirs, Up), MayTurnTo(c, dirs, Down), MayTurnTo(c, dirs, Left), MayTurnTo(c, dirs, Right));
  }

  /** The source's `slice(-k).every(...)` test is a run of the last `min(k, n)` moves. */
  lemma WindowRun(dirs: seq<Direction>, k: nat, d: Direction)
    ensures AllAre(Window(dirs, k), d) <==> RunBefore(dirs, |dirs|, if |dirs| < k then |dirs| else k, d)
  {
    var w := Window(dirs, k);
    var m := |w|;
    if AllAre(w, d) {
      forall j | |dirs| - m <= j < |dirs| ensures dirs[j] == d {
        assert w[j - (|dirs| - m)] == dirs[j];
      }
    }
    if RunBefore(dirs, |dirs|, m, d) {
      forall j | 0 <= j < m ensures w[j] == d {
        assert w[j] == dirs[|dirs| - m + j];
      }
    }
  }

  lemma RunShrinks(dirs: seq<Direction>, i: int, k: nat, k': nat, d: Direction)
    requires RunBefore(dirs, i, k, d) && k' <= k
    ensures RunBefore(dirs, i, k', d)
  {
  }

  /** The walk must go straight exactly when the rules forbid a turn. */
  lemma StraightUnlessTurnAllowed(c: Crucible, dirs: seq<Direction>)
    requires dirs != []
    ensures MustGoStraight(c, dirs) <==> !TurnAllowed(c, dirs)
  {
    WindowRun(dirs, MinRun, Last(dirs));
  }

  /** The loop's run test is a run of `MaxRun` equal moves. */
  lemma FullRun(c: Crucible, dirs: seq<Direction>, d: Direction)
    ensures (|Window(dirs, MaxRun(c))| == MaxRun(c) && AllAre(Window(dirs, MaxRun(c)), d)) <==> RunBefore(dirs, |dirs|, MaxRun(c), d)
  {
    WindowRun(dirs, MaxRun(c), d);
  }

  /** Going straight never completes a run that is too long: the last moves are not all equal yet. */
  lemma StraightIsShort(c: Crucible, dirs: seq<Direction>)
    requires dirs != [] && MustGoStraight(c, dirs)
    ensures !RunBefore(dirs, |dirs|, MaxRun(c), Last(dirs))
  {
    WindowRun(dirs, MinRun, Last(dirs));
    if RunBefore(dirs, |dirs|, MaxRun(c), Last(dirs)) {
      RunShrinks(dirs, |dirs|, MaxRun(c), Recent(|dirs|), Last(dirs));
    }
  }

  /** `Next` offers exactly the moves the rules allow. */
  lemma NextExactly(c: Crucible, dirs: seq<Direction>, d: Direction)
    ensures d in Next(c, dirs) <==> StepRule(c, dirs, d)
  {
    if dirs != [] {
      if MustGoStraight(c, dirs) {
        NextStraight(c, dirs, d);
      } else {
        NextTurns(c, dirs, d);
      }
    }
  }

  lemma NextStraight(c: Crucible, dirs: seq<Direction>, d: Direction)
    requires dirs != [] && MustGoStraight(c, dirs)
    ensures d in Next(c, dirs) <==> StepRule(c, dirs, d)
  {
    assert Next(c, dirs) == [Last(dirs)];
    if d == Last(dirs) {
      StraightIsShort(c, dirs);
      assert d != Opposite(Last(dirs));
    } else {
      StraightUnlessTurnAllowed(c, dirs);
      assert !TurnAllowed(c, dirs);
    }
  }

  lemma NextTurns(c: Crucible, dirs: seq<Direction>, d: Direction)
    requires dirs != [] && !MustGoStraight(c, dirs)
    ensures d in Next(c, dirs) <==> StepRule(c, dirs, d)
  {
    assert Next(c, dirs) == TurnsFrom(c, dirs, Directions);
    StraightUnlessTurnAllowed(c, dirs);
    TurnsExactly(c, dirs, d);
    FullRun(c, dirs, d);
  }

  /** A run that ends before the new move is the same run after it. */
  lemma RunBeforeSnoc(dirs: seq<Direction>, d: Direction, i: int, k: nat, x: Direction)
    requires i <= |dirs|
    ensures RunBefore(dirs + [d], i, k, x) <==> RunBefore(dirs, i, k, x)
  {
    if RunBefore(dirs + [d], i, k, x) {
      forall j | i - k <= j < i ensures dirs[j] == x {
        assert (dirs + [d])[j] == dirs[j];
      }
    }
  }

  lemma StartsSnoc(dirs: seq<Direction>, d: Direction)
    ensures StartsRightOrDown(dirs + [d]) <==> StartsRightOrDown(dirs) && (dirs == [] ==> d == Right || d == Down)
  {
    if dirs != [] {
      assert (dirs + [d])[0] == dirs[0];
    }
  }

  lemma ReversesSnoc(dirs: seq<Direction>, d: Direction)
    ensures NeverReverses(dirs + [d]) <==> NeverReverses(dirs) && (dirs != [] ==> d != Opposite(Last(dirs)))
  {
    var e := dirs + [d];
    if NeverReverses(e) {
      forall i | 0 < i < |dirs| ensures dirs[i] != Opposite(dirs[i - 1]) {
        assert e[i] == dirs[i] && e[i - 1] == dirs[i - 1];
      }
      if dirs != [] {
        assert e[|dirs|] == d && e[|dirs| - 1] == Last(dirs);
      }
    }
  }

  lemma RunsSnoc(dirs: seq<Direction>, d: Direction, n: nat)
    ensures RunsAtMost(dirs + [d], n) <==> RunsAtMost(dirs, n) && !RunBefore(dirs, |dirs|, n, d)
  {
    var e := dirs + [d];
    forall i | n <= i < |dirs| ensures RunBefore(e, i, n, e[i]) <==> RunBefore(dirs, i, n, dirs[i]) {
      RunBeforeSnoc(dirs, d, i, n, dirs[i]);
    }
    RunBeforeSnoc(dirs, d, |dirs|, n, d);
    assert e[|dirs|] == d;
  }

  lemma RecentSnoc(dirs: seq<Direction>, d: Direction)
    ensures TurnsAfterRecent(dirs + [d]) <==>
      TurnsAfterRecent(dirs) && (dirs != [] && d != Last(dirs) ==> RunBefore(dirs, |dirs|, Recent(|dirs|), Last(dirs)))
  {
    var e := dirs + [d];
    forall i | 0 < i < |dirs|
      ensures (e[i] != e[i - 1] ==> RunBefore(e, i, Recent(i), e[i - 1])) <==> (dirs[i] != dirs[i - 1] ==> RunBefore(dirs, i, Recent(i), dirs[i - 1]))
    {
      RunBeforeSnoc(dirs, d, i, Recent(i), dirs[i - 1]);
    }
    if dirs != [] {
      RunBeforeSnoc(dirs, d, |dirs|, Recent(|dirs|), Last(dirs));
      assert e[|dirs|] == d && e[|dirs| - 1] == Last(dirs);
    }
  }

  lemma FourSnoc(dirs: seq<Direction>, d: Direction)
    ensures TurnsAfterFour(dirs + [d]) <==>
      TurnsAfterFour(dirs) && (dirs != [] && d != Last(dirs) ==> RunBefore(dirs, |dirs|, MinRun, Last(dirs)))
  {
    var e := dirs + [d];
    forall i | 0 < i < |dirs|
      ensures (e[i] != e[i - 1] ==> RunBefore(e, i, MinRun, e[i - 1])) <==> (dirs[i] != dirs[i - 1] ==> RunBefore(dirs, i, MinRun, dirs[i - 1]))
    {
      RunBeforeSnoc(dirs, d, i, MinRun, dirs[i - 1]);
    }
    if dirs != [] {
      RunBeforeSnoc(dirs, d, |dirs|, MinRun, Last(dirs));
      assert e[|dirs|] == d && e[|dirs| - 1] == Last(dirs);
    }
  }

  /** The rules hold after one more move exactly when they held before and the move obeys `StepRule`. */
  lemma RulesSnoc(c: Crucible, dirs: seq<Direction>, d: Direction)
    ensures Rules(c, dirs + [d]) <==> Rules(c, dirs) && StepRule(c, dirs, d)
  {
    StartsSnoc(dirs, d);
    ReversesSnoc(dirs, d);
    RunsSnoc(dirs, d, MaxRun(c));
    RecentSnoc(dirs, d);
    FourSnoc(dirs, d);
  }

  /** Every move of `dirs` is one `Next` offers after the moves before it. */
  predicate Chosen(c: Crucible, dirs: seq<Direction>)
  {
    forall i :: 0 <= i < |dirs| ==> dirs[i] in Next(c, dirs[..i])
  }

  /** The moves a sequence of `Next` choices can make are exactly those obeying the rules. */
  lemma {:induction false} NextBuildsRules(c: Crucible, dirs: seq<Direction>)
    ensures Chosen(c, dirs) <==> Rules(c, dirs)
    decreases |dirs|
  {
    if dirs != [] {
      var init, d := Init(dirs), Last(dirs);
      assert dirs == init + [d];
      NextBuildsRules(c, init);
      NextExactly(c, init, d);
      RulesSnoc(c, init, d);
      ChosenSnoc(c, init, d);
    }
  }

  /** `dirs + [d]` is chosen move by move exactly when `dirs` is and `Next` offers `d` after it. */
  lemma ChosenSnoc(c: Crucible, dirs: seq<Direction>, d: Direction)
    ensures Chosen(c, dirs + [d]) <==> Chosen(c, dirs) && d in Next(c, dirs)
  {
    var e := dirs + [d];
    assert forall i :: 0 <= i < |dirs| ==> e[i] == dirs[i] && e[..i] == dirs[..i];
    assert e[|dirs|] == d && e[..|dirs|] == dirs;
  }

  /** Part 1's crucible: first right or down, never back, never four equal moves in a row. */
  lemma StandardRules(dirs: seq<Direction>)
    requires Rules(Standard, dirs)
    ensures dirs != [] ==> dirs[0] == Right || dirs[0] == Down
    ensures forall i :: 0 < i < |dirs| ==> dirs[i] != Opposite(dirs[i - 1])
    ensures forall i :: 3 <= i < |dirs| ==> !(dirs[i - 3] == dirs[i] && dirs[i - 2] == dirs[i] && dirs[i - 1] == dirs[i])
  {
    forall i | 3 <= i < |dirs| ensures !(dirs[i - 3] == dirs[i] && dirs[i - 2] == dirs[i] && dirs[i - 1] == dirs[i]) {
      assert !RunBefore(dirs, i, 3, dirs[i]);
    }
  }

  /** As written, part 2 lets a walk turn after a single first move: the first run may be shorter than four. */
  lemma UltraTurnsEarly()
    ensures Rules(Ultra, [Right, Down]) && Accepts(Ultra, [Right])
    ensures !Rules(UltraCorrected, [Right, Down]) && !Accepts(UltraCorrected, [Right])
  {
    var dirs := [Right, Down];
    assert RunBefore(dirs, 1, Recent(1), Right);
    assert dirs[1] != dirs[0] && !RunBefore(dirs, 1, MinRun, Right);
  }

  /** The corrected ultra crucible: every run before a turn, and the run at the end, is at least four moves. */
  lemma UltraCorrectedRuns(dirs: seq<Direction>)
    requires Rules(UltraCorrected, dirs)
    ensures forall i :: 0 < i < |dirs| && dirs[i] != dirs[i - 1] ==>
      i >= 4 && dirs[i - 4] == dirs[i - 1] && dirs[i - 3] == dirs[i - 1] && dirs[i - 2] == dirs[i - 1]
    ensures Accepts(UltraCorrected, dirs) ==> |dirs| >= 4 && forall j :: |dirs| - 4 <= j < |dirs| ==> dirs[j] == Last(dirs)
  {
    if dirs != [] {
      WindowRun(dirs, MinRun, Last(dirs));
    }
  }

  // The city.

  /** The parsed input: heat losses by (row, col), `undefined` past a short row, and the two ends. */
  datatype Input = Input(city: Grid.Rows<int>, start: Pos, end: Pos)

  predicate OnGrid(city: Grid.Rows<int>, p: Pos)
  {
    Grid.Lookup(city, p.0, p.1).Some?
  }

  function HeatAt(city: Grid.Rows<int>, p: Pos): int
    requires OnGrid(city, p)
  {
    Grid.Lookup(city, p.0, p.1).value
  }

  /** `block.getNeighborIn(direction)`. */
  function NeighborIn(city: Grid.Rows<int>, p: Pos, d: Direction): (r: Option<Pos>)
    ensures r.Some? <==> OnGrid(city, Step(p, d))
    ensures r.Some? ==> r.value == Step(p, d)
    ensures var q := Step(p, d); !(0 <= q.0 < |city| && 0 <= q.1 < |city[q.0]|) ==> r.None?
  {
    if OnGrid(city, Step(p, d)) then Some(Step(p, d)) else None
  }

  /** The heat lost entering each of `ps`. */
  function HeatAlong(city: Grid.Rows<int>, ps: seq<Pos>): int
    requires AllOnGrid(city, ps)
  {
    if ps == [] then 0 else HeatAlong(city, Init(ps)) + HeatAt(city, Last(ps))
  }

  datatype WalkState = WalkState(blocks: seq<Pos>, directions: seq<Direction>, totalHeatLoss: int)

  predicate Distinct<T(==)>(s: seq<T>)
  {
    forall i, j :: 0 <= i < j < |s| ==> s[i] != s[j]
  }

  /**
   * A walk from the start: one block per move, each a step in that move's direction, all on
   * the grid and none twice, obeying the crucible's rules, with `totalHeatLoss` the heat lost
   * entering every block after the start.
   */
  predicate IsWalk(input: Input, c: Crucible, w: WalkState)
  {
    Chained(w.blocks, w.directions) && w.blocks[0] == input.start
    && AllOnGrid(input.city, w.blocks)
    && Distinct(w.blocks)
    && Rules(c, w.directions)
    && w.totalHeatLoss == HeatAlong(input.city, w.blocks[1..])
  }

  /** One block more than moves, each block a step from the one before in that move's direction. */
  predicate Chained(blocks: seq<Pos>, dirs: seq<Direction>)
  {
    |blocks| == |dirs| + 1 && forall i :: 0 <= i < |dirs| ==> blocks[i + 1] == Step(blocks[i], dirs[i])
  }

  predicate AllOnGrid(city: Grid.Rows<int>, ps: seq<Pos>)
  {
    forall i :: 0 <= i < |ps| ==> OnGrid(city, ps[i])
  }

  lemma ChainedSnoc(blocks: seq<Pos>, dirs: seq<Direction>, d: Direction)
    requires Chained(blocks, dirs)
    ensures Chained(blocks + [Step(Last(blocks), d)], dirs + [d])
  {
    var b, e := blocks + [Step(Last(blocks), d)], dirs + [d];
    forall i | 0 <= i < |e| ensures b[i + 1] == Step(b[i], e[i]) {
      if i < |dirs| {
        assert b[i + 1] == blocks[i + 1] && b[i] == blocks[i] && e[i] == dirs[i];
      }
    }
  }

  lemma OnGridSnoc(city: Grid.Rows<int>, ps: seq<Pos>, n: Pos)
    requires AllOnGrid(city, ps) && OnGrid(city, n)
    ensures AllOnGrid(city, ps + [n])
  {
    forall i | 0 <= i < |ps| + 1 ensures OnGrid(city, (ps + [n])[i]) {
      if i < |ps| {
        assert (ps + [n])[i] == ps[i];
      }
    }
  }

  lemma DistinctSnoc(ps: seq<Pos>, n: Pos)
    requires Distinct(ps) && n !in ps
    ensures Distinct(ps + [n])
  {
    var b := ps + [n];
    forall i, j | 0 <= i < j < |b| ensures b[i] != b[j] {
      assert b[i] == ps[i];
      if j < |ps| {
        assert b[j] == ps[j];
      }
    }
  }

  lemma HeatSnoc(city: Grid.Rows<int>, ps: seq<Pos>, n: Pos)
    requires ps != [] && AllOnGrid(city, ps) && OnGrid(city, n)
    ensures AllOnGrid(city, (ps + [n])[1..])
    ensures HeatAlong(city, (ps + [n])[1..]) == HeatAlong(city, ps[1..]) + HeatAt(city, n)
  {
    var t := (ps + [n])[1..];
    assert t == ps[1..] + [n];
    assert Init(t) == ps[1..] && Last(t) == n;
    OnGridSnoc(city, ps[1..], n);
  }

  /** A walk that ends at the end block in a way that counts. */
  predicate Reaches(input: Input, c: Crucible, w: WalkState)
  {
    IsWalk(input, c, w) && Last(w.blocks) == input.end && Accepts(c, w.directions)
  }

  /** The one-row city `19`: start on the 1, end on the 9. */
  function TwoBlocks(): Input
  {
    Input([[Some(1), Some(9)]], (0, 0), (0, 1))
  }

  /** As written, part 2 counts the single move right onto the end block, losing 9. */
  lemma TwoBlocksAsWritten()
    ensures Reaches(TwoBlocks(), Ultra, WalkState([(0, 0), (0, 1)], [Right], 9))
  {
    var w := WalkState([(0, 0), (0, 1)], [Right], 9);
    assert w.blocks[1..] == [(0, 1)];
    assert Init([(0, 1)]) == [];
  }

  /** As the puzzle states part 2, no walk reaches the end of `19`: it would need four moves over two blocks. */
  lemma TwoBlocksCorrected(w: WalkState)
    ensures !Reaches(TwoBlocks(), UltraCorrected, w)
  {
    if Reaches(TwoBlocks(), UltraCorrected, w) {
      UltraCorrectedRuns(w.directions);
    }
  }

  /** `minHeatLoss`: `Infinity` until a walk reaches the end. */
  datatype Bound = Infinity | Finite(value: int)

  /** `a <= b`. */
  predicate AtMost(a: Bound, b: Bound)
  {
    b.Infinity? || (a.Finite? && a.value <= b.value)
  }

  /** `Math.min(minHeatLoss, total)`. */
  function MinOf(b: Bound, total: int): (r: Bound)
    ensures AtMost(r, b) && AtMost(r, Finite(total)) && (r == b || r == Finite(total))
  {
    if b.Finite? && b.value <= total then b else Finite(total)
  }

  /** `minHeatLoss` is `Infinity` or the heat loss of some walk that reaches the end. */
  ghost predicate Witnessed(input: Input, c: Crucible, min: Bound, best: WalkState)
  {
    min.Finite? ==> Reaches(input, c, best) && best.totalHeatLoss == min.value
  }

  /** The state key: the block and the last `MaxRun` moves. */
  datatype Key = Key(position: Pos, recent: seq<Direction>)

  function KeyOf(c: Crucible, w: WalkState): Key
    requires w.blocks != []
  {
    Key(Last(w.blocks), Window(w.directions, MaxRun(c)))
  }

  /** `bestSeen && bestSeen <= total`: a best of zero is falsy and prunes nothing. */
  predicate Dominated(seen: map<Key, int>, k: Key, total: int)
  {
    k in seen && seen[k] != 0 && seen[k] <= total
  }

  /** The walk one move further, if that move survives the callback's `continue` tests. */
  function Offer(input: Input, c: Crucible, w: WalkState, min: Bound, seen: map<Key, int>, d: Direction): (r: Option<WalkState>)
    requires w.blocks != []
    ensures r.Some? ==> r.value.blocks == w.blocks + [Step(Last(w.blocks), d)] && r.value.directions == w.directions + [d]
    ensures r.Some? ==>
      (OnGrid(input.city, Step(Last(w.blocks), d))
       && r.value.totalHeatLoss == w.totalHeatLoss + HeatAt(input.city, Step(Last(w.blocks), d)))
    ensures r.Some? ==> !Dominated(seen, KeyOf(c, r.value), r.value.totalHeatLoss) && AtMost(Finite(r.value.totalHeatLoss), min)
    ensures r.Some? <==>
      (OnGrid(input.city, Step(Last(w.blocks), d)) && Step(Last(w.blocks), d) !in w.blocks
       && AtMost(Finite(w.totalHeatLoss + HeatAt(input.city, Step(Last(w.blocks), d))), min)
       && !Dominated(seen, Key(Step(Last(w.blocks), d), Window(w.directions + [d], MaxRun(c))),
                     w.totalHeatLoss + HeatAt(input.city, Step(Last(w.blocks), d))))
  {
    match NeighborIn(input.city, Last(w.blocks), d)
    case None => None
    case Some(n) =>
      if n in w.blocks then None
      else if min.Finite? && w.totalHeatLoss + HeatAt(input.city, n) > min.value then None
      else
        var next := WalkState(w.blocks + [n], w.directions + [d], w.totalHeatLoss + HeatAt(input.city, n));
        if Dominated(seen, KeyOf(c, next), next.totalHeatLoss) then None else Some(next)
  }

  /** The callback's loop over `ds`: the walks it enqueues, in order, and the state keys it records. */
  function Expand(input: Input, c: Crucible, w: WalkState, min: Bound, seen: map<Key, int>, ds: seq<Direction>): (seq<WalkState>, map<Key, int>)
    requires w.blocks != []
  {
    if ds == [] then ([], seen)
    else
      var e := Expand(input, c, w, min, seen, Init(ds));
      match Offer(input, c, w, min, e.1, Last(ds))
      case None => e
      case Some(next) => (e.0 + [next], e.1[KeyOf(c, next) := next.totalHeatLoss])
  }

  /** One move further along a walk, by a move `Next` offers, onto a new block, is again a walk. */
  lemma WalkExtends(input: Input, c: Crucible, w: WalkState, d: Direction)
    requires IsWalk(input, c, w) && d in Next(c, w.directions)
    requires OnGrid(input.city, Step(Last(w.blocks), d)) && Step(Last(w.blocks), d) !in w.blocks
    ensures var n := Step(Last(w.blocks), d);
      IsWalk(input, c, WalkState(w.blocks + [n], w.directions + [d], w.totalHeatLoss + HeatAt(input.city, n)))
  {
    var n := Step(Last(w.blocks), d);
    NextExactly(c, w.directions, d);
    RulesSnoc(c, w.directions, d);
    ChainedSnoc(w.blocks, w.directions, d);
    OnGridSnoc(input.city, w.blocks, n);
    DistinctSnoc(w.blocks, n);
    HeatSnoc(input.city, w.blocks, n);
  }

  /** The callback's loop over `ds` with the state keys as they were before it: the walks `Offer` lets through, in order. */
  function Survivors(input: Input, c: Crucible, w: WalkState, min: Bound, seen: map<Key, int>, ds: seq<Direction>): seq<WalkState>
    requires w.blocks != []
  {
    if ds == [] then []
    else
      Survivors(input, c, w, min, seen, Init(ds))
      + match Offer(input, c, w, min, seen, Last(ds)) case None => [] case Some(next) => [next]
  }

  /** `x` is `w` one block further, a walk within the best heat loss so far. */
  predicate Extends(input: Input, c: Crucible, w: WalkState, min: Bound, x: WalkState)
  {
    IsWalk(input, c, x) && AtMost(Finite(x.totalHeatLoss), min)
    && x.blocks != [] && Init(x.blocks) == w.blocks && x.directions != [] && Init(x.directions) == w.directions
  }

  /** A move `Next` offers that survives the tests is a walk one block longer, within the best heat loss, with no better heat loss seen at its key. */
  lemma OfferExtends(input: Input, c: Crucible, w: WalkState, min: Bound, seen: map<Key, int>, d: Direction)
    requires IsWalk(input, c, w) && d in Next(c, w.directions)
    ensures var o := Offer(input, c, w, min, seen, d); o.Some? ==> Grows(input, c, w, min, seen, o.value)
  {
    var o := Offer(input, c, w, min, seen, d);
    if o.Some? {
      var n := Step(Last(w.blocks), d);
      WalkExtends(input, c, w, d);
      var x := WalkState(w.blocks + [n], w.directions + [d], w.totalHeatLoss + HeatAt(input.city, n));
      assert o.value == x;
      GrowsFrom(input, c, w, min, seen, x, n, d);
    }
  }

  /** A walk that is `w` with one more block and move, within the bound and not dominated, grows `w`. */
  lemma GrowsFrom(input: Input, c: Crucible, w: WalkState, min: Bound, seen: map<Key, int>, x: WalkState, n: Pos, d: Direction)
    requires IsWalk(input, c, x) && x.blocks == w.blocks + [n] && x.directions == w.directions + [d]
    requires AtMost(Finite(x.totalHeatLoss), min) && !Dominated(seen, KeyOf(c, x), x.totalHeatLoss)
    ensures Grows(input, c, w, min, seen, x)
  {
    LastInitAppend(w.blocks, [n]);
    LastInitAppend(w.directions, [d]);
  }

  /** `x` extends `w` and no better heat loss was seen at its key. */
  predicate Grows(input: Input, c: Crucible, w: WalkState, min: Bound, seen: map<Key, int>, x: WalkState)
  {
    Extends(input, c, w, min, x) && !Dominated(seen, KeyOf(c, x), x.totalHeatLoss)
  }

  /** Every walk of `s` extends `w` with no better heat loss seen at its key. */
  predicate AllGrow(input: Input, c: Crucible, w: WalkState, min: Bound, seen: map<Key, int>, s: seq<WalkState>)
  {
    forall i :: 0 <= i < |s| ==> Grows(input, c, w, min, seen, s[i])
  }

  /** Every survivor of moves `Next` offers extends the walk. */
  lemma {:induction false} SurvivorsWalk(input: Input, c: Crucible, w: WalkState, min: Bound, seen: map<Key, int>, ds: seq<Direction>)
    requires IsWalk(input, c, w)
    requires forall i :: 0 <= i < |ds| ==> ds[i] in Next(c, w.directions)
    ensures AllGrow(input, c, w, min, seen, Survivors(input, c, w, min, seen, ds))
    decreases |ds|
  {
    if ds != [] {
      var init := Init(ds);
      assert forall i :: 0 <= i < |init| ==> init[i] == ds[i];
      SurvivorsWalk(input, c, w, min, seen, init);
      OfferExtends(input, c, w, min, seen, Last(ds));
      SurvivorsSnoc(input, c, w, min, seen, ds);
      GrowsSnoc(input, c, w, min, seen, Survivors(input, c, w, min, seen, init), Offer(input, c, w, min, seen, Last(ds)));
    }
  }

  /** The survivors of `ds` are those of all but its last move, then the last move's survivor if any. */
  lemma SurvivorsSnoc(input: Input, c: Crucible, w: WalkState, min: Bound, seen: map<Key, int>, ds: seq<Direction>)
    requires w.blocks != [] && ds != []
    ensures Survivors(input, c, w, min, seen, ds) == Survivors(input, c, w, min, seen, Init(ds)) + Keep(Offer(input, c, w, min, seen, Last(ds)))
  {
  }

  /** The survivor a move contributes: none, or the one walk. */
  function Keep(o: Option<WalkState>): seq<WalkState>
  {
    match o
    case None => []
    case Some(next) => [next]
  }

  /** Appending the loop's next survivor, if any, to survivors that all extend the walk keeps them so. */
  lemma GrowsSnoc(input: Input, c: Crucible, w: WalkState, min: Bound, seen: map<Key, int>, s0: seq<WalkState>, o: Option<WalkState>)
    requires AllGrow(input, c, w, min, seen, s0)
    requires o.Some? ==> Grows(input, c, w, min, seen, o.value)
    ensures AllGrow(input, c, w, min, seen, s0 + Keep(o))
  {
    var s := s0 + Keep(o);
    forall i | 0 <= i < |s| ensures Grows(input, c, w, min, seen, s[i]) {
      if i < |s0| {
        assert s[i] == s0[i];
      }
    }
  }

  /** A move's key is only touched by that move: moves in different directions reach different blocks. */
  lemma OfferIgnores(input: Input, c: Crucible, w: WalkState, min: Bound, seen: map<Key, int>, k: Key, v: int, d: Direction)
    requires w.blocks != [] && k.position != Step(Last(w.blocks), d)
    ensures Offer(input, c, w, min, seen[k := v], d) == Offer(input, c, w, min, seen, d)
  {
  }

  /**
   * With no direction twice, the keys the loop records never change its decisions: `Expand`
   * enqueues exactly the survivors against the keys seen before the loop.
   */
  lemma {:induction false} ExpandSurvivors(input: Input, c: Crucible, w: WalkState, min: Bound, seen: map<Key, int>, ds: seq<Direction>)
    requires w.blocks != [] && Distinct(ds)
    ensures Expand(input, c, w, min, seen, ds).0 == Survivors(input, c, w, min, seen, ds)
    decreases |ds|
  {
    if ds != [] {
      var init, d := Init(ds), Last(ds);
      assert forall i, j :: 0 <= i < j < |init| ==> init[i] == ds[i] && init[j] == ds[j];
      ExpandSurvivors(input, c, w, min, seen, init);
      assert d !in init by {
        assert forall i :: 0 <= i < |init| ==> init[i] == ds[i] && ds[i] != ds[|ds| - 1];
      }
      SeenUntouched(input, c, w, min, seen, init, d);
    }
  }

  /** The best-seen map after the loop has handled one move's outcome `o`. */
  function Record(c: Crucible, seen: map<Key, int>, o: Option<WalkState>): map<Key, int>
    requires o.Some? ==> o.value.blocks != []
  {
    match o
    case None => seen
    case Some(next) => seen[KeyOf(c, next) := next.totalHeatLoss]
  }

  /** Recording the outcome of move `e` leaves the decision on a different move `d` as it was. */
  lemma RecordIgnores(input: Input, c: Crucible, w: WalkState, min: Bound, seen: map<Key, int>, e: Direction, d: Direction)
    requires w.blocks != [] && d != e
    ensures Offer(input, c, w, min, Record(c, seen, Offer(input, c, w, min, seen, e)), d) == Offer(input, c, w, min, seen, d)
  {
    var o := Offer(input, c, w, min, seen, e);
    if o.Some? {
      DiffInjective(d, e);
      OfferIgnores(input, c, w, min, seen, KeyOf(c, o.value), o.value.totalHeatLoss, d);
    }
  }

  /** Before move `d`, the loop over `init` has left `d`'s decision as it was. */
  lemma {:induction false} SeenUntouched(input: Input, c: Crucible, w: WalkState, min: Bound, seen: map<Key, int>, init: seq<Direction>, d: Direction)
    requires w.blocks != [] && d !in init
    ensures Offer(input, c, w, min, Expand(input, c, w, min, seen, init).1, d) == Offer(input, c, w, min, seen, d)
    decreases |init|
  {
    if init != [] {
      var prev, e := Init(init), Last(init);
      assert d !in prev && d != e by { assert prev + [e] == init; }
      SeenUntouched(input, c, w, min, seen, prev, d);
      ExpandRecords(input, c, w, min, seen, init);
      RecordIgnores(input, c, w, min, Expand(input, c, w, min, seen, prev).1, e, d);
    }
  }

  /** The loop's last move records its outcome on the map the earlier moves left. */
  lemma ExpandRecords(input: Input, c: Crucible, w: WalkState, min: Bound, seen: map<Key, int>, ds: seq<Direction>)
    requires w.blocks != [] && ds != []
    ensures var before := Expand(input, c, w, min, seen, Init(ds)).1;
      Expand(input, c, w, min, seen, ds).1 == Record(c, before, Offer(input, c, w, min, before, Last(ds)))
  {
  }

  lemma DistinctFour(up: seq<Direction>, down: seq<Direction>, left: seq<Direction>, right: seq<Direction>)
    requires up == [] || up == [Up]
    requires down == [] || down == [Down]
    requires left == [] || left == [Left]
    requires right == [] || right == [Right]
    ensures Distinct(up + down + left + right)
  {
  }

  /** `Next` never offers a direction twice. */
  lemma NextDistinct(c: Crucible, dirs: seq<Direction>)
    ensures Distinct(Next(c, dirs))
  {
    if dirs != [] && !MustGoStraight(c, dirs) {
      TurnsUnrolled(c, dirs);
      DistinctFour(Kept(c, dirs, Up), Kept(c, dirs, Down), Kept(c, dirs, Left), Kept(c, dirs, Right));
    }
  }

  /** `possibleNextDirections`, built as the callback builds it. */
  method PossibleNextDirections(c: Crucible, dirs: seq<Direction>) returns (next: seq<Direction>)
    ensures next == Next(c, dirs)
    ensures forall d :: d in next <==> StepRule(c, dirs, d)
  {
    NextAllExactly(c, dirs);
    if dirs == [] {
      return [Right, Down];
    }
    if MustGoStraight(c, dirs) {
      return [Last(dirs)];
    }
    next := [];
    for i := 0 to |Directions|
      invariant next == TurnsFrom(c, dirs, Directions[..i])
    {
      assert Directions[..i + 1] == Directions[..i] + [Directions[i]];
      if MayTurnTo(c, dirs, Directions[i]) {
        next := next + [Directions[i]];
      }
    }
    assert Directions[..|Directions|] == Directions;
  }

  lemma NextAllExactly(c: Crucible, dirs: seq<Direction>)
    ensures forall d :: d in Next(c, dirs) <==> StepRule(c, dirs, d)
  {
    forall d ensures d in Next(c, dirs) <==> StepRule(c, dirs, d) {
      NextExactly(c, dirs, d);
    }
  }

  /** Every queued item is a walk. */
  ghost predicate AllWalks(input: Input, c: Crucible, queue: seq<WalkState>)
  {
    forall i :: 0 <= i < |queue| ==> IsWalk(input, c, queue[i])
  }

  lemma WalksEnqueued(input: Input, c: Crucible, queue: seq<WalkState>, priorities: seq<int>, added: seq<WalkState>,
                      priority: WalkState -> int, ascending: bool)
    requires AllWalks(input, c, queue) && AllWalks(input, c, added)
    ensures AllWalks(input, c, PQ.EnqueueAll(queue, priorities, added, priority, ascending).0)
  {
    var r := PQ.EnqueueAll(queue, priorities, added, priority, ascending).0;
    PQ.EnqueueAllElements(queue, priorities, added, priority, ascending);
    forall i | 0 <= i < |r| ensures IsWalk(input, c, r[i]) {
      assert r[i] in multiset(r);
      assert r[i] in multiset(queue) || r[i] in multiset(added);
    }
  }

  /** The loop of the callback: enqueue what `Expand` lets through, recording each state key. */
  method Enqueue(input: Input, c: Crucible, w: WalkState, min: Bound, seen0: map<Key, int>, ds: seq<Direction>,
                 queue: PQ.PriorityQueue<WalkState>) returns (seen: map<Key, int>, ghost added: seq<WalkState>)
    requires w.blocks != []
    modifies queue
    ensures (added, seen) == Expand(input, c, w, min, seen0, ds)
    ensures (queue.queue, queue.priorities) == PQ.EnqueueAll(old(queue.queue), old(queue.priorities), added, queue.priority, queue.ascending)
  {
    seen, added := seen0, [];
    ghost var q0, p0 := queue.queue, queue.priorities;
    for i := 0 to |ds|
      invariant (added, seen) == Expand(input, c, w, min, seen0, ds[..i])
      invariant (queue.queue, queue.priorities) == PQ.EnqueueAll(q0, p0, added, queue.priority, queue.ascending)
    {
      assert ds[..i + 1] == ds[..i] + [ds[i]] && Init(ds[..i + 1]) == ds[..i];
      var next := Offer(input, c, w, min, seen, ds[i]);
      if next.Some? {
        PQ.EnqueueAllSnoc(q0, p0, added, next.value, queue.priority, queue.ascending);
        seen := seen[KeyOf(c, next.value) := next.value.totalHeatLoss];
        queue.Enqueue(next.value);
        added := added + [next.value];
      }
    }
    assert ds[..|ds|] == ds;
  }

  /** The `process` callback for one walk. */
  method Visit(input: Input, c: Crucible, w: WalkState, min0: Bound, seen0: map<Key, int>,
               queue: PQ.PriorityQueue<WalkState>, ghost best0: WalkState)
    returns (min: Bound, seen: map<Key, int>, ghost best: WalkState, ghost added: seq<WalkState>)
    requires IsWalk(input, c, w) && Witnessed(input, c, min0, best0)
    requires AllWalks(input, c, queue.queue)
    modifies queue
    ensures Witnessed(input, c, min, best) && AtMost(min, min0)
    ensures AllWalks(input, c, queue.queue)
    ensures Last(w.blocks) == input.end ==>
      added == [] && seen == seen0 && min == if Accepts(c, w.directions) then MinOf(min0, w.totalHeatLoss) else min0
    ensures Last(w.blocks) != input.end ==>
      min == min0 && (added, seen) == Expand(input, c, w, min0, seen0, Next(c, w.directions))
    ensures (queue.queue, queue.priorities) == PQ.EnqueueAll(old(queue.queue), old(queue.priorities), added, queue.priority, queue.ascending)
  {
    var next := PossibleNextDirections(c, w.directions);
    var block := Last(w.blocks);
    if block == input.end {
      min, seen, best, added := min0, seen0, best0, [];
      if Accepts(c, w.directions) {
        min := MinOf(min0, w.totalHeatLoss);
        if min != min0 {
          best := w;
        }
      }
      return;
    }
    min := min0;
    best := best0;
    seen, added := Enqueue(input, c, w, min, seen0, next, queue);
    NextDistinct(c, w.directions);
    ExpandSurvivors(input, c, w, min, seen0, next);
    SurvivorsWalk(input, c, w, min, seen0, next);
    WalksEnqueued(input, c, old(queue.queue), old(queue.priorities), added, queue.priority, queue.ascending);
  }

  /** The walk standing on the start block is a walk, and so the queue holding only it holds walks. */
  lemma FirstQueued(input: Input, c: Crucible, priority: WalkState -> int, ascending: bool)
    requires OnGrid(input.city, input.start)
    ensures AllWalks(input, c, PQ.Enqueued([], [], WalkState([input.start], [], 0), priority, ascending).0)
  {
    var first := WalkState([input.start], [], 0);
    assert first.blocks[1..] == [];
    PQ.EnqueuedElements([], [], first, priority, ascending);
    var q := PQ.Enqueued([], [], first, priority, ascending).0;
    forall i | 0 <= i < |q| ensures IsWalk(input, c, q[i]) {
      assert q[i] in multiset(q);
    }
  }

  /** One round of `process`: pop the last walk and, when it is truthy, run the callback on it. */
  method SearchRound(input: Input, c: Crucible, queue: PQ.PriorityQueue<WalkState>, min0: Bound, seen0: map<Key, int>, ghost best0: WalkState)
    returns (min: Bound, seen: map<Key, int>, ghost best: WalkState)
    requires queue.queue != [] && AllWalks(input, c, queue.queue) && Witnessed(input, c, min0, best0)
    modifies queue
    ensures AllWalks(input, c, queue.queue) && Witnessed(input, c, min, best) && AtMost(min, min0)
  {
    ghost var before := queue.queue;
    var w := queue.Pop();
    assert w == before[|before| - 1];
    assert forall i :: 0 <= i < |queue.queue| ==> queue.queue[i] == before[i];
    min, seen, best := min0, seen0, best0;
    if queue.truthy(w) {
      ghost var added;
      min, seen, best, added := Visit(input, c, w, min, seen, queue, best);
    }
  }

  /**
   * `part1` and `part2`: process the queue from the walk standing on the start block, at most
   * `fuel` pops. `None` when the fuel runs out first; otherwise `minHeatLoss`.
   */
  method Search(input: Input, c: Crucible, fuel: nat) returns (result: Option<Bound>)
    requires OnGrid(input.city, input.start)
    ensures result.Some? && result.value.Finite? ==>
      exists w :: Reaches(input, c, w) && w.totalHeatLoss == result.value.value
  {
    var queue := new PQ.PriorityQueue<WalkState>((w: WalkState) => w.totalHeatLoss, false, (w: WalkState) => true);
    var first := WalkState([input.start], [], 0);
    queue.Enqueue(first);
    FirstQueued(input, c, queue.priority, queue.ascending);
    result := Drain(input, c, queue, fuel);
  }

  /** `process` with `minHeatLoss` from `Infinity`: at most `fuel` rounds; `None` when the queue is not empty by then. */
  method Drain(input: Input, c: Crucible, queue: PQ.PriorityQueue<WalkState>, fuel: nat) returns (result: Option<Bound>)
    requires AllWalks(input, c, queue.queue)
    modifies queue
    ensures result.Some? && result.value.Finite? ==>
      exists w :: Reaches(input, c, w) && w.totalHeatLoss == result.value.value
  {
    var min := Infinity;
    var seen: map<Key, int> := map[];
    ghost var best := WalkState([], [], 0);
    var steps := 0;
    while queue.queue != [] && steps < fuel
      invariant AllWalks(input, c, queue.queue)
      invariant Witnessed(input, c, min, best)
      decreases fuel - steps
    {
      min, seen, best := SearchRound(input, c, queue, min, seen, best);
      steps := steps + 1;
    }
    if queue.queue != [] {
      return None;
    }
    return Some(min);
  }

  /** `part1`: the plain crucible. */
  method Part1(input: Input, fuel: nat) returns (result: Option<Bound>)
    requires OnGrid(input.city, input.start)
    ensures result.Some? && result.value.Finite? ==>
      exists w :: Reaches(input, Standard, w) && w.totalHeatLoss == result.value.value
  {
    result := Search(input, Standard, fuel);
  }

  /** `part2` as written: the ultra crucible whose first run may end the walk early. */
  method Part2(input: Input, fuel: nat) returns (result: Option<Bound>)
    requires OnGrid(input.city, input.start)
    ensures result.Some? && result.value.Finite? ==>
      exists w :: Reaches(input, Ultra, w) && w.totalHeatLoss == result.value.value
  {
    result := Search(input, Ultra, fuel);
  }

  /** `part2` as intended: every run, the first and the last included, is four to ten moves long. */
  method Part2Corrected(input: Input, fuel: nat) returns (result: Option<Bound>)
    requires OnGrid(input.city, input.start)
    ensures result.Some? && result.value.Finite? ==>
      exists w :: Reaches(input, UltraCorrected, w) && w.totalHeatLoss == result.value.value
        && |w.directions| >= MinRun && AllAre(w.directions[|w.directions| - MinRun..], Last(w.directions))
  {
    result := Search(input, UltraCorrected, fuel);
    if result.Some? && result.value.Finite? {
      var w :| Reaches(input, UltraCorrected, w) && w.totalHeatLoss == result.value.value;
      UltraCorrectedRuns(w.directions);
    }
  }

  /** A digit character's value, as `parseInt(input, 10)` reads it. */
  function Digit(ch: char): int
  {
    ch as int - '0' as int
  }

  /** The node `from2DArray` builds for a character: its heat loss. */
  function HeatNode(ch: char, row: int, col: int): int
  {
    Digit(ch)
  }

  predicate AllDigits(lines: seq<string>)
  {
    forall i, j :: 0 <= i < |lines| && 0 <= j < |lines[i]| ==> '0' <= lines[i][j] <= '9'
  }

  /** The grid `from2DArray` builds holds each character's heat loss, and nothing past a row's end. */
  lemma CityCells(data: seq<string>, i: int, j: int)
    ensures Grid.Lookup(Grid.Filled(data, HeatNode, Grid.MaxWidth(data)), i, j)
      == if 0 <= i < |data| && 0 <= j < |data[i]| then Some(Digit(data[i][j])) else None
  {
    var width := Grid.MaxWidth(data);
    var f := Grid.Filled(data, HeatNode, width);
    assert |f| == |data|;
    if 0 <= i < |data| {
      assert |data[i]| <= width;
      assert |f[i]| == width;
      if 0 <= j < width {
        assert f[i][j] == if j < |data[i]| then Some(HeatNode(data[i][j], i, j)) else None;
      }
    }
  }

  /**
   * `parseInput`: the non-empty lines as a grid of heat losses, the start block in the top left
   * corner and the end block in the bottom right one. Fails when the grid is empty, or when the
   * last row is shorter than the widest and so has no bottom right block.
   */
  method ParseInput(lines: seq<string>) returns (r: Result<Input>)
    requires AllDigits(lines)
    ensures var data := Text.NonEmpty(lines);
      r.Failure? <==> data == [] || |Last(data)| < Grid.MaxWidth(data)
    ensures var data := Text.NonEmpty(lines);
      r.Failure? ==> r.error == if data == [] then "Invalid input dimensions" else "No end block"
    ensures var data := Text.NonEmpty(lines);
      r.Success? ==>
        r.value.start == (0, 0) && r.value.end == (|data| - 1, Grid.MaxWidth(data) - 1)
        && OnGrid(r.value.city, r.value.start) && OnGrid(r.value.city, r.value.end)
        && r.value.city == Grid.Filled(data, HeatNode, Grid.MaxWidth(data))
  {
    var data := Text.NonEmpty(lines);
    r := ParseRows(data);
  }

  /** `parseInput` after the empty lines are dropped. */
  method ParseRows(data: seq<string>) returns (r: Result<Input>)
    requires forall i :: 0 <= i < |data| ==> data[i] != ""
    ensures r.Failure? <==> data == [] || |Last(data)| < Grid.MaxWidth(data)
    ensures r.Failure? ==> r.error == if data == [] then "Invalid input dimensions" else "No end block"
    ensures r.Success? ==>
      r.value.start == (0, 0) && r.value.end == (|data| - 1, Grid.MaxWidth(data) - 1)
      && OnGrid(r.value.city, r.value.start) && OnGrid(r.value.city, r.value.end)
      && r.value.city == Grid.Filled(data, HeatNode, Grid.MaxWidth(data))
  {
    var built := BuildCity(data);
    if built.Failure? {
      return Failure(built.error);
    }
    var city := built.value;
    var height, width := |data|, Grid.MaxWidth(data);
    CityCells(data, 0, 0);
    if Grid.Lookup(city, 0, 0).None? {
      assert false;
      return Failure("No start block");
    }
    CityCells(data, height - 1, width - 1);
    if Grid.Lookup(city, height - 1, width - 1).None? {
      return Failure("No end block");
    }
    r := Success(Input(city, (0, 0), (height - 1, width - 1)));
  }

  /** `Grid.from2DArray` with a heat loss per character; `getAt` on the result is `Lookup` on its rows, as the grid starts at row and column 0. */
  method BuildCity(data: seq<string>) returns (r: Result<Grid.Rows<int>>)
    ensures r.Failure? <==> data == [] || Grid.MaxWidth(data) == 0
    ensures r.Failure? ==> r.error == "Invalid input dimensions"
    ensures r.Success? ==> r.value == Grid.Filled(data, HeatNode, Grid.MaxWidth(data))
  {
    var grid := Grid.From2DArray(data, HeatNode, (h: int) => true, (h: int) => "");
    if grid.Failure? {
      return Failure(grid.error);
    }
    r := Success(grid.value.rows);
  }
}
