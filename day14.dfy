/**
 * Day 14: a platform of round rocks 'O', cube rocks '#' and empty ground '.'. Tilting it
 * rolls every round rock as far as it goes in one direction; the load on the north beams
 * counts each round rock by its distance from the south edge.
 */
module Day14 {
  import opened Wrappers
  import Text
  import Grid
  import CycleAwareLooper

  /** The platform: one row per input line, `None` where a short line leaves a cell `undefined`. */
  type Cells = Grid.Rows<char>
  type Pos = (int, int)

  datatype Direction = Up | Down | Left | Right

  /** `DirectionDiff`. */
  function Diff(d: Direction): Pos
  {
    match d
    case Up => (-1, 0)
    case Down => (1, 0)
    case Left => (0, -1)
    case Right => (0, 1)
  }

  function Add(p: Pos, q: Pos): Pos
  {
    (p.0 + q.0, p.1 + q.1)
  }

  /** `getAt`: `undefined` off the platform. */
  function At(cells: Cells, p: Pos): Option<char>
  {
    Grid.Lookup(cells, p.0, p.1)
  }

  predicate Inside(cells: Cells, p: Pos)
  {
    0 <= p.0 < |cells| && 0 <= p.1 < |cells[p.0]|
  }

  /** `hasRoundRock`. */
  predicate HasRoundRock(cells: Cells, p: Pos)
  {
    At(cells, p) == Some('O')
  }

  /** `isEmpty`: a node holding empty ground. */
  predicate IsEmpty(cells: Cells, p: Pos)
  {
    At(cells, p) == Some('.')
  }

  /** Rows of the same lengths. */
  predicate Shaped(a: Cells, b: Cells)
  {
    |a| == |b| && forall r :: 0 <= r < |a| ==> |a[r]| == |b[r]|
  }

  /** The platform with the node at `p` holding `s`. */
  function Put(cells: Cells, p: Pos, s: char): (r: Cells)
    requires Inside(cells, p)
    ensures Shaped(cells, r) && At(r, p) == Some(s)
    ensures forall q :: q != p ==> At(r, q) == At(cells, q)
  {
    cells[p.0 := cells[p.0][p.1 := Some(s)]]
  }

  /** A round rock at `p` can roll one cell towards `d`. */
  predicate CanMove(cells: Cells, p: Pos, d: Direction)
  {
    HasRoundRock(cells, p) && IsEmpty(cells, Add(p, Diff(d)))
  }

  /** `moveRock`: the platform afterwards, and the position of the rock. */
  function Moved(cells: Cells, p: Pos, d: Direction): (Cells, Pos)
  {
    if CanMove(cells, p, d) then
      var q := Add(p, Diff(d));
      (Put(Put(cells, p, '.'), q, 'O'), q)
    else (cells, p)
  }

  /**
   * `moveRock` moves a round rock one cell exactly when the neighbour towards `d` is empty
   * ground: the rock's cell becomes empty, the neighbour holds the rock and nothing else
   * changes; otherwise nothing changes and the rock stays.
   */
  lemma MovedExactly(cells: Cells, p: Pos, d: Direction)
    ensures var (after, q) := Moved(cells, p, d);
      && Shaped(cells, after)
      && (CanMove(cells, p, d) ==> (q == Add(p, Diff(d)) && IsEmpty(after, p) && HasRoundRock(after, q)
        && forall o :: o != p && o != q ==> At(after, o) == At(cells, o)))
      && (!CanMove(cells, p, d) ==> q == p && after == cells)
  {
  }

  /** The distance a rock at `p` could still roll towards `d`, up to the edge. */
  function Rank(cells: Cells, p: Pos, d: Direction): int
  {
    match d
    case Up => p.0
    case Down => |cells| - 1 - p.0
    case Left => p.1
    case Right => (if 0 <= p.0 < |cells| then |cells[p.0]| else 0) - 1 - p.1
  }

  /** How far the listed rocks could still roll in all, summed. */
  function Potential(cells: Cells, rocks: seq<Pos>, d: Direction): int
  {
    if rocks == [] then 0 else Rank(cells, rocks[0], d) + Potential(cells, rocks[1..], d)
  }

  predicate AllInside(cells: Cells, rocks: seq<Pos>)
  {
    forall i :: 0 <= i < |rocks| ==> Inside(cells, rocks[i])
  }

  lemma {:induction false} PotentialNonNegative(cells: Cells, rocks: seq<Pos>, d: Direction)
    requires AllInside(cells, rocks)
    ensures Potential(cells, rocks, d) >= 0
  {
    if rocks != [] {
      PotentialNonNegative(cells, rocks[1..], d);
    }
  }

  lemma {:induction false} PotentialShape(a: Cells, b: Cells, rocks: seq<Pos>, d: Direction)
    requires Shaped(a, b)
    ensures Potential(a, rocks, d) == Potential(b, rocks, d)
  {
    if rocks != [] {
      PotentialShape(a, b, rocks[1..], d);
    }
  }

  /**
   * One pass of the `do` loop of `tilt` over `rocksForLoop`: the platform afterwards, the
   * rocks' new positions in the same order, and whether any rock moved.
   */
  function Pass(cells: Cells, rocks: seq<Pos>, d: Direction): (r: (Cells, seq<Pos>, bool))
    ensures |r.1| == |rocks| && Shaped(cells, r.0)
    decreases |rocks|
  {
    if rocks == [] then (cells, [], false)
    else
      var (moved, q) := Moved(cells, rocks[0], d);
      var (after, rest, changed) := Pass(moved, rocks[1..], d);
      (after, [q] + rest, changed || q != rocks[0])
  }

  /** A move keeps the rock on the platform, one step nearer the edge if it rolled. */
  lemma MoveShrinks(cells: Cells, p: Pos, d: Direction)
    requires Inside(cells, p)
    ensures var (after, q) := Moved(cells, p, d);
      Inside(after, q) && (q != p ==> Rank(after, q, d) == Rank(cells, p, d) - 1)
  {
  }

  /**
   * A pass keeps the rocks on the platform and never raises their potential; a pass that moves
   * a rock lowers it, and one that moves none changes nothing because no listed rock can move.
   */
  lemma {:induction false} PassShrinks(cells: Cells, rocks: seq<Pos>, d: Direction)
    requires AllInside(cells, rocks)
    ensures var (after, moved, changed) := Pass(cells, rocks, d);
      && AllInside(after, moved)
      && (changed ==> Potential(after, moved, d) < Potential(cells, rocks, d))
      && (!changed ==> after == cells && moved == rocks && forall i :: 0 <= i < |rocks| ==> !CanMove(cells, rocks[i], d))
    decreases |rocks|
  {
    if rocks != [] {
      var (m, q) := Moved(cells, rocks[0], d);
      MoveShrinks(cells, rocks[0], d);
      PassShrinks(m, rocks[1..], d);
      var (after, rest, changed) := Pass(m, rocks[1..], d);
      PotentialShape(m, cells, rocks[1..], d);
      PotentialShape(after, m, [q] + rest, d);
      assert AllInside(after, [q] + rest) by {
        assert Shaped(after, m);
      }
      if !(changed || q != rocks[0]) {
        assert forall i :: 1 <= i < |rocks| ==> rocks[i] == rocks[1..][i - 1];
      }
    }
  }

  /** The rest of `tilt` from a list of rocks: passes until one moves no rock. */
  function TiltFrom(cells: Cells, rocks: seq<Pos>, d: Direction): (r: Cells)
    requires AllInside(cells, rocks)
    ensures Shaped(cells, r)
    decreases Potential(cells, rocks, d)
  {
    var (after, moved, changed) := Pass(cells, rocks, d);
    PassShrinks(cells, rocks, d);
    PotentialNonNegative(cells, rocks, d);
    if changed then TiltFrom(after, moved, d) else after
  }

  /** No two entries of `s` are equal. */
  predicate Distinct<T(==)>(s: seq<T>)
  {
    forall i, j :: 0 <= i < j < |s| ==> s[i] != s[j]
  }

  /** `rocks` lists every round rock of the platform exactly once, and nothing else. */
  ghost predicate Matches(cells: Cells, rocks: seq<Pos>)
  {
    && Distinct(rocks)
    && (forall i :: 0 <= i < |rocks| ==> HasRoundRock(cells, rocks[i]))
    && (forall p :: HasRoundRock(cells, p) ==> p in rocks)
  }

  /** A cell as it is with its round rock, if any, taken away. */
  function Ground(x: Option<char>): Option<char>
  {
    if x == Some('O') then Some('.') else x
  }

  /** Only round rocks differ: every cube rock, empty-or-round cell and missing cell is where it was. */
  ghost predicate Keeps(a: Cells, b: Cells)
  {
    Shaped(a, b) && forall p :: Ground(At(a, p)) == Ground(At(b, p))
  }

  /** No round rock has empty ground next to it towards `d`. */
  ghost predicate Settled(cells: Cells, d: Direction)
  {
    forall p :: HasRoundRock(cells, p) ==> !IsEmpty(cells, Add(p, Diff(d)))
  }

  /** Moving one listed rock keeps the list exact and only moves a round rock. */
  lemma MoveKeeps(cells: Cells, rocks: seq<Pos>, i: nat, d: Direction)
    requires Matches(cells, rocks) && i < |rocks|
    ensures var (after, q) := Moved(cells, rocks[i], d);
      Matches(after, rocks[i := q]) && Keeps(cells, after)
  {
    var p := rocks[i];
    var (after, q) := Moved(cells, p, d);
    MovedExactly(cells, p, d);
    if CanMove(cells, p, d) {
      assert q !in rocks;
      var moved := rocks[i := q];
      forall j, k | 0 <= j < k < |moved|
        ensures moved[j] != moved[k]
      {
        if j != i && k != i {
          assert moved[j] == rocks[j] && moved[k] == rocks[k];
        } else if j == i {
          assert moved[k] == rocks[k] && rocks[k] in rocks;
        } else {
          assert moved[j] == rocks[j] && rocks[j] in rocks;
        }
      }
      forall j | 0 <= j < |moved|
        ensures HasRoundRock(after, moved[j])
      {
        if j != i {
          assert rocks[j] != p && rocks[j] in rocks;
        }
      }
      forall o | HasRoundRock(after, o)
        ensures o in moved
      {
        if o != q {
          assert HasRoundRock(cells, o);
          var j :| 0 <= j < |rocks| && rocks[j] == o;
          assert moved[j] == o;
        } else {
          assert moved[i] == q;
        }
      }
    } else {
      assert rocks[i := q] == rocks;
    }
  }

  lemma KeepsTransitive(a: Cells, b: Cells, c: Cells)
    requires Keeps(a, b) && Keeps(b, c)
    ensures Keeps(a, c)
  {
  }

  /**
   * A pass over the entries after `done` keeps the whole list exact and only moves round rocks.
   */
  lemma {:induction false} PassKeeps(cells: Cells, done: seq<Pos>, todo: seq<Pos>, d: Direction)
    requires Matches(cells, done + todo)
    ensures var (after, moved, _) := Pass(cells, todo, d);
      Matches(after, done + moved) && Keeps(cells, after)
    decreases |todo|
  {
    if todo == [] {
      assert done + [] == done;
    } else {
      var (m, q) := Moved(cells, todo[0], d);
      MoveKeeps(cells, done + todo, |done|, d);
      assert (done + todo)[|done|] == todo[0];
      assert (done + todo)[|done| := q] == (done + [q]) + todo[1..];
      PassKeeps(m, done + [q], todo[1..], d);
      var (after, rest, _) := Pass(m, todo[1..], d);
      assert (done + [q]) + rest == done + ([q] + rest);
      KeepsTransitive(cells, m, after);
    }
  }

  /** The passes of `tilt` only move round rocks, and leave no round rock free to roll. */
  lemma {:induction false} TiltFromSpec(cells: Cells, rocks: seq<Pos>, d: Direction)
    requires Matches(cells, rocks)
    requires AllInside(cells, rocks)
    ensures Keeps(cells, TiltFrom(cells, rocks, d)) && Settled(TiltFrom(cells, rocks, d), d)
    ensures exists moved :: |moved| == |rocks| && Matches(TiltFrom(cells, rocks, d), moved)
    decreases Potential(cells, rocks, d)
  {
    var (after, moved, changed) := Pass(cells, rocks, d);
    PassShrinks(cells, rocks, d);
    PotentialNonNegative(cells, rocks, d);
    PassKeeps(cells, [], rocks, d);
    assert [] + rocks == rocks && [] + moved == moved;
    if changed {
      TiltFromSpec(after, moved, d);
      KeepsTransitive(cells, after, TiltFrom(after, moved, d));
    } else {
      forall p | HasRoundRock(cells, p)
        ensures !IsEmpty(cells, Add(p, Diff(d)))
      {
        var i :| 0 <= i < |rocks| && rocks[i] == p;
        assert !CanMove(cells, rocks[i], d);
      }
    }
  }

  /** `getRow(r)`: the positions of row `r`, left to right. */
  function Row(cells: Cells, r: int): (line: seq<Pos>)
    requires 0 <= r < |cells|
    ensures forall p :: p in line <==> p.0 == r && 0 <= p.1 < |cells[r]|
  {
    var line := seq(|cells[r]|, c requires 0 <= c < |cells[r]| => (r, c));
    assert forall p: Pos :: p.0 == r && 0 <= p.1 < |cells[r]| ==> line[p.1] == p;
    line
  }

  /** `getColumn(c)`: the positions of column `c`, top to bottom. */
  function Column(cells: Cells, c: int): (line: seq<Pos>)
    ensures forall p :: p in line <==> p.1 == c && 0 <= p.0 < |cells|
  {
    var line := seq(|cells|, r requires 0 <= r < |cells| => (r, c));
    assert forall p: Pos :: p.1 == c && 0 <= p.0 < |cells| ==> line[p.0] == p;
    line
  }

  /**
   * The rows or columns in the order the `switch` of `tilt` hands them to `addRocks`: rows
   * from the top for `up`, from the bottom for `down`, columns from the left for `left`, from
   * the right for `right`.
   */
  function Lines(cells: Cells, width: nat, d: Direction): seq<seq<Pos>>
  {
    match d
    case Up => seq(|cells|, i requires 0 <= i < |cells| => Row(cells, i))
    case Down => seq(|cells|, i requires 0 <= i < |cells| => Row(cells, |cells| - 1 - i))
    case Left => seq(width, i => Column(cells, i))
    case Right => seq(width, i => Column(cells, width - 1 - i))
  }

  /** The lines joined in order. */
  function Flatten(ls: seq<seq<Pos>>): seq<Pos>
  {
    if ls == [] then [] else ls[0] + Flatten(ls[1..])
  }

  lemma {:induction false} FlattenSnoc(ls: seq<seq<Pos>>, i: nat)
    requires i < |ls|
    ensures Flatten(ls[..i + 1]) == Flatten(ls[..i]) + ls[i]
  {
    if i == 0 {
      assert ls[..1][1..] == [];
    } else {
      assert ls[..i + 1][1..] == ls[1..][..i];
      assert ls[..i][1..] == ls[1..][..i - 1];
      FlattenSnoc(ls[1..], i - 1);
    }
  }

  lemma {:induction false} FlattenIn(ls: seq<seq<Pos>>, x: Pos)
    ensures x in Flatten(ls) <==> exists i :: 0 <= i < |ls| && x in ls[i]
  {
    if ls != [] {
      FlattenIn(ls[1..], x);
      if exists i :: 1 <= i < |ls| && x in ls[i] {
        var i :| 1 <= i < |ls| && x in ls[i];
        assert x in ls[1..][i - 1];
      }
      if exists i :: 0 <= i < |ls| - 1 && x in ls[1..][i] {
        var i :| 0 <= i < |ls| - 1 && x in ls[1..][i];
        assert ls[1..][i] == ls[i + 1];
      }
    }
  }

  /** No position lies on two different lines. */
  predicate Apart(ls: seq<seq<Pos>>)
  {
    forall i, j, x :: 0 <= i < j < |ls| && x in ls[i] ==> x !in ls[j]
  }

  lemma {:induction false} FlattenDistinct(ls: seq<seq<Pos>>)
    requires forall i :: 0 <= i < |ls| ==> Distinct(ls[i])
    requires Apart(ls)
    ensures Distinct(Flatten(ls))
  {
    if ls != [] {
      var rest := ls[1..];
      assert forall i :: 0 <= i < |rest| ==> rest[i] == ls[i + 1];
      FlattenDistinct(rest);
      var a, b := ls[0], Flatten(rest);
      forall i, j | 0 <= i < j < |a + b|
        ensures (a + b)[i] != (a + b)[j]
      {
        if j < |a| {
        } else if i >= |a| {
          assert (a + b)[i] == b[i - |a|] && (a + b)[j] == b[j - |a|];
        } else {
          var x := (a + b)[i];
          assert x in a && (a + b)[j] == b[j - |a|];
          FlattenIn(rest, x);
        }
      }
    }
  }

  /** The lines of every direction hold each position at most once. */
  lemma LinesDistinct(cells: Cells, width: nat, d: Direction)
    ensures forall i :: 0 <= i < |Lines(cells, width, d)| ==> Distinct(Lines(cells, width, d)[i])
    ensures Apart(Lines(cells, width, d))
  {
    var ls := Lines(cells, width, d);
    forall i | 0 <= i < |ls|
      ensures Distinct(ls[i])
    {
      match d
      case Up => assert ls[i] == Row(cells, i);
      case Down => assert ls[i] == Row(cells, |cells| - 1 - i);
      case Left => assert ls[i] == Column(cells, i);
      case Right => assert ls[i] == Column(cells, width - 1 - i);
    }
    forall i, j, x | 0 <= i < j < |ls| && x in ls[i]
      ensures x !in ls[j]
    {
      match d
      case Up => assert ls[i] == Row(cells, i) && ls[j] == Row(cells, j);
      case Down => assert ls[i] == Row(cells, |cells| - 1 - i) && ls[j] == Row(cells, |cells| - 1 - j);
      case Left => assert ls[i] == Column(cells, i) && ls[j] == Column(cells, j);
      case Right => assert ls[i] == Column(cells, width - 1 - i) && ls[j] == Column(cells, width - 1 - j);
    }
  }

  /** The lines of every direction cover the platform, when no row is wider than `width`. */
  lemma LinesCover(cells: Cells, width: nat, d: Direction, p: Pos)
    requires forall r :: 0 <= r < |cells| ==> |cells[r]| <= width
    requires Inside(cells, p)
    ensures p in Flatten(Lines(cells, width, d))
  {
    var ls := Lines(cells, width, d);
    FlattenIn(ls, p);
    match d
    case Up => assert p in ls[p.0];
    case Down =>
      var i := |cells| - 1 - p.0;
      assert ls[i] == Row(cells, p.0);
      assert p in ls[i];
    case Left => assert p in ls[p.1];
    case Right =>
      var i := width - 1 - p.1;
      assert ls[i] == Column(cells, p.1);
      assert p in ls[i];
  }

  /** `addRocks`: the round rocks among `line`, in order. */
  function Round(cells: Cells, line: seq<Pos>): seq<Pos>
  {
    if line == [] then []
    else (if HasRoundRock(cells, line[0]) then [line[0]] else []) + Round(cells, line[1..])
  }

  lemma {:induction false} RoundAppend(cells: Cells, a: seq<Pos>, b: seq<Pos>)
    ensures Round(cells, a + b) == Round(cells, a) + Round(cells, b)
  {
    if a != [] {
      assert (a + b)[0] == a[0] && (a + b)[1..] == a[1..] + b;
      RoundAppend(cells, a[1..], b);
    } else {
      assert a + b == b;
    }
  }

  lemma {:induction false} RoundIn(cells: Cells, line: seq<Pos>, x: Pos)
    ensures x in Round(cells, line) <==> x in line && HasRoundRock(cells, x)
  {
    if line != [] {
      RoundIn(cells, line[1..], x);
      assert x in line <==> x == line[0] || x in line[1..];
    }
  }

  lemma {:induction false} RoundDistinct(cells: Cells, line: seq<Pos>)
    requires Distinct(line)
    ensures Distinct(Round(cells, line))
  {
    if line != [] {
      var rest := line[1..];
      assert Distinct(rest) by {
        assert forall i :: 0 <= i < |rest| ==> rest[i] == line[i + 1];
      }
      RoundDistinct(cells, rest);
      RoundIn(cells, rest, line[0]);
      assert line[0] !in rest by {
        assert forall i :: 0 <= i < |rest| ==> rest[i] == line[i + 1];
      }
      var head := if HasRoundRock(cells, line[0]) then [line[0]] else [];
      var r := Round(cells, rest);
      forall i, j | 0 <= i < j < |head + r|
        ensures (head + r)[i] != (head + r)[j]
      {
        if i >= |head| {
          assert (head + r)[i] == r[i - |head|] && (head + r)[j] == r[j - |head|];
        } else {
          assert (head + r)[j] == r[j - 1] && r[j - 1] in r;
        }
      }
    }
  }

  /** The rocks `tilt` collects before its first pass. */
  function RocksOf(cells: Cells, width: nat, d: Direction): seq<Pos>
  {
    Round(cells, Flatten(Lines(cells, width, d)))
  }

  /** The collected rocks list every round rock of the platform exactly once. */
  lemma RocksOfMatches(cells: Cells, width: nat, d: Direction)
    requires forall r :: 0 <= r < |cells| ==> |cells[r]| <= width
    ensures Matches(cells, RocksOf(cells, width, d)) && AllInside(cells, RocksOf(cells, width, d))
  {
    var ls := Lines(cells, width, d);
    var rocks := RocksOf(cells, width, d);
    LinesDistinct(cells, width, d);
    FlattenDistinct(ls);
    RoundDistinct(cells, Flatten(ls));
    forall i | 0 <= i < |rocks|
      ensures HasRoundRock(cells, rocks[i])
    {
      RoundIn(cells, Flatten(ls), rocks[i]);
    }
    forall p | HasRoundRock(cells, p)
      ensures p in rocks
    {
      LinesCover(cells, width, d, p);
      RoundIn(cells, Flatten(ls), p);
    }
  }

  /** `tilt(d)`: the rocks collected for `d`, then passes until no rock moves. */
  function Tilted(cells: Cells, d: Direction): Cells
  {
    RocksOfMatches(cells, Grid.MaxWidth(cells), d);
    TiltFrom(cells, RocksOf(cells, Grid.MaxWidth(cells), d), d)
  }

  /** The positions of the round rocks. */
  function RockSet(cells: Cells): set<Pos>
  {
    set r, c | 0 <= r < |cells| && 0 <= c < |cells[r]| && cells[r][c] == Some('O') :: (r, c)
  }

  lemma {:induction false} DistinctCard(s: seq<Pos>)
    requires Distinct(s)
    ensures |set x | x in s| == |s|
  {
    if s != [] {
      var rest := s[1..];
      assert Distinct(rest) by {
        assert forall i :: 0 <= i < |rest| ==> rest[i] == s[i + 1];
      }
      DistinctCard(rest);
      assert s[0] !in rest by {
        assert forall i :: 0 <= i < |rest| ==> rest[i] == s[i + 1];
      }
      assert (set x | x in s) == {s[0]} + (set x | x in rest);
    }
  }

  /** An exact list of the round rocks is as long as there are round rocks. */
  lemma MatchesCount(cells: Cells, rocks: seq<Pos>)
    requires Matches(cells, rocks)
    ensures |RockSet(cells)| == |rocks|
  {
    assert RockSet(cells) == set x | x in rocks;
    DistinctCard(rocks);
  }

  /**
   * `tilt` rolls only round rocks (every cube rock, empty-or-round cell and missing cell stays),
   * keeps their number, and leaves none with empty ground next to it towards `d`.
   */
  lemma TiltedSpec(cells: Cells, d: Direction)
    ensures Keeps(cells, Tilted(cells, d))
    ensures Settled(Tilted(cells, d), d)
    ensures |RockSet(Tilted(cells, d))| == |RockSet(cells)|
  {
    var rocks := RocksOf(cells, Grid.MaxWidth(cells), d);
    RocksOfMatches(cells, Grid.MaxWidth(cells), d);
    TiltFromSpec(cells, rocks, d);
    var moved :| |moved| == |rocks| && Matches(Tilted(cells, d), moved);
    MatchesCount(cells, rocks);
    MatchesCount(Tilted(cells, d), moved);
  }

  /** A pass over rocks none of which can roll changes nothing. */
  lemma {:induction false} PassIdle(cells: Cells, rocks: seq<Pos>, d: Direction)
    requires forall i :: 0 <= i < |rocks| ==> !CanMove(cells, rocks[i], d)
    ensures Pass(cells, rocks, d) == (cells, rocks, false)
    decreases |rocks|
  {
    if rocks != [] {
      assert !CanMove(cells, rocks[0], d);
      assert forall i :: 0 <= i < |rocks[1..]| ==> rocks[1..][i] == rocks[i + 1];
      PassIdle(cells, rocks[1..], d);
      assert [rocks[0]] + rocks[1..] == rocks;
    }
  }

  /** Tilting a platform a second time the same way changes nothing. */
  lemma TiltIdempotent(cells: Cells, d: Direction)
    ensures Tilted(Tilted(cells, d), d) == Tilted(cells, d)
  {
    var once := Tilted(cells, d);
    TiltedSpec(cells, d);
    var rocks := RocksOf(once, Grid.MaxWidth(once), d);
    RocksOfMatches(once, Grid.MaxWidth(once), d);
    forall i | 0 <= i < |rocks|
      ensures !CanMove(once, rocks[i], d)
    {
      assert HasRoundRock(once, rocks[i]);
    }
    PassIdle(once, rocks, d);
  }

  /** The callback of `northLoad`'s `reduce` on a platform `height` rows high. */
  function LoadStep(height: int): (int, Option<char>, int, int) -> int
  {
    (acc: int, node: Option<char>, row: int, col: int) => acc + (if node == Some('O') then height - row else 0)
  }

  /** `northLoad`: the `reduce` over every cell in row-major order. */
  function NorthLoadOf(cells: Cells): int
  {
    Grid.FoldCells(LoadStep(|cells|), 0, cells, Grid.Positions(cells))
  }

  /** Each listed rock counted by its distance from below the bottom row. */
  function Load(rocks: seq<Pos>, height: int): int
  {
    if rocks == [] then 0 else height - rocks[0].0 + Load(rocks[1..], height)
  }

  lemma {:induction false} FoldLoad(cells: Cells, acc: int, ps: seq<Pos>)
    ensures Grid.FoldCells(LoadStep(|cells|), acc, cells, ps) == acc + Load(Round(cells, ps), |cells|)
    decreases |ps|
  {
    if ps != [] {
      var next := LoadStep(|cells|)(acc, Grid.Lookup(cells, ps[0].0, ps[0].1), ps[0].0, ps[0].1);
      FoldLoad(cells, next, ps[1..]);
      var head := if HasRoundRock(cells, ps[0]) then [ps[0]] else [];
      LoadAppend(head, Round(cells, ps[1..]), |cells|);
    }
  }

  lemma {:induction false} LoadAppend(a: seq<Pos>, b: seq<Pos>, height: int)
    ensures Load(a + b, height) == Load(a, height) + Load(b, height)
  {
    if a != [] {
      assert (a + b)[0] == a[0] && (a + b)[1..] == a[1..] + b;
      LoadAppend(a[1..], b, height);
    } else {
      assert a + b == b;
    }
  }

  lemma {:induction false} RowFromIsRow(cells: Cells, r: nat, c: nat)
    requires r < |cells| && c <= |cells[r]|
    ensures Grid.RowFrom(cells, r, c) == Row(cells, r)[c..]
    decreases |cells[r]| - c
  {
    if c < |cells[r]| {
      RowFromIsRow(cells, r, c + 1);
    }
  }

  lemma {:induction false} FromIsRows(cells: Cells, width: nat, r: nat)
    requires r <= |cells|
    ensures Grid.From(cells, r) == Flatten(Lines(cells, width, Up)[r..])
    decreases |cells| - r
  {
    var ls := Lines(cells, width, Up);
    if r < |cells| {
      RowFromIsRow(cells, r, 0);
      FromIsRows(cells, width, r + 1);
      assert ls[r..][0] == Row(cells, r) && ls[r..][1..] == ls[r + 1..];
    } else {
      assert ls[r..] == [];
    }
  }

  /** The north load is the sum, over the round rocks once each, of their distance from the south edge. */
  lemma NorthLoadIsLoad(cells: Cells)
    ensures NorthLoadOf(cells) == Load(RocksOf(cells, Grid.MaxWidth(cells), Up), |cells|)
    ensures Matches(cells, RocksOf(cells, Grid.MaxWidth(cells), Up))
  {
    FoldLoad(cells, 0, Grid.Positions(cells));
    FromIsRows(cells, Grid.MaxWidth(cells), 0);
    assert Lines(cells, Grid.MaxWidth(cells), Up)[0..] == Lines(cells, Grid.MaxWidth(cells), Up);
    RocksOfMatches(cells, Grid.MaxWidth(cells), Up);
  }

  /** Every node renders as its symbol; a missing node as the grid's blank `' '`. */
  function Draw(node: Option<char>): string
  {
    if node.Some? then [node.value] else " "
  }

  /** `grid.key` for a grid whose leftmost written column is 0. */
  function Key(cells: Cells): string
  {
    Grid.KeyOf(cells, 0, Draw)
  }

  /** One spin cycle: tilt up, left, down and right. */
  function Spin(cells: Cells): Cells
  {
    Tilted(Tilted(Tilted(Tilted(cells, Up), Left), Down), Right)
  }

  /** The looper's action in `part2`: the platform after one spin cycle, and its key. */
  function SpinAction(cells: Cells): (Cells, string)
  {
    var spun := Spin(cells);
    (spun, Key(spun))
  }

  /** `b` is `a` with only round rocks moved and none lost. */
  ghost predicate Rearranged(a: Cells, b: Cells)
  {
    Keeps(a, b) && |RockSet(b)| == |RockSet(a)|
  }

  /** A spin cycle only moves round rocks and keeps their number. */
  lemma SpinKeeps(cells: Cells, s: Cells)
    requires Rearranged(cells, s)
    ensures Rearranged(cells, SpinAction(s).0)
  {
    var a := Tilted(s, Up);
    var b := Tilted(a, Left);
    var c := Tilted(b, Down);
    TiltedSpec(s, Up);
    TiltedSpec(a, Left);
    TiltedSpec(b, Down);
    TiltedSpec(c, Right);
    KeepsTransitive(cells, s, a);
    KeepsTransitive(cells, a, b);
    KeepsTransitive(cells, b, c);
    KeepsTransitive(cells, c, Spin(s));
  }

  /** However many spin cycles the looper runs, only round rocks have moved and none was lost. */
  lemma IterateRearranges(cells: Cells, l: CycleAwareLooper.Looper<Cells>, i: int, n: int, aim: int)
    requires n - 1 <= aim <= n
    requires l.cycleStart.Some? || CycleAwareLooper.Earlier(l.previous, i)
    requires Rearranged(cells, l.state)
    ensures Rearranged(cells, CycleAwareLooper.Iterate(SpinAction, l, i, n, aim).state)
  {
    var inv := (s: Cells) => Rearranged(cells, s);
    forall s | inv(s)
      ensures inv(SpinAction(s).0)
    {
      SpinKeeps(cells, s);
    }
    CycleAwareLooper.IterateKeeps(SpinAction, inv, l, i, n, aim);
  }

  /** Every cell holds a platform symbol or is missing. */
  ghost predicate Symbols(cells: Cells)
  {
    forall r, c :: 0 <= r < |cells| && 0 <= c < |cells[r]| ==> cells[r][c] in {None, Some('.'), Some('#'), Some('O')}
  }

  /** On platforms of one shape, the key tells them apart: equal keys mean equal platforms. */
  lemma KeyIdentifies(a: Cells, b: Cells)
    requires Shaped(a, b) && Symbols(a) && Symbols(b)
    ensures Key(a) == Key(b) <==> a == b
  {
    assert Grid.SameShape(a, b);
    Grid.KeyIdentifiesRenderings(a, b, 0, Draw);
    if Key(a) == Key(b) {
      forall r | 0 <= r < |a|
        ensures a[r] == b[r]
      {
        forall c | 0 <= c < |a[r]|
          ensures a[r][c] == b[r][c]
        {
          assert Draw(a[r][c]) == Draw(b[r][c]);
        }
      }
    }
  }

  /** `b` keeps the symbols of `a` wherever they are not round rocks or empty ground. */
  lemma KeepsSymbols(a: Cells, b: Cells)
    requires Keeps(a, b) && Symbols(a)
    ensures Symbols(b)
  {
    forall r, c | 0 <= r < |b| && 0 <= c < |b[r]|
      ensures b[r][c] in {None, Some('.'), Some('#'), Some('O')}
    {
      assert Ground(At(a, (r, c))) == Ground(At(b, (r, c)));
    }
  }

  /** Rows of exactly `width` cells, `height` of them, and at least one of each. */
  lemma {:induction false} MaxWidthOfRectangle(cells: Cells, width: nat)
    requires |cells| >= 1 && forall r :: 0 <= r < |cells| ==> |cells[r]| == width
    ensures Grid.MaxWidth(cells) == width
  {
  }

  /** A pass over the remaining rocks, after `done` and `changed` from the rocks before them. */
  function Resumed(done: seq<Pos>, changed: bool, r: (Cells, seq<Pos>, bool)): (Cells, seq<Pos>, bool)
  {
    (r.0, done + r.1, changed || r.2)
  }

  /** The platform the looper of `part2` ends on after 1e9 spin cycles, its skip aimed at the last one. */
  function Spun(start: Cells): Cells
  {
    CycleAwareLooper.Iterate(SpinAction, CycleAwareLooper.Looper(start, map[], None, None, 0), 0, 1000000000, 999999999).state
  }

  /** The platform the looper of `part2` ends on has only had its round rocks moved. */
  lemma SpinsRearrange(start: Cells)
    ensures Rearranged(start, Spun(start))
  {
    assert Keeps(start, start);
    IterateRearranges(start, CycleAwareLooper.Looper(start, map[], None, None, 0), 0, 1000000000, 999999999);
  }

  /** The platform the looper ends on keeps the start's rows and row lengths. */
  lemma SpunShaped(start: Cells, width: nat, height: nat)
    requires |start| == height && forall r :: 0 <= r < height ==> |start[r]| == width
    ensures Rearranged(start, Spun(start))
    ensures |Spun(start)| == height && forall r :: 0 <= r < height ==> |Spun(start)[r]| == width
  {
    SpinsRearrange(start);
  }

  /** The looper of `part2`, built and run on `start`. */
  method RunSpins(start: Cells) returns (final: Cells)
    ensures final == Spun(start)
  {
    var looper := new CycleAwareLooper.CycleAwareLooper(1000000000, SpinAction);
    var calls;
    final, calls := looper.RunCorrected(start);
  }

  /** `RockGrid`: the platform's cells, updated in place by rolling rocks. */
  class RockGrid {
    var cells: Cells
    const width: nat
    const height: nat

    ghost predicate Valid()
      reads this
    {
      height >= 1 && width >= 1 && |cells| == height && (forall r :: 0 <= r < height ==> |cells[r]| == width)
    }

    /** A grid of `height` rows of `width` missing cells, as `new RockGrid` with bounds from 0. */
    constructor (width: nat, height: nat)
      requires width >= 1 && height >= 1
      ensures Valid() && this.width == width && this.height == height
      ensures forall r, c :: 0 <= r < height && 0 <= c < width ==> cells[r][c] == None
    {
      cells := seq(height, r => seq(width, c => None));
      this.width, this.height := width, height;
    }

    /** `setAt` of a node holding `s`. */
    method SetAt(row: nat, col: nat, s: char)
      requires Valid() && row < height && col < width
      modifies this
      ensures Valid() && cells == Put(old(cells), (row, col), s)
    {
      cells := Put(cells, (row, col), s);
    }

    /** `moveRock`: rolls the rock at `p` one cell towards `d` if it can; returns where it is. */
    method MoveRock(p: Pos, d: Direction) returns (q: Pos)
      requires Valid()
      modifies this
      ensures Valid() && (cells, q) == Moved(old(cells), p, d)
    {
      if !HasRoundRock(cells, p) {
        return p;
      }
      var neighbour := Add(p, Diff(d));
      if !IsEmpty(cells, neighbour) {
        return p;
      }
      cells := Put(cells, p, '.');
      cells := Put(cells, neighbour, 'O');
      q := neighbour;
    }

    /** `addRocks`: appends the round rocks of `line`, in order. */
    method AddRocks(line: seq<Pos>, rocks: seq<Pos>) returns (more: seq<Pos>)
      ensures more == rocks + Round(cells, line)
    {
      more := rocks;
      for i := 0 to |line|
        invariant more == rocks + Round(cells, line[..i])
      {
        assert line[..i + 1] == line[..i] + [line[i]];
        RoundAppend(cells, line[..i], [line[i]]);
        if HasRoundRock(cells, line[i]) {
          more := more + [line[i]];
        }
      }
      assert line[..|line|] == line;
    }

    /** The `switch` of `tilt`: the round rocks line by line in the order `d` calls for. */
    method CollectRocks(d: Direction) returns (rocks: seq<Pos>)
      ensures rocks == RocksOf(cells, width, d)
    {
      var lines := Lines(cells, width, d);
      rocks := [];
      for i := 0 to |lines|
        invariant rocks == Round(cells, Flatten(lines[..i]))
      {
        FlattenSnoc(lines, i);
        RoundAppend(cells, Flatten(lines[..i]), lines[i]);
        rocks := AddRocks(lines[i], rocks);
      }
      assert lines[..|lines|] == lines;
    }

    /** One pass of the `do` loop: every rock of `rocksForLoop` moved once, in order. */
    method RunPass(rocksForLoop: seq<Pos>, d: Direction) returns (rocks: seq<Pos>, changed: bool)
      requires Valid()
      modifies this
      ensures Valid() && (cells, rocks, changed) == Pass(old(cells), rocksForLoop, d)
    {
      ghost var whole := Pass(cells, rocksForLoop, d);
      changed := false;
      rocks := [];
      assert rocksForLoop[0..] == rocksForLoop;
      assert [] + whole.1 == whole.1;
      for i := 0 to |rocksForLoop|
        invariant Valid()
        invariant whole == Resumed(rocks, changed, Pass(cells, rocksForLoop[i..], d))
      {
        assert rocksForLoop[i..][0] == rocksForLoop[i] && rocksForLoop[i..][1..] == rocksForLoop[i + 1..];
        var rock := rocksForLoop[i];
        var updated := MoveRock(rock, d);
        changed := changed || updated != rock;
        ghost var before := rocks;
        rocks := rocks + [updated];
        assert rocks + Pass(cells, rocksForLoop[i + 1..], d).1 == before + ([updated] + Pass(cells, rocksForLoop[i + 1..], d).1);
      }
      assert rocksForLoop[|rocksForLoop|..] == [];
      assert rocks + [] == rocks;
    }

    /** `tilt`: collects the rocks for `d`, then passes over them until none moves. */
    method Tilt(d: Direction)
      requires Valid()
      modifies this
      ensures Valid() && cells == Tilted(old(cells), d)
    {
      MaxWidthOfRectangle(cells, width);
      RocksOfMatches(cells, width, d);
      ghost var goal := Tilted(cells, d);
      var rocks := CollectRocks(d);
      var changed := true;
      while changed
        invariant Valid() && AllInside(cells, rocks)
        invariant changed ==> TiltFrom(cells, rocks, d) == goal
        invariant !changed ==> cells == goal
        decreases if changed then Potential(cells, rocks, d) + 1 else 0
      {
        PassShrinks(cells, rocks, d);
        PotentialNonNegative(cells, rocks, d);
        rocks, changed := RunPass(rocks, d);
        PotentialNonNegative(cells, rocks, d);
      }
    }

    /** `northLoad`. */
    function NorthLoad(): (load: int)
      requires Valid()
      reads this
      ensures load == Load(RocksOf(cells, width, Up), height)
    {
      MaxWidthOfRectangle(cells, width);
      NorthLoadIsLoad(cells);
      NorthLoadOf(cells)
    }

    /** The action of `part2`'s looper: one spin cycle, then `grid.key`. */
    method SpinCycle() returns (key: string)
      requires Valid()
      modifies this
      ensures Valid() && (cells, key) == SpinAction(old(cells))
    {
      Tilt(Up);
      Tilt(Left);
      Tilt(Down);
      Tilt(Right);
      key := Key(cells);
    }

    /** `part1`: tilt north, then the north load. */
    method Part1() returns (load: int)
      requires Valid()
      modifies this
      ensures Valid() && cells == Tilted(old(cells), Up)
      ensures load == Load(RocksOf(cells, width, Up), height)
    {
      Tilt(Up);
      load := NorthLoad();
    }

    /**
     * `part2`: a looper over 1e9 spin cycles, skipping ahead once a platform repeats, then
     * the north load of the platform it ends on.
     */
    method Part2() returns (load: int)
      requires Valid()
      modifies this
      ensures Valid() && Rearranged(old(cells), cells)
      ensures cells == Spun(old(cells))
      ensures load == Load(RocksOf(cells, width, Up), height)
    {
      var start := cells;
      var final := RunSpins(start);
      SpunShaped(start, width, height);
      cells := final;
      load := NorthLoad();
    }
  }

  /** The symbols a `Node` accepts. */
  predicate IsSymbol(ch: char)
  {
    ch == '.' || ch == '#' || ch == 'O'
  }

  predicate AllSymbols(rows: seq<string>)
  {
    forall r, c :: 0 <= r < |rows| && 0 <= c < |rows[r]| ==> IsSymbol(rows[r][c])
  }

  /** Rows of `width` cells, each holding its line's character or missing beyond the line's end. */
  function Filled(rows: seq<string>, width: nat): Cells
  {
    seq(|rows|, r requires 0 <= r < |rows| => seq(width, c requires 0 <= c < width => if c < |rows[r]| then Some(rows[r][c]) else None))
  }

  /** `parseInput`: the platform, or the error `parseInput` throws. */
  function Board(lines: seq<string>): (r: Result<Cells>)
    ensures r.Success? <==> Text.NonEmpty(lines) != [] && AllSymbols(Text.NonEmpty(lines))
    ensures r.Failure? ==> r.error == (if Text.NonEmpty(lines) == [] then "Invalid input dimensions" else "Invalid initial value")
  {
    var rows := Text.NonEmpty(lines);
    var width := Grid.MaxWidth(rows);
    if width == 0 || |rows| == 0 then Failure("Invalid input dimensions")
    else if !AllSymbols(rows) then Failure("Invalid initial value")
    else Success(Filled(rows, width))
  }

  /** `Filled` keeps each line's characters and pads it with missing cells to `width`. */
  lemma FilledSpec(rows: seq<string>, width: nat)
    requires forall r :: 0 <= r < |rows| ==> |rows[r]| <= width
    ensures var cells := Filled(rows, width);
      && |cells| == |rows| && (forall r :: 0 <= r < |cells| ==> |cells[r]| == width)
      && (forall r, c :: 0 <= r < |rows| && 0 <= c < |rows[r]| ==> At(cells, (r, c)) == Some(rows[r][c]))
      && (forall r, c :: 0 <= r < |rows| && |rows[r]| <= c < width ==> At(cells, (r, c)) == None)
  {
  }

  lemma FilledSymbols(rows: seq<string>, width: nat)
    requires AllSymbols(rows)
    ensures Symbols(Filled(rows, width))
  {
  }

  /**
   * A parsed platform is as wide as its longest line, every row that wide; each cell holds its
   * line's symbol, and cells beyond a short line are missing.
   */
  lemma BoardSpec(lines: seq<string>)
    requires Board(lines).Success?
    ensures var rows, cells := Text.NonEmpty(lines), Board(lines).value;
      && |cells| == |rows| >= 1 && Grid.MaxWidth(cells) == Grid.MaxWidth(rows) >= 1
      && (forall r :: 0 <= r < |cells| ==> |cells[r]| == Grid.MaxWidth(rows))
      && (forall r, c :: 0 <= r < |rows| && 0 <= c < |rows[r]| ==> At(cells, (r, c)) == Some(rows[r][c]))
      && (forall r, c :: 0 <= r < |rows| && |rows[r]| <= c < Grid.MaxWidth(rows) ==> At(cells, (r, c)) == None)
      && Symbols(cells)
  {
    var rows := Text.NonEmpty(lines);
    var width := Grid.MaxWidth(rows);
    FilledSpec(rows, width);
    FilledSymbols(rows, width);
    MaxWidthOfRectangle(Filled(rows, width), width);
  }

  /** `parseInput`: the grid built by `setAt` cell by cell, or the error it throws. */
  method ParseInput(lines: seq<string>) returns (r: Result<RockGrid>)
    ensures r.Success? <==> Board(lines).Success?
    ensures r.Failure? ==> r.error == Board(lines).error
    ensures r.Success? ==> fresh(r.value) && r.value.Valid() && r.value.cells == Board(lines).value
  {
    var rows := Text.NonEmpty(lines);
    var width := Grid.MaxWidth(rows);
    var height := |rows|;
    if width == 0 || height == 0 {
      return Failure("Invalid input dimensions");
    }
    var grid := new RockGrid(width, height);
    for i := 0 to height
      invariant grid.Valid() && grid.width == width && grid.height == height
      invariant forall r, c :: 0 <= r < i && 0 <= c < |rows[r]| ==> IsSymbol(rows[r][c])
      invariant forall r, c :: 0 <= r < height && 0 <= c < width ==>
        grid.cells[r][c] == (if r < i && c < |rows[r]| then Some(rows[r][c]) else None)
    {
      for j := 0 to |rows[i]|
        invariant grid.Valid() && grid.width == width && grid.height == height
        invariant forall r, c :: 0 <= r < i && 0 <= c < |rows[r]| ==> IsSymbol(rows[r][c])
        invariant forall c :: 0 <= c < j ==> IsSymbol(rows[i][c])
        invariant forall r, c :: 0 <= r < height && 0 <= c < width ==>
          grid.cells[r][c] == (if (r < i || (r == i && c < j)) && c < |rows[r]| then Some(rows[r][c]) else None)
      {
        if !IsSymbol(rows[i][j]) {
          return Failure("Invalid initial value");
        }
        grid.SetAt(i, j, rows[i][j]);
      }
    }
    assert grid.cells == Filled(rows, width) by {
      forall r | 0 <= r < height
        ensures grid.cells[r] == Filled(rows, width)[r]
      {
      }
    }
    r := Success(grid);
  }
}
