/**
 * Day 2: games of cubes drawn from a bag. Each round of a game reveals some red, green and
 * blue cubes; the input is taken as already split into games, rounds and `(count, colour)`
 * groups.
 */
module Day02 {
  import opened Wrappers
  import Arithmetic

  datatype Color = Red | Green | Blue

  /** `isColor`: exactly the three colour names. */
  function ParseColor(s: string): (r: Option<Color>)
    ensures r.Some? <==> s in {"red", "green", "blue"}
    ensures r == Some(Red) <==> s == "red"
    ensures r == Some(Green) <==> s == "green"
    ensures r == Some(Blue) <==> s == "blue"
  {
    if s == "red" then Some(Red) else if s == "green" then Some(Green) else if s == "blue" then Some(Blue) else None
  }

  datatype ColorCount = ColorCount(red: int, green: int, blue: int)
  {
    function Get(c: Color): int
    {
      match c
      case Red => red
      case Green => green
      case Blue => blue
    }
  }

  /** `newColorCount`: 0 for every colour, overridden by the supplied counts. */
  function NewColorCount(counts: map<Color, int>): (r: ColorCount)
    ensures forall c :: r.Get(c) == if c in counts then counts[c] else 0
  {
    ColorCount(if Red in counts then counts[Red] else 0,
               if Green in counts then counts[Green] else 0,
               if Blue in counts then counts[Blue] else 0)
  }

  /** `Object.fromEntries`: later groups of the same colour override earlier ones. */
  function FromEntries(groups: seq<(Color, int)>): (m: map<Color, int>)
    ensures forall c :: c in m <==> exists i :: 0 <= i < |groups| && groups[i].0 == c
    ensures forall i :: 0 <= i < |groups| && (forall j :: i < j < |groups| ==> groups[j].0 != groups[i].0) ==> m[groups[i].0] == groups[i].1
    decreases |groups|
  {
    if groups == [] then map[]
    else
      var rest := FromEntries(groups[1..]);
      FromEntriesStep(groups, rest);
      map[groups[0].0 := groups[0].1] + rest
  }

  lemma FromEntriesStep(groups: seq<(Color, int)>, rest: map<Color, int>)
    requires groups != []
    requires forall c :: c in rest <==> exists i :: 0 <= i < |groups[1..]| && groups[1..][i].0 == c
    requires forall i :: 0 <= i < |groups[1..]| && (forall j :: i < j < |groups[1..]| ==> groups[1..][j].0 != groups[1..][i].0) ==> rest[groups[1..][i].0] == groups[1..][i].1
    ensures var m := map[groups[0].0 := groups[0].1] + rest;
      (forall c :: c in m <==> exists i :: 0 <= i < |groups| && groups[i].0 == c)
      && forall i :: 0 <= i < |groups| && (forall j :: i < j < |groups| ==> groups[j].0 != groups[i].0) ==> m[groups[i].0] == groups[i].1
  {
    var m := map[groups[0].0 := groups[0].1] + rest;
    forall c | exists i :: 0 <= i < |groups| && groups[i].0 == c
      ensures c in m
    {
      var i :| 0 <= i < |groups| && groups[i].0 == c;
      if i > 0 {
        assert groups[1..][i - 1].0 == c;
      }
    }
    forall c | c in rest
      ensures exists i :: 0 <= i < |groups| && groups[i].0 == c
    {
      var i :| 0 <= i < |groups[1..]| && groups[1..][i].0 == c;
      assert groups[i + 1].0 == c;
    }
    forall i | 0 <= i < |groups| && (forall j :: i < j < |groups| ==> groups[j].0 != groups[i].0)
      ensures m[groups[i].0] == groups[i].1
    {
      if i == 0 {
        forall k | 0 <= k < |groups[1..]|
          ensures groups[1..][k].0 != groups[0].0
        {
          assert groups[1..][k] == groups[k + 1];
        }
      } else {
        assert groups[1..][i - 1] == groups[i];
        forall j | i - 1 < j < |groups[1..]|
          ensures groups[1..][j].0 != groups[1..][i - 1].0
        {
          assert groups[1..][j] == groups[j + 1];
        }
      }
    }
  }

  /** The groups of one round with their colours checked: the first unknown colour is an error. */
  function ParseGroups(groups: seq<(int, string)>): (r: Result<seq<(Color, int)>>)
    ensures r.Failure? <==> exists i :: 0 <= i < |groups| && ParseColor(groups[i].1).None?
    ensures r.Success? ==>
      |r.value| == |groups|
      && forall i :: 0 <= i < |groups| ==> r.value[i] == (ParseColor(groups[i].1).value, groups[i].0)
    decreases |groups|
  {
    if groups == [] then Success([])
    else
      var c := ParseColor(groups[0].1);
      if c.None? then Failure("Invalid color: " + groups[0].1)
      else
        var rest := ParseGroups(groups[1..]);
        if rest.Failure? then
          assert exists i :: 0 <= i < |groups| && ParseColor(groups[i].1).None? by {
            var i :| 0 <= i < |groups[1..]| && ParseColor(groups[1..][i].1).None?;
            assert groups[i + 1] == groups[1..][i];
          }
          rest
        else
          assert forall i :: 1 <= i < |groups| ==> groups[i] == groups[1..][i - 1];
          Success([(c.value, groups[0].0)] + rest.value)
  }

  function ParseRound(groups: seq<(int, string)>): Result<ColorCount>
  {
    var parsed := ParseGroups(groups);
    if parsed.Failure? then Failure(parsed.error) else Success(NewColorCount(FromEntries(parsed.value)))
  }

  datatype Game = Game(id: int, rounds: seq<ColorCount>)

  /** The rounds of a game, each parsed in turn; the first failure is the game's. */
  function ParseRounds(rounds: seq<seq<(int, string)>>): (r: Result<seq<ColorCount>>)
    ensures r.Failure? <==> exists i :: 0 <= i < |rounds| && ParseRound(rounds[i]).Failure?
    ensures r.Success? ==> |r.value| == |rounds| && forall i :: 0 <= i < |rounds| ==> Success(r.value[i]) == ParseRound(rounds[i])
    decreases |rounds|
  {
    if rounds == [] then Success([])
    else
      var first := ParseRound(rounds[0]);
      var rest := ParseRounds(rounds[1..]);
      ParseRoundsStep(rounds, rest);
      if first.Failure? then Failure(first.error)
      else if rest.Failure? then Failure(rest.error)
      else Success([first.value] + rest.value)
  }

  lemma ParseRoundsStep(rounds: seq<seq<(int, string)>>, rest: Result<seq<ColorCount>>)
    requires rounds != []
    requires rest.Failure? <==> exists i :: 0 <= i < |rounds[1..]| && ParseRound(rounds[1..][i]).Failure?
    requires rest.Success? ==> |rest.value| == |rounds[1..]| && forall i :: 0 <= i < |rounds[1..]| ==> Success(rest.value[i]) == ParseRound(rounds[1..][i])
    ensures (exists i :: 0 <= i < |rounds| && ParseRound(rounds[i]).Failure?)
      <==> ParseRound(rounds[0]).Failure? || rest.Failure?
    ensures rest.Success? && ParseRound(rounds[0]).Success? ==>
      forall i :: 0 <= i < |rounds| ==> Success(([ParseRound(rounds[0]).value] + rest.value)[i]) == ParseRound(rounds[i])
  {
    assert forall i :: 1 <= i < |rounds| ==> rounds[i] == rounds[1..][i - 1];
  }

  /**
   * A parsed game line. The round list comes from splitting on `"; "`, which always yields at
   * least one round, so a parsed game has a round.
   */
  function ParseGame(id: int, firstRound: seq<(int, string)>, moreRounds: seq<seq<(int, string)>>): (r: Result<Game>)
    ensures r.Success? ==> r.value.id == id && |r.value.rounds| == 1 + |moreRounds|
    ensures r.Failure? <==> ParseRounds([firstRound] + moreRounds).Failure?
  {
    var rounds := ParseRounds([firstRound] + moreRounds);
    if rounds.Failure? then Failure(rounds.error) else Success(Game(id, rounds.value))
  }

  /** The bag for part 1. */
  function Bag(): (r: ColorCount)
    ensures r == ColorCount(12, 13, 14)
  {
    NewColorCount(map[Red := 12, Green := 13, Blue := 14])
  }

  /** `colors.every((color) => game.rounds.every((round) => round[color] <= bagContents[color]))`. */
  predicate Possible(game: Game)
  {
    forall c: Color :: forall i :: 0 <= i < |game.rounds| ==> game.rounds[i].Get(c) <= Bag().Get(c)
  }

  /** Possible exactly when no round shows more than 12 red, 13 green or 14 blue cubes. */
  lemma PossibleIff(game: Game)
    ensures Possible(game) <==> forall i :: 0 <= i < |game.rounds| ==>
      game.rounds[i].red <= 12 && game.rounds[i].green <= 13 && game.rounds[i].blue <= 14
  {
    if Possible(game) {
      forall i | 0 <= i < |game.rounds|
        ensures game.rounds[i].red <= 12 && game.rounds[i].green <= 13 && game.rounds[i].blue <= 14
      {
        assert game.rounds[i].Get(Red) <= Bag().Get(Red);
        assert game.rounds[i].Get(Green) <= Bag().Get(Green);
        assert game.rounds[i].Get(Blue) <= Bag().Get(Blue);
      }
    }
  }

  /** The ids of the possible games, in order. */
  function PossibleIds(games: seq<Game>): (r: seq<int>)
    ensures |r| <= |games|
    ensures forall x :: x in r ==> exists g :: g in games && Possible(g) && g.id == x
    decreases |games|
  {
    if games == [] then []
    else (if Possible(games[0]) then [games[0].id] else []) + PossibleIds(games[1..])
  }

  /** `part1`: the sum of the ids of the possible games. */
  function Part1(games: seq<Game>): int
  {
    Arithmetic.Sum(PossibleIds(games))
  }

  lemma {:induction false} PossibleIdsAppend(a: seq<Game>, b: seq<Game>)
    ensures PossibleIds(a + b) == PossibleIds(a) + PossibleIds(b)
    decreases |a|
  {
    if a == [] {
      assert a + b == b;
    } else {
      assert (a + b)[1..] == a[1..] + b;
      PossibleIdsAppend(a[1..], b);
    }
  }

  /** Part 1 adds up game by game: a possible game adds its id and an impossible one adds nothing. */
  lemma Part1Step(games: seq<Game>, g: Game)
    ensures Part1(games + [g]) == Part1(games) + if Possible(g) then g.id else 0
  {
    PossibleIdsAppend(games, [g]);
    Arithmetic.SumAppend(PossibleIds(games), PossibleIds([g]));
    assert PossibleIds([g]) == (if Possible(g) then [g.id] else []) + PossibleIds([]);
    if Possible(g) {
      assert Arithmetic.Sum([g.id]) == Arithmetic.Sum([]) + g.id;
    }
  }

  /** `Math.max(...game.rounds.map((round) => round[color]))` for a game with rounds. */
  function MaxSeen(rounds: seq<ColorCount>, c: Color): (m: int)
    requires |rounds| >= 1
    ensures forall i :: 0 <= i < |rounds| ==> rounds[i].Get(c) <= m
    ensures exists i :: 0 <= i < |rounds| && rounds[i].Get(c) == m
    decreases |rounds|
  {
    if |rounds| == 1 then rounds[0].Get(c)
    else
      var rest := MaxSeen(rounds[1..], c);
      assert forall i :: 1 <= i < |rounds| ==> rounds[i] == rounds[1..][i - 1];
      if rounds[0].Get(c) > rest then rounds[0].Get(c) else rest
  }

  /**
   * The fewest cubes of each colour the game could have been played with: the least counts
   * that make it possible from such a bag.
   */
  function Minimums(game: Game): (r: ColorCount)
    requires |game.rounds| >= 1
    ensures forall c: Color, i :: 0 <= i < |game.rounds| ==> game.rounds[i].Get(c) <= r.Get(c)
    ensures forall c: Color :: exists i :: 0 <= i < |game.rounds| && game.rounds[i].Get(c) == r.Get(c)
  {
    var r := ColorCount(MaxSeen(game.rounds, Red), MaxSeen(game.rounds, Green), MaxSeen(game.rounds, Blue));
    assert forall c: Color :: r.Get(c) == MaxSeen(game.rounds, c);
    r
  }

  /** No smaller bag works: any bag every round fits in holds at least the minimums. */
  lemma MinimumsLeast(game: Game, bag: ColorCount)
    requires |game.rounds| >= 1
    requires forall c: Color, i :: 0 <= i < |game.rounds| ==> game.rounds[i].Get(c) <= bag.Get(c)
    ensures forall c: Color :: Minimums(game).Get(c) <= bag.Get(c)
  {
    forall c: Color
      ensures Minimums(game).Get(c) <= bag.Get(c)
    {
      var i :| 0 <= i < |game.rounds| && game.rounds[i].Get(c) == Minimums(game).Get(c);
    }
  }

  /** The "power" of a game: the product of its minimums, red, green then blue. */
  function Power(game: Game): int
    requires |game.rounds| >= 1
  {
    var m := Minimums(game);
    Arithmetic.Product([m.red, m.green, m.blue])
  }

  lemma PowerIsProduct(game: Game)
    requires |game.rounds| >= 1
    ensures Power(game) == Minimums(game).red * Minimums(game).green * Minimums(game).blue
  {
    var m := Minimums(game);
    Product3(m.red, m.green, m.blue);
  }

  lemma Product3(a: int, b: int, c: int)
    ensures Arithmetic.Product([a, b, c]) == a * b * c
  {
    assert [a][..0] == [];
    assert Arithmetic.Product([a]) == a;
    assert [a, b][..1] == [a];
    assert Arithmetic.Product([a, b]) == a * b;
    assert [a, b, c][..2] == [a, b];
  }

  function Powers(games: seq<Game>): (r: seq<int>)
    requires forall i :: 0 <= i < |games| ==> |games[i].rounds| >= 1
    ensures |r| == |games| && forall i :: 0 <= i < |games| ==> r[i] == Power(games[i])
    decreases |games|
  {
    if games == [] then []
    else
      var rest := Powers(games[1..]);
      assert forall i :: 1 <= i < |games| ==> games[i] == games[1..][i - 1];
      [Power(games[0])] + rest
  }

  /** `part2`: the sum of the games' powers. */
  function Part2(games: seq<Game>): int
    requires forall i :: 0 <= i < |games| ==> |games[i].rounds| >= 1
  {
    Arithmetic.Sum(Powers(games))
  }

  /** Part 2 adds up the power of each game. */
  lemma Part2Step(games: seq<Game>, g: Game)
    requires forall i :: 0 <= i < |games| ==> |games[i].rounds| >= 1
    requires |g.rounds| >= 1
    ensures Part2(games + [g]) == Part2(games) + Power(g)
  {
    var all := games + [g];
    assert Powers(all) == Powers(games) + [Power(g)];
    Arithmetic.SumAppend(Powers(games), [Power(g)]);
    assert Arithmetic.Sum([Power(g)]) == Arithmetic.Sum([]) + Power(g);
  }

  /** A possible game's minimums fit in part 1's bag. */
  lemma PossibleMinimumsFit(game: Game)
    requires |game.rounds| >= 1 && Possible(game)
    ensures Minimums(game).red <= 12 && Minimums(game).green <= 13 && Minimums(game).blue <= 14
  {
    var m := Minimums(game);
    forall c: Color
      ensures m.Get(c) <= Bag().Get(c)
    {
      var i :| 0 <= i < |game.rounds| && game.rounds[i].Get(c) == m.Get(c);
    }
    assert m.Get(Red) <= 12 && m.Get(Green) <= 13 && m.Get(Blue) <= 14;
  }
}
