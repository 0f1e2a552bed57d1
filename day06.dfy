/**
 * Day 6: boat races. Holding the button for `b` of a race's `time` milliseconds gives speed
 * `b` for the remaining `time - b`; a hold wins when the distance beats the record. Part 1
 * multiplies the numbers of winning holds over the races, part 2 first removes all whitespace.
 */
module Day06 {
  import opened Wrappers
  import Decimal
  import Arithmetic
  import Day03

  datatype Race = Race(time: nat, record: nat)

  /** The numbers `matchAll(/(\d+)/g)` finds in a line, each read by `parseInt`. */
  function Numbers(line: string): (r: seq<nat>)
    ensures |r| == |Day03.RunsFrom(line, 0)|
  {
    var runs := Day03.RunsFrom(line, 0);
    seq(|runs|, k requires 0 <= k < |runs| => Decimal.DigitsValue(runs[k].digits))
  }

  /** Line `k` of the input, or `''` when it is missing. */
  function Line(lines: seq<string>, k: nat): string
  {
    if k < |lines| then lines[k] else ""
  }

  /** A record that is missing or 0 is what `!record` rejects. */
  predicate Unrecorded(distances: seq<nat>, i: nat)
  {
    i >= |distances| || distances[i] == 0
  }

  /** The races from game `i` on, or the error for the first game without a record. */
  function RacesFrom(times: seq<nat>, distances: seq<nat>, i: nat): Result<seq<Race>>
    requires i <= |times|
    decreases |times| - i
  {
    if i == |times| then Success([])
    else if Unrecorded(distances, i) then Failure("No record for game " + Decimal.NatToString(i))
    else
      match RacesFrom(times, distances, i + 1)
      case Failure(e) => Failure(e)
      case Success(rest) => Success([Race(times[i], distances[i])] + rest)
  }

  /** `getRaces`: the numbers of the first line are the times, those of the second the records. */
  function GetRaces(lines: seq<string>): Result<seq<Race>>
  {
    RacesFrom(Numbers(Line(lines, 0)), Numbers(Line(lines, 1)), 0)
  }

  /** `races` pairs each time from index `i` on with the record at the same index. */
  predicate Paired(races: seq<Race>, times: seq<nat>, distances: seq<nat>, i: nat)
  {
    |races| == |times| - i && (i < |times| ==> |times| <= |distances|)
    && forall k :: 0 <= k < |races| ==> races[k] == Race(times[i + k], distances[i + k])
  }

  /**
   * The races fail exactly when some game lacks a record; otherwise there is one race per time,
   * paired with the record at the same index.
   */
  lemma {:induction false} RacesFromExactly(times: seq<nat>, distances: seq<nat>, i: nat)
    requires i <= |times|
    ensures RacesFrom(times, distances, i).Failure? <==> exists g :: i <= g < |times| && Unrecorded(distances, g)
    ensures RacesFrom(times, distances, i).Success? ==> Paired(RacesFrom(times, distances, i).value, times, distances, i)
    decreases |times| - i
  {
    if i < |times| && !Unrecorded(distances, i) {
      RacesFromExactly(times, distances, i + 1);
      if RacesFrom(times, distances, i + 1).Success? {
        var rest := RacesFrom(times, distances, i + 1).value;
        var races := RacesFrom(times, distances, i).value;
        assert races == [Race(times[i], distances[i])] + rest;
        forall k | 1 <= k < |races|
          ensures races[k] == Race(times[i + k], distances[i + k])
        {
          assert races[k] == rest[k - 1];
        }
        assert Paired(races, times, distances, i);
      }
      assert (exists g :: i <= g < |times| && Unrecorded(distances, g))
        ==> exists g :: i + 1 <= g < |times| && Unrecorded(distances, g);
    }
  }

  /** A hold time `b` wins when `b * (time - b)` beats the record. */
  predicate Beats(race: Race, b: int)
  {
    b * (race.time - b) > race.record
  }

  /** The winning hold times among `1 .. time-1`. */
  function Winning(race: Race): set<int>
  {
    set b | 1 <= b < race.time && Beats(race, b)
  }

  /** The winning hold times below `n`: what the loop of `nWaysToWin` has counted so far. */
  function WinningBelow(race: Race, n: int): set<int>
  {
    set b | 1 <= b < n && Beats(race, b)
  }

  /** `nWaysToWin`: one pass over the hold times, counting the winning ones. */
  method NWaysToWin(race: Race) returns (wins: nat)
    ensures wins == |Winning(race)|
  {
    wins := 0;
    var buttonTime := 1;
    while buttonTime < race.time
      invariant 1 <= buttonTime && (race.time >= 1 ==> buttonTime <= race.time)
      invariant wins == |WinningBelow(race, buttonTime)|
      decreases race.time - buttonTime
    {
      var velocity := buttonTime;
      var timeRemaining := race.time - buttonTime;
      var distanceTraveled := velocity * timeRemaining;
      if distanceTraveled > race.record {
        assert WinningBelow(race, buttonTime + 1) == WinningBelow(race, buttonTime) + {buttonTime};
        wins := wins + 1;
      } else {
        assert WinningBelow(race, buttonTime + 1) == WinningBelow(race, buttonTime);
      }
      buttonTime := buttonTime + 1;
    }
    assert WinningBelow(race, buttonTime) == Winning(race);
  }

  /** At most one win per hold time tried: `|WinningBelow(race, n)| <= max(0, n - 1)`. */
  lemma {:induction false} WinningBelowBound(race: Race, n: int)
    ensures |WinningBelow(race, n)| <= if n > 1 then n - 1 else 0
    decreases if n > 1 then n else 0
  {
    if n > 1 {
      WinningBelowBound(race, n - 1);
      var before := WinningBelow(race, n - 1);
      assert n - 1 !in before;
      if Beats(race, n - 1) {
        assert WinningBelow(race, n) == before + {n - 1};
      } else {
        assert WinningBelow(race, n) == before;
      }
    } else {
      assert WinningBelow(race, n) == {};
    }
  }

  /** No race is won in more ways than there are hold times: `0 <= ways <= max(0, time - 1)`. */
  lemma WaysBound(race: Race)
    ensures |Winning(race)| <= if race.time > 1 then race.time - 1 else 0
  {
    assert Winning(race) == WinningBelow(race, race.time);
    WinningBelowBound(race, race.time);
  }

  /** Holding `b` travels as far as holding `time - b`, so the winning holds are symmetric. */
  lemma BeatsSymmetric(race: Race, b: int)
    ensures Beats(race, b) <==> Beats(race, race.time - b)
  {
    assert (race.time - b) * (race.time - (race.time - b)) == b * (race.time - b);
  }

  /** A higher record is never easier to beat. */
  lemma WinningShrinks(race: Race, record: nat)
    requires record >= race.record
    ensures Winning(Race(race.time, record)) <= Winning(race)
  {
  }

  /** The number of ways to win each race. */
  function Ways(races: seq<Race>): (r: seq<int>)
    ensures |r| == |races| && forall k :: 0 <= k < |races| ==> r[k] == |Winning(races[k])|
  {
    seq(|races|, k requires 0 <= k < |races| => |Winning(races[k])|)
  }

  /** `product(races.map(nWaysToWin))`, counting each race with the loop. */
  method WaysProduct(races: seq<Race>) returns (p: int)
    ensures p == Arithmetic.Product(Ways(races))
  {
    p := 1;
    var i := 0;
    while i < |races|
      invariant 0 <= i <= |races| && p == Arithmetic.Product(Ways(races)[..i])
      decreases |races| - i
    {
      var w := NWaysToWin(races[i]);
      assert Ways(races)[..i + 1][..i] == Ways(races)[..i];
      p := p * w;
      i := i + 1;
    }
    assert Ways(races)[..i] == Ways(races);
  }

  /** `part1`: the product of the ways to win, or the error `getRaces` throws. */
  method Part1(lines: seq<string>) returns (r: Result<int>)
    ensures GetRaces(lines).Failure? ==> r == Failure(GetRaces(lines).error)
    ensures GetRaces(lines).Success? ==> r == Success(Arithmetic.Product(Ways(GetRaces(lines).value)))
  {
    match GetRaces(lines)
    case Failure(e) =>
      r := Failure(e);
    case Success(races) =>
      var p := WaysProduct(races);
      r := Success(p);
  }

  /** The characters `\s` matches, as far as ASCII goes. */
  predicate IsSpace(c: char)
  {
    c == ' ' || c == '\t' || c == '\n' || c == '\r' || c == '\U{B}' || c == '\U{C}'
  }

  /** `s.replace(/\s/g, '')`. */
  function RemoveSpaces(s: string): (r: string)
    ensures |r| <= |s| && forall k :: 0 <= k < |r| ==> !IsSpace(r[k]) && r[k] in s
    decreases |s|
  {
    if s == [] then []
    else (if IsSpace(s[0]) then [] else [s[0]]) + RemoveSpaces(s[1..])
  }

  lemma {:induction false} RemoveSpacesAppend(a: string, b: string)
    ensures RemoveSpaces(a + b) == RemoveSpaces(a) + RemoveSpaces(b)
    decreases |a|
  {
    if a != [] {
      var head := if IsSpace(a[0]) then [] else [a[0]];
      assert (a + b)[0] == a[0] && (a + b)[1..] == a[1..] + b;
      assert RemoveSpaces(a + b) == head + RemoveSpaces(a[1..] + b);
      RemoveSpacesAppend(a[1..], b);
      assert RemoveSpaces(a) == head + RemoveSpaces(a[1..]);
    } else {
      assert a + b == b;
    }
  }

  /** A line without whitespace is left alone, so removing whitespace twice is removing it once. */
  lemma {:induction false} RemoveSpacesIdempotent(s: string)
    ensures (forall k :: 0 <= k < |s| ==> !IsSpace(s[k])) ==> RemoveSpaces(s) == s
    ensures RemoveSpaces(RemoveSpaces(s)) == RemoveSpaces(s)
    decreases |s|
  {
    if s != [] {
      RemoveSpacesIdempotent(s[1..]);
      var t := RemoveSpaces(s[1..]);
      var head := if IsSpace(s[0]) then [] else [s[0]];
      RemoveSpacesAppend(head, t);
      assert RemoveSpaces(head) == head;
    }
  }

  /** Every character of the stripped line is either kept or was whitespace. */
  lemma {:induction false} RemoveSpacesKeeps(s: string, pred: char -> bool)
    requires forall k :: 0 <= k < |s| ==> pred(s[k]) || IsSpace(s[k])
    ensures forall k :: 0 <= k < |RemoveSpaces(s)| ==> pred(RemoveSpaces(s)[k])
    decreases |s|
  {
    if s != [] {
      RemoveSpacesKeeps(s[1..], pred);
    }
  }

  /** Some character of `s` is a digit. */
  predicate HasDigit(s: string)
  {
    exists k :: 0 <= k < |s| && Decimal.IsDigit(s[k])
  }

  lemma {:induction false} RemoveSpacesHasDigit(s: string)
    requires HasDigit(s)
    ensures HasDigit(RemoveSpaces(s))
    decreases |s|
  {
    if Decimal.IsDigit(s[0]) {
      assert RemoveSpaces(s)[0] == s[0];
    } else {
      assert HasDigit(s[1..]) by {
        var k :| 0 <= k < |s| && Decimal.IsDigit(s[k]);
        assert s[1..][k - 1] == s[k];
      }
      RemoveSpacesHasDigit(s[1..]);
      var w :| 0 <= w < |RemoveSpaces(s[1..])| && Decimal.IsDigit(RemoveSpaces(s[1..])[w]);
      var head := if IsSpace(s[0]) then [] else [s[0]];
      assert RemoveSpaces(s)[|head| + w] == RemoveSpaces(s[1..])[w];
    }
  }

  lemma {:induction false} RunEndAtEnd(s: string, i: nat)
    requires i <= |s| && forall k :: i <= k < |s| ==> Decimal.IsDigit(s[k])
    ensures Day03.RunEnd(s, i) == |s|
    decreases |s| - i
  {
    if i < |s| {
      RunEndAtEnd(s, i + 1);
    }
  }

  /** Before the digits start there is nothing to match. */
  lemma {:induction false} RunsFromSkip(s: string, i: nat, j: nat)
    requires i <= j <= |s| && forall k :: i <= k < j ==> !Decimal.IsDigit(s[k])
    ensures Day03.RunsFrom(s, i) == Day03.RunsFrom(s, j)
    decreases j - i
  {
    if i < j {
      RunsFromSkip(s, i + 1, j);
    }
  }

  /**
   * A line made of a digit-free heading followed by digits and whitespace, with at least one
   * digit, reads as one number once the whitespace is gone: the digits in order, read together.
   */
  lemma OneNumber(heading: string, body: string)
    requires forall k :: 0 <= k < |heading| ==> !Decimal.IsDigit(heading[k])
    requires forall k :: 0 <= k < |body| ==> Decimal.IsDigit(body[k]) || IsSpace(body[k])
    requires HasDigit(body)
    ensures
      var digits := RemoveSpaces(body);
      Decimal.AllDigits(digits) && |digits| > 0
      && Numbers(RemoveSpaces(heading + body)) == [Decimal.DigitsValue(digits)]
  {
    var pre, digits := RemoveSpaces(heading), RemoveSpaces(body);
    RemoveSpacesAppend(heading, body);
    RemoveSpacesKeeps(body, Decimal.IsDigit);
    RemoveSpacesKeeps(heading, c => !Decimal.IsDigit(c));
    RemoveSpacesHasDigit(body);
    SingleRun(pre, digits);
  }

  /** Digits after a digit-free prefix are the line's one run. */
  lemma SingleRun(pre: string, digits: string)
    requires forall k :: 0 <= k < |pre| ==> !Decimal.IsDigit(pre[k])
    requires Decimal.AllDigits(digits) && |digits| > 0
    ensures Day03.RunsFrom(pre + digits, 0) == [Day03.Run(|pre|, digits)]
  {
    var s := pre + digits;
    RunsFromSkip(s, 0, |pre|);
    RunEndAtEnd(s, |pre|);
    assert s[|pre|..|s|] == digits;
    assert Day03.RunsFrom(s, |s|) == [];
  }

  /** `part2`: part 1 over the lines with their whitespace removed. */
  method Part2(lines: seq<string>) returns (r: Result<int>)
    ensures var stripped := seq(|lines|, k requires 0 <= k < |lines| => RemoveSpaces(lines[k]));
      (GetRaces(stripped).Failure? ==> r == Failure(GetRaces(stripped).error))
      && (GetRaces(stripped).Success? ==> r == Success(Arithmetic.Product(Ways(GetRaces(stripped).value))))
  {
    var stripped := seq(|lines|, k requires 0 <= k < |lines| => RemoveSpaces(lines[k]));
    r := Part1(stripped);
  }
}
