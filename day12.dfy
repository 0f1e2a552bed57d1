/**
 * Day 12: rows of springs, each '.' (working), '#' (damaged) or unknown, with the lengths of
 * the runs of damaged springs. The answer counts, per row, the ways to fill in the unknowns
 * so that the runs come out right.
 */
module Day12 {
  import Arithmetic

  /** A run of damaged springs ending here: reported when it has any length. */
  function Close(cur: nat): seq<nat>
  {
    if cur > 0 then [cur] else []
  }

  /**
   * The lengths of the maximal runs of '#' in `f`, left to right, when a run of length `cur`
   * is already open before it. Anything but '#' ends a run.
   */
  function RunsFrom(f: string, cur: nat): seq<nat>
  {
    if f == [] then Close(cur)
    else if f[0] == '#' then RunsFrom(f[1..], cur + 1)
    else Close(cur) + RunsFrom(f[1..], 0)
  }

  /**
   * The reference count, by brute force: make every unknown spring of `line` working or
   * damaged in turn (known springs stay as they are) and count the rows `prefix + filling`
   * whose runs of damaged springs are `runs`.
   */
  function Fillings(prefix: string, line: string, runs: seq<nat>): nat
    decreases |line|
  {
    if line == [] then (if RunsFrom(prefix, 0) == runs then 1 else 0)
    else
      (if line[0] != '.' then Fillings(prefix + "#", line[1..], runs) else 0)
      + (if line[0] != '#' then Fillings(prefix + ".", line[1..], runs) else 0)
  }

  /** `n` damaged springs. */
  function Damaged(n: nat): (r: string)
    ensures |r| == n
  {
    if n == 0 then "" else Damaged(n - 1) + "#"
  }

  /** The fillings of `line` whose runs are `runs` when a run of `cur` damaged springs is already open. */
  function Ways(line: string, cur: nat, runs: seq<nat>): nat
  {
    Fillings(Damaged(cur), line, runs)
  }

  /** Two prefixes that give the same verdict on every completion give the same count. */
  lemma {:induction false} FillingsAgree(p: string, q: string, line: string, runs: seq<nat>, runs': seq<nat>)
    requires forall g :: |g| == |line| ==> (RunsFrom(p + g, 0) == runs) == (RunsFrom(q + g, 0) == runs')
    ensures Fillings(p, line, runs) == Fillings(q, line, runs')
    decreases |line|
  {
    if line == [] {
      assert p + [] == p && q + [] == q;
    } else {
      forall g | |g| == |line| - 1
        ensures (RunsFrom(p + "#" + g, 0) == runs) == (RunsFrom(q + "#" + g, 0) == runs')
        ensures (RunsFrom(p + "." + g, 0) == runs) == (RunsFrom(q + "." + g, 0) == runs')
      {
        assert p + "#" + g == p + ("#" + g) && q + "#" + g == q + ("#" + g);
        assert p + "." + g == p + ("." + g) && q + "." + g == q + ("." + g);
      }
      FillingsAgree(p + "#", q + "#", line[1..], runs, runs');
      FillingsAgree(p + ".", q + ".", line[1..], runs, runs');
    }
  }

  /** No completion of a prefix whose runs can never be `runs` is counted. */
  lemma {:induction false} Unreachable(p: string, line: string, runs: seq<nat>)
    requires forall g :: RunsFrom(p + g, 0) != runs
    ensures Fillings(p, line, runs) == 0
    decreases |line|
  {
    if line == [] {
      assert p + [] == p;
    } else {
      forall g
        ensures RunsFrom(p + "#" + g, 0) != runs && RunsFrom(p + "." + g, 0) != runs
      {
        assert p + "#" + g == p + ("#" + g) && p + "." + g == p + ("." + g);
      }
      Unreachable(p + "#", line[1..], runs);
      Unreachable(p + ".", line[1..], runs);
    }
  }

  /** Damaged springs in front of a row are an open run. */
  lemma {:induction false} DamagedRuns(n: nat, g: string)
    ensures RunsFrom(Damaged(n) + g, 0) == RunsFrom(g, n)
  {
    if n == 0 {
      assert Damaged(n) + g == g;
    } else {
      assert Damaged(n) + g == Damaged(n - 1) + ("#" + g);
      DamagedRuns(n - 1, "#" + g);
      assert ("#" + g)[1..] == g;
    }
  }

  /** A damaged spring extends the open run. */
  lemma WaysDamaged(rest: string, cur: nat, runs: seq<nat>)
    ensures Ways("#" + rest, cur, runs) == Ways(rest, cur + 1, runs)
  {
    assert ("#" + rest)[1..] == rest;
  }

  /** What a working spring after an open run of `cur` leaves to count. */
  function WaysAfterWorking(rest: string, cur: nat, runs: seq<nat>): nat
  {
    if cur == 0 then Ways(rest, 0, runs)
    else if runs != [] && runs[0] == cur then Ways(rest, 0, runs[1..])
    else 0
  }

  /** A working spring closes the open run, which must then be the next run. */
  lemma WaysWorking(rest: string, cur: nat, runs: seq<nat>)
    ensures Ways("." + rest, cur, runs) == WaysAfterWorking(rest, cur, runs)
  {
    assert ("." + rest)[1..] == rest;
    forall g
      ensures RunsFrom(Damaged(cur) + "." + g, 0) == Close(cur) + RunsFrom(g, 0)
      ensures RunsFrom("" + g, 0) == RunsFrom(g, 0)
    {
      assert Damaged(cur) + "." + g == Damaged(cur) + ("." + g);
      DamagedRuns(cur, "." + g);
      assert ("." + g)[1..] == g;
      assert "" + g == g;
    }
    if cur == 0 {
      FillingsAgree(Damaged(cur) + ".", "", rest, runs, runs);
    } else if runs != [] && runs[0] == cur {
      assert runs == [cur] + runs[1..];
      FillingsAgree(Damaged(cur) + ".", "", rest, runs, runs[1..]);
    } else {
      Unreachable(Damaged(cur) + ".", rest, runs);
    }
  }

  /** One step of the reference count on the first spring of a non-empty row. */
  lemma WaysStep(line: string, cur: nat, runs: seq<nat>)
    requires line != []
    ensures Ways(line, cur, runs) ==
      (if line[0] != '.' then Ways(line[1..], cur + 1, runs) else 0)
      + (if line[0] != '#' then WaysAfterWorking(line[1..], cur, runs) else 0)
  {
    assert line == [line[0]] + line[1..];
    WaysDamaged(line[1..], cur, runs);
    WaysWorking(line[1..], cur, runs);
    assert ("#" + line[1..])[1..] == line[1..] && ("." + line[1..])[1..] == line[1..];
  }

  /** A fully read row leaves only the open run. */
  lemma WaysEmpty(cur: nat, runs: seq<nat>)
    ensures Ways([], cur, runs) == if Close(cur) == runs then 1 else 0
  {
    DamagedRuns(cur, []);
    assert Damaged(cur) + [] == Damaged(cur);
  }

  /** An open run longer than the next run (or with no run left for it) can never come out right. */
  lemma {:induction false} Overrun(line: string, cur: nat, runs: seq<nat>)
    requires cur > 0 && (runs == [] || cur > runs[0])
    ensures Ways(line, cur, runs) == 0
    decreases |line|
  {
    if line == [] {
      WaysEmpty(cur, runs);
    } else {
      WaysStep(line, cur, runs);
      if line[0] != '.' {
        Overrun(line[1..], cur + 1, runs);
      }
    }
  }

  /** With no runs left, a row has exactly one filling (all working) unless it holds a damaged spring. */
  lemma {:induction false} NoRuns(line: string)
    ensures Ways(line, 0, []) == if '#' in line then 0 else 1
    decreases |line|
  {
    if line != [] {
      WaysStep(line, 0, []);
      NoRuns(line[1..]);
      if line[0] != '.' {
        Overrun(line[1..], 1, []);
      }
      assert line == [line[0]] + line[1..];
    }
  }

  /** A run of length 0 never occurs in a filling. */
  lemma {:induction false} ZeroRun(line: string, cur: nat, runs: seq<nat>)
    requires 0 in runs
    ensures Ways(line, cur, runs) == 0
    decreases |line|
  {
    if line == [] {
      WaysEmpty(cur, runs);
      assert Close(cur) != runs;
    } else {
      WaysStep(line, cur, runs);
      if line[0] != '.' {
        ZeroRun(line[1..], cur + 1, runs);
      }
      if line[0] != '#' {
        if cur == 0 {
          ZeroRun(line[1..], 0, runs);
        } else if runs != [] && runs[0] == cur {
          ZeroRun(line[1..], 0, runs[1..]);
        }
      }
    }
  }

  /** The fewest springs that hold the runs: each run, with a working spring between two runs. */
  function MinLength(runs: seq<nat>): int
  {
    Arithmetic.Sum(runs) + |runs| - 1
  }

  lemma SumFront(runs: seq<nat>)
    requires runs != []
    ensures Arithmetic.Sum(runs) == runs[0] + Arithmetic.Sum(runs[1..])
  {
    assert runs == [runs[0]] + runs[1..];
    Arithmetic.SumAppend([runs[0]], runs[1..]);
    assert Arithmetic.Sum([runs[0]]) == Arithmetic.Sum([]) + runs[0];
    Arithmetic.EmptyFolds();
  }

  /** A row too short for the runs (counting the open run) has no filling. */
  lemma {:induction false} TooShort(line: string, cur: nat, runs: seq<nat>)
    requires runs != [] && cur + |line| < MinLength(runs)
    ensures Ways(line, cur, runs) == 0
    decreases |line|
  {
    SumFront(runs);
    Arithmetic.SumNonNegative(runs[1..]);
    if line == [] {
      WaysEmpty(cur, runs);
      assert Close(cur) != runs;
    } else {
      WaysStep(line, cur, runs);
      if line[0] != '.' {
        TooShort(line[1..], cur + 1, runs);
      }
      if line[0] != '#' {
        if cur == 0 {
          TooShort(line[1..], 0, runs);
        } else if runs[0] == cur && runs[1..] != [] {
          SumFront(runs[1..]);
          TooShort(line[1..], 0, runs[1..]);
        }
      }
    }
  }

  /** The springs from the second to the one before `k` include a working one. */
  predicate WorkingWithin(line: string, k: int)
  {
    exists i :: 1 <= i < k && i < |line| && line[i] == '.'
  }

  /** What is left of the row after its first `n` springs: `line.slice(n)`. */
  function Drop(line: string, n: nat): string
  {
    if n <= |line| then line[n..] else []
  }

  /**
   * Reading on into the first run: with `j` damaged springs read and no working spring up to
   * spring `k`, the run of `k` closes at spring `k` (which must not be damaged) or at the end.
   */
  lemma {:induction false} FillRun(line: string, j: nat, runs: seq<nat>)
    requires runs != [] && 1 <= j <= runs[0] <= |line|
    requires forall i :: j <= i < runs[0] ==> line[i] != '.'
    ensures Ways(line[j..], j, runs) ==
      if runs[0] < |line| && line[runs[0]] == '#' then 0 else Ways(Drop(line, runs[0] + 1), 0, runs[1..])
    decreases runs[0] - j
  {
    var k := runs[0];
    if j < k {
      WaysStep(line[j..], j, runs);
      assert line[j..][1..] == line[j + 1..];
      FillRun(line, j + 1, runs);
    } else if k == |line| {
      assert line[j..] == [];
      WaysEmpty(j, runs);
      WaysEmpty(0, runs[1..]);
      assert runs == [k] + runs[1..];
    } else {
      WaysStep(line[k..], k, runs);
      assert line[k..][1..] == line[k + 1..];
      if line[k] != '.' {
        Overrun(line[k + 1..], k + 1, runs);
      }
    }
  }

  /** With a working spring inside the first run, it cannot be filled. */
  lemma {:induction false} BrokenRun(line: string, j: nat, runs: seq<nat>)
    requires runs != [] && 1 <= j <= runs[0] <= |line|
    requires exists i :: j <= i < runs[0] && line[i] == '.'
    ensures Ways(line[j..], j, runs) == 0
    decreases runs[0] - j
  {
    WaysStep(line[j..], j, runs);
    assert line[j..][1..] == line[j + 1..];
    if line[j] != '.' {
      BrokenRun(line, j + 1, runs);
    }
  }

  function QCount(line: string): nat
  {
    if line == [] then 0 else (if line[0] in ".#" then 0 else 1) + QCount(line[1..])
  }

  /**
   * `countArrangements` (without its memo table): the base cases, the length cut-off, then by
   * the first spring: skip a working one, place the first run at a damaged one, and try both
   * for an unknown one.
   */
  function CountArrangements(line: string, runs: seq<nat>): nat
    decreases |line|, QCount(line)
  {
    if |line| == 0 then (if |runs| == 0 then 1 else 0)
    else if |runs| == 0 then (if '#' in line then 0 else 1)
    else if |line| < MinLength(runs) then 0
    else if line[0] == '.' then CountArrangements(line[1..], runs)
    else if line[0] == '#' then
      var firstRun := runs[0];
      if firstRun == 0 then 0
      else if firstRun < |line| && line[firstRun] == '#' then 0
      else if WorkingWithin(line, firstRun) then 0
      else CountArrangements(Drop(line, firstRun + 1), runs[1..])
    else
      assert ("#" + line[1..])[1..] == line[1..];
      CountArrangements("#" + line[1..], runs) + CountArrangements(line[1..], runs)
  }

  /** The count is exactly the number of fillings of the row whose runs of damaged springs are `runs`. */
  lemma {:induction false} CountIsWays(line: string, runs: seq<nat>)
    ensures CountArrangements(line, runs) == Ways(line, 0, runs)
    decreases |line|, QCount(line), 1
  {
    if |line| == 0 {
      WaysEmpty(0, runs);
    } else if |runs| == 0 {
      NoRuns(line);
    } else if |line| < MinLength(runs) {
      TooShort(line, 0, runs);
    } else if line[0] == '.' {
      WaysStep(line, 0, runs);
      CountIsWays(line[1..], runs);
    } else if line[0] == '#' {
      CountDamaged(line, runs);
    } else {
      assert ("#" + line[1..])[1..] == line[1..];
      CountIsWays("#" + line[1..], runs);
      CountIsWays(line[1..], runs);
      WaysStep(line, 0, runs);
      WaysDamaged(line[1..], 0, runs);
    }
  }

  /** The damaged-first case of `CountIsWays`. */
  lemma {:induction false} CountDamaged(line: string, runs: seq<nat>)
    requires line != [] && runs != [] && |line| >= MinLength(runs) && line[0] == '#'
    ensures CountArrangements(line, runs) == Ways(line, 0, runs)
    decreases |line|, QCount(line), 0
  {
    var k := runs[0];
    WaysStep(line, 0, runs);
    if k == 0 {
      ZeroRun(line[1..], 1, runs);
    } else {
      SumFront(runs);
      Arithmetic.SumNonNegative(runs[1..]);
      if WorkingWithin(line, k) {
        var i :| 1 <= i < k && i < |line| && line[i] == '.';
        BrokenRun(line, 1, runs);
      } else {
        FillRun(line, 1, runs);
        if !(k < |line| && line[k] == '#') {
          CountIsWays(Drop(line, k + 1), runs[1..]);
        }
      }
    }
  }

  /** `Array(5).fill(line).join('?')`. */
  function Unfold(line: string, copies: nat): string
  {
    if copies <= 1 then (if copies == 1 then line else "")
    else Unfold(line, copies - 1) + "?" + line
  }

  /** `Array.from({ length: 5 }, () => [...runs]).flat()`. */
  function Repeat(runs: seq<nat>, copies: nat): (r: seq<nat>)
    ensures |r| == copies * |runs|
  {
    if copies == 0 then [] else Repeat(runs, copies - 1) + runs
  }

  /** The unfolded row is five copies with an unknown spring between each two. */
  lemma {:induction false} UnfoldLength(line: string, copies: nat)
    requires copies >= 1
    ensures |Unfold(line, copies)| == copies * |line| + copies - 1
  {
    if copies > 1 {
      UnfoldLength(line, copies - 1);
    }
  }

  /** One row of the input: its springs and its runs. */
  datatype Row = Row(springs: string, runs: seq<nat>)

  /** The counts of the rows `0..n`. */
  function Counts(rows: seq<Row>, n: nat, unfold: bool): (r: seq<int>)
    requires n <= |rows|
    ensures |r| == n
  {
    if n == 0 then []
    else
      var row := rows[n - 1];
      var c := if unfold then CountArrangements(Unfold(row.springs, 5), Repeat(row.runs, 5))
               else CountArrangements(row.springs, row.runs);
      Counts(rows, n - 1, unfold) + [c]
  }

  /** `part1`/`part2`: the arrangements of every row, summed. */
  function Solve(rows: seq<Row>, unfold: bool): int
  {
    Arithmetic.Sum(Counts(rows, |rows|, unfold))
  }

  /** Each summand is the number of fillings of its row (unfolded for `part2`). */
  lemma CountsAreWays(rows: seq<Row>, unfold: bool, i: nat)
    requires i < |rows|
    ensures Counts(rows, |rows|, unfold)[i] ==
      if unfold then Ways(Unfold(rows[i].springs, 5), 0, Repeat(rows[i].runs, 5))
      else Ways(rows[i].springs, 0, rows[i].runs)
  {
    CountsAt(rows, |rows|, unfold, i);
    if unfold {
      CountIsWays(Unfold(rows[i].springs, 5), Repeat(rows[i].runs, 5));
    } else {
      CountIsWays(rows[i].springs, rows[i].runs);
    }
  }

  lemma {:induction false} CountsAt(rows: seq<Row>, n: nat, unfold: bool, i: nat)
    requires i < n <= |rows|
    ensures Counts(rows, n, unfold)[i] ==
      if unfold then CountArrangements(Unfold(rows[i].springs, 5), Repeat(rows[i].runs, 5))
      else CountArrangements(rows[i].springs, rows[i].runs)
  {
    if i < n - 1 {
      CountsAt(rows, n - 1, unfold, i);
    }
  }
}
