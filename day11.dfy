/**
 * Day 11: galaxies '#' in an image of empty space '.'. Rows and columns without a galaxy
 * expand by a factor; the answer is the sum, over all pairs of galaxies, of their distance
 * in the expanded image.
 */
module Day11 {
  import opened Wrappers
  import Grid

  type Pos = (int, int)

  /** The lines of the input that are not empty: the rows of the image. */
  function Rows(lines: seq<string>): (rows: seq<string>)
    ensures forall l :: l in rows <==> l in lines && l != ""
  {
    if lines == [] then []
    else (if lines[0] != "" then [lines[0]] else []) + Rows(lines[1..])
  }

  /** Every cell of the row is '.'. */
  predicate EmptyRow(row: string)
  {
    forall x :: x in row ==> x == '.'
  }

  /** Every row has a '.' at column `c`; a row too short to have one does not. */
  predicate EmptyCol(rows: seq<string>, c: int)
  {
    forall r :: 0 <= r < |rows| ==> 0 <= c < |rows[r]| && rows[r][c] == '.'
  }

  /** The indexes are strictly increasing. */
  predicate Increasing(s: seq<int>)
  {
    forall i, j :: 0 <= i < j < |s| ==> s[i] < s[j]
  }

  /** The `emptyRowIndexes` loop: the empty rows, in order. */
  method EmptyRows(rows: seq<string>) returns (es: seq<int>)
    ensures forall i :: i in es <==> 0 <= i < |rows| && EmptyRow(rows[i])
    ensures Increasing(es)
  {
    es := [];
    for r := 0 to |rows|
      invariant forall i :: i in es <==> 0 <= i < r && EmptyRow(rows[i])
      invariant Increasing(es) && forall j :: 0 <= j < |es| ==> es[j] < r
    {
      if forall x :: x in rows[r] ==> x == '.' {
        es := es + [r];
      }
    }
  }

  /** The `emptyColIndexes` loop over the columns of the first row: the empty columns, in order. */
  method EmptyCols(rows: seq<string>) returns (es: seq<int>)
    ensures forall c :: c in es <==> 0 <= c < (if rows == [] then 0 else |rows[0]|) && EmptyCol(rows, c)
    ensures Increasing(es)
  {
    es := [];
    var width := if rows == [] then 0 else |rows[0]|;
    for c := 0 to width
      invariant forall i :: i in es <==> 0 <= i < c && EmptyCol(rows, i)
      invariant Increasing(es) && forall j :: 0 <= j < |es| ==> es[j] < c
    {
      if forall r :: 0 <= r < |rows| ==> c < |rows[r]| && rows[r][c] == '.' {
        es := es + [c];
      }
    }
  }

  /** The galaxies of rows `r..`, in row-major order: `grid.filter((node) => node.isGalaxy)`. */
  function GalaxiesFrom(rows: seq<string>, r: nat): (gs: seq<Pos>)
    ensures forall p: Pos :: p in gs <==> r <= p.0 < |rows| && 0 <= p.1 < |rows[p.0]| && rows[p.0][p.1] == '#'
    ensures Grid.RowMajor(gs)
    decreases |rows| - r
  {
    if r >= |rows| then []
    else
      var row := InRow(rows[r], r, 0);
      var rest := GalaxiesFrom(rows, r + 1);
      assert forall i, j :: 0 <= i < |row| && 0 <= j < |rest| ==> Grid.Before(row[i], rest[j]) by {
        forall i, j | 0 <= i < |row| && 0 <= j < |rest|
          ensures Grid.Before(row[i], rest[j])
        {
          assert row[i] in row && rest[j] in rest;
        }
      }
      row + rest
  }

  /** The galaxies of row `r` from column `c` on, left to right. */
  function InRow(row: string, r: int, c: nat): (gs: seq<Pos>)
    ensures forall p: Pos :: p in gs <==> p.0 == r && c <= p.1 < |row| && row[p.1] == '#'
    ensures Grid.RowMajor(gs)
    decreases |row| - c
  {
    if c >= |row| then []
    else
      var rest := InRow(row, r, c + 1);
      assert forall j :: 0 <= j < |rest| ==> Grid.Before((r, c), rest[j]) by {
        forall j | 0 <= j < |rest|
          ensures Grid.Before((r, c), rest[j])
        {
          assert rest[j] in rest;
        }
      }
      (if row[c] == '#' then [(r, c)] else []) + rest
  }

  /** How many of the indexes lie strictly between `lo` and `hi`. */
  function Between(es: seq<int>, lo: int, hi: int): (n: nat)
    ensures n <= |es|
  {
    |Strictly(es, lo, hi)|
  }

  /** The `filter((i) => i > lo && i < hi)` of the indexes. */
  function Strictly(es: seq<int>, lo: int, hi: int): (r: seq<int>)
    ensures forall i :: i in r <==> i in es && lo < i < hi
    ensures |r| <= |es|
  {
    if es == [] then []
    else (if lo < es[0] < hi then [es[0]] else []) + Strictly(es[1..], lo, hi)
  }

  function Lo(a: int, b: int): int
  {
    if a <= b then a else b
  }

  function Hi(a: int, b: int): int
  {
    if a <= b then b else a
  }

  /** The distance between two galaxies once every empty row and column between them has grown `factor` times. */
  function Distance(g: Pos, h: Pos, emptyRows: seq<int>, emptyCols: seq<int>, factor: int): int
  {
    var nRows := Between(emptyRows, Lo(g.0, h.0), Hi(g.0, h.0));
    var nCols := Between(emptyCols, Lo(g.1, h.1), Hi(g.1, h.1));
    Hi(g.0, h.0) - Lo(g.0, h.0) + (Hi(g.1, h.1) - Lo(g.1, h.1)) + (nRows + nCols) * (factor - 1)
  }

  /** The distance does not depend on the order of the pair. */
  lemma DistanceSymmetric(g: Pos, h: Pos, emptyRows: seq<int>, emptyCols: seq<int>, factor: int)
    ensures Distance(g, h, emptyRows, emptyCols, factor) == Distance(h, g, emptyRows, emptyCols, factor)
  {
  }

  /** No expansion gives the Manhattan distance, and expansion only ever adds to it. */
  lemma DistanceBounds(g: Pos, h: Pos, emptyRows: seq<int>, emptyCols: seq<int>, factor: int)
    ensures factor == 1 ==> Distance(g, h, emptyRows, emptyCols, factor) == Abs(g.0 - h.0) + Abs(g.1 - h.1)
    ensures factor >= 1 ==> Distance(g, h, emptyRows, emptyCols, factor) >= Abs(g.0 - h.0) + Abs(g.1 - h.1)
  {
    if factor >= 1 {
      MulNonNegative(Between(emptyRows, Lo(g.0, h.0), Hi(g.0, h.0)) + Between(emptyCols, Lo(g.1, h.1), Hi(g.1, h.1)), factor - 1);
    }
  }

  lemma MulNonNegative(a: nat, b: nat)
    ensures a * b >= 0
  {
  }

  function Abs(x: int): nat
  {
    if x < 0 then -x else x
  }

  /** The distance of galaxies `i` and `k`, 0 for an index outside the list. */
  function D(gs: seq<Pos>, emptyRows: seq<int>, emptyCols: seq<int>, factor: int, i: nat, k: nat): int
  {
    if i < |gs| && k < |gs| then Distance(gs[i], gs[k], emptyRows, emptyCols, factor) else 0
  }

  /** What the inner `forEach` adds for galaxy `i`: its distances to galaxies `0..n` other than itself. */
  function RowSum(gs: seq<Pos>, er: seq<int>, ec: seq<int>, f: int, i: nat, n: nat): int
  {
    if n == 0 then 0
    else RowSum(gs, er, ec, f, i, n - 1) + (if n - 1 == i then 0 else D(gs, er, ec, f, i, n - 1))
  }

  /** What the outer `forEach` has added after galaxies `0..m`, each against `0..n`. */
  function Ordered(gs: seq<Pos>, er: seq<int>, ec: seq<int>, f: int, m: nat, n: nat): int
  {
    if m == 0 then 0 else Ordered(gs, er, ec, f, m - 1, n) + RowSum(gs, er, ec, f, m - 1, n)
  }

  /** The distances of galaxy `j` to every galaxy before it. */
  function Earlier(gs: seq<Pos>, er: seq<int>, ec: seq<int>, f: int, j: nat, i: nat): int
  {
    if i == 0 then 0 else Earlier(gs, er, ec, f, j, i - 1) + D(gs, er, ec, f, i - 1, j)
  }

  /** The sum over unordered pairs of galaxies among `0..n`: each pair counted once. */
  function Pairs(gs: seq<Pos>, er: seq<int>, ec: seq<int>, f: int, n: nat): int
  {
    if n == 0 then 0 else Pairs(gs, er, ec, f, n - 1) + Earlier(gs, er, ec, f, n - 1, n - 1)
  }

  /** A row of distances to `0..n` grows by the distance to `n` (when that is not itself). */
  lemma {:induction false} RowSumsExtend(gs: seq<Pos>, er: seq<int>, ec: seq<int>, f: int, m: nat, n: nat)
    requires m <= n
    ensures Ordered(gs, er, ec, f, m, n + 1) == Ordered(gs, er, ec, f, m, n) + Earlier(gs, er, ec, f, n, m)
  {
    if m > 0 {
      RowSumsExtend(gs, er, ec, f, m - 1, n);
      var d := D(gs, er, ec, f, m - 1, n);
      assert RowSum(gs, er, ec, f, m - 1, n + 1) == RowSum(gs, er, ec, f, m - 1, n) + d;
      assert Earlier(gs, er, ec, f, n, m) == Earlier(gs, er, ec, f, n, m - 1) + d;
    }
  }

  /** The distances of galaxy `j` before it, read along its own row. */
  lemma {:induction false} EarlierIsRow(gs: seq<Pos>, er: seq<int>, ec: seq<int>, f: int, j: nat, i: nat)
    requires i <= j
    ensures RowSum(gs, er, ec, f, j, i) == Earlier(gs, er, ec, f, j, i)
  {
    if i > 0 {
      EarlierIsRow(gs, er, ec, f, j, i - 1);
      if i - 1 < |gs| && j < |gs| {
        DistanceSymmetric(gs[i - 1], gs[j], er, ec, f);
      }
    }
  }

  /** Counting every ordered pair counts each unordered pair twice: halving the total is exact. */
  lemma {:induction false} OrderedIsTwicePairs(gs: seq<Pos>, er: seq<int>, ec: seq<int>, f: int, n: nat)
    ensures Ordered(gs, er, ec, f, n, n) == 2 * Pairs(gs, er, ec, f, n)
  {
    if n > 0 {
      OrderedIsTwicePairs(gs, er, ec, f, n - 1);
      RowSumsExtend(gs, er, ec, f, n - 1, n - 1);
      EarlierIsRow(gs, er, ec, f, n - 1, n - 1);
    }
  }

  /** The inner `forEach`: the distances of galaxy `i` to every other galaxy. */
  method DistancesFrom(gs: seq<Pos>, emptyRows: seq<int>, emptyCols: seq<int>, factor: int, i: nat) returns (total: int)
    requires i < |gs|
    ensures total == RowSum(gs, emptyRows, emptyCols, factor, i, |gs|)
  {
    total := 0;
    for k := 0 to |gs|
      invariant total == RowSum(gs, emptyRows, emptyCols, factor, i, k)
    {
      if i != k {
        total := total + Distance(gs[i], gs[k], emptyRows, emptyCols, factor);
      }
    }
  }

  /**
   * `calculateSumOfDistances`: every ordered pair of different galaxies adds its distance, and
   * the total is halved. The total is even, so the result is the sum over unordered pairs.
   */
  method SumOfDistances(gs: seq<Pos>, emptyRows: seq<int>, emptyCols: seq<int>, factor: int) returns (r: int)
    ensures r == Pairs(gs, emptyRows, emptyCols, factor, |gs|)
  {
    var total := 0;
    for i := 0 to |gs|
      invariant total == Ordered(gs, emptyRows, emptyCols, factor, i, |gs|)
    {
      var row := DistancesFrom(gs, emptyRows, emptyCols, factor, i);
      total := total + row;
    }
    OrderedIsTwicePairs(gs, emptyRows, emptyCols, factor, |gs|);
    r := total / 2;
  }

  /** What `parseInput` returns. */
  datatype Image = Image(galaxies: seq<Pos>, emptyRows: seq<int>, emptyCols: seq<int>)

  /** `parseInput`: the empty rows and columns and the galaxies; `from2DArray` throws on an empty image. */
  method ParseInput(lines: seq<string>) returns (r: Result<Image>)
    ensures r.Failure? <==> Rows(lines) == []
    ensures r.Failure? ==> r.error == "Invalid input dimensions"
    ensures r.Success? ==> r.value.galaxies == GalaxiesFrom(Rows(lines), 0)
    ensures r.Success? ==> forall i :: i in r.value.emptyRows <==> 0 <= i < |Rows(lines)| && EmptyRow(Rows(lines)[i])
    ensures r.Success? ==> forall c :: c in r.value.emptyCols <==> 0 <= c < |Rows(lines)[0]| && EmptyCol(Rows(lines), c)
  {
    var rows := Rows(lines);
    var emptyRows := EmptyRows(rows);
    var emptyCols := EmptyCols(rows);
    if rows == [] {
      return Failure("Invalid input dimensions");
    }
    assert rows[0] in rows;
    return Success(Image(GalaxiesFrom(rows, 0), emptyRows, emptyCols));
  }

  /** `part1`: empty rows and columns count twice. */
  method Part1(image: Image) returns (r: int)
    ensures r == Pairs(image.galaxies, image.emptyRows, image.emptyCols, 2, |image.galaxies|)
  {
    r := SumOfDistances(image.galaxies, image.emptyRows, image.emptyCols, 2);
  }

  /** `part2`: empty rows and columns count a million times. */
  method Part2(image: Image) returns (r: int)
    ensures r == Pairs(image.galaxies, image.emptyRows, image.emptyCols, 1000000, |image.galaxies|)
  {
    r := SumOfDistances(image.galaxies, image.emptyRows, image.emptyCols, 1000000);
  }
}
