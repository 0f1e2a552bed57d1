/**
 * Day 13: patterns of ash '.' and rocks '#'. A vertical line of reflection after column `k`
 * mirrors the columns on either side out to the nearer edge; a horizontal one does the same
 * with rows. In part 2 exactly one cell is a smudge: flipping it gives a new line.
 */
module Day13 {
  import opened Wrappers
  import Text
  import Grid

  /** A row of the grid: the cells `undefined` past the end of a short input line are `None`. */
  type Line = seq<Option<char>>

  /** `SymbolFlips`. */
  function FlipSymbol(s: char): char
  {
    if s == '.' then '#' else '.'
  }

  lemma FlipTwice(s: char)
    requires s == '.' || s == '#'
    ensures FlipSymbol(s) != s && FlipSymbol(FlipSymbol(s)) == s
  {
  }

  /** `getColumn(x)`: the cell at column `x` of every row. */
  function Column(cells: seq<Line>, x: int): (col: Line)
    ensures |col| == |cells|
  {
    seq(|cells|, r requires 0 <= r < |cells| => if 0 <= x < |cells[r]| then cells[r][x] else None)
  }

  /** The columns `0..width`, left to right. */
  function Columns(cells: seq<Line>, width: nat): (cols: seq<Line>)
    ensures |cols| == width
    ensures forall x :: 0 <= x < width ==> cols[x] == Column(cells, x)
  {
    seq(width, x requires 0 <= x < width => Column(cells, x))
  }

  /** The lines after the first `k` mirror the `k` before them out to the nearer edge. */
  predicate Mirrors(lines: seq<Line>, k: int)
    requires 0 <= k <= |lines|
  {
    forall d :: 1 <= d <= k && k + d - 1 < |lines| ==> Agree(lines, k, d)
  }

  /** The `d`-th line before the candidate `k` equals the `d`-th line after it. */
  predicate Agree(lines: seq<Line>, k: int, d: int)
    requires 1 <= d <= k && k + d - 1 < |lines|
  {
    lines[k - d] == lines[k + d - 1]
  }

  /**
   * The first `k` in `from..|lines|` that is not ignored and after which the lines mirror, or 0.
   */
  function FirstMirror(lines: seq<Line>, ignore: seq<int>, from: nat): (k: nat)
    requires from >= 1
    ensures k == 0 || from <= k < |lines|
    decreases |lines| - from
  {
    if from >= |lines| then 0
    else if from !in ignore && Mirrors(lines, from) then from
    else FirstMirror(lines, ignore, from + 1)
  }

  /** The line found is not ignored and mirrors, and no earlier candidate does; 0 means none does. */
  lemma {:induction false} FirstMirrorSpec(lines: seq<Line>, ignore: seq<int>, from: nat)
    requires from >= 1
    ensures var k := FirstMirror(lines, ignore, from);
      && (k == 0 || (k !in ignore && Mirrors(lines, k)))
      && forall j :: from <= j < |lines| && j !in ignore && (k == 0 || j < k) ==> !Mirrors(lines, j)
    decreases |lines| - from
  {
    if from < |lines| && !(from !in ignore && Mirrors(lines, from)) {
      FirstMirrorSpec(lines, ignore, from + 1);
    }
  }

  /** The inner loop: compare the lines `d` before and after the candidate, nearest first. */
  method IsReflected(lines: seq<Line>, k: nat) returns (reflected: bool)
    requires 1 <= k < |lines|
    ensures reflected == Mirrors(lines, k)
  {
    var maxD := if k <= |lines| - k then k else |lines| - k;
    reflected := true;
    var d := 1;
    while d <= maxD
      invariant 1 <= d <= maxD + 1
      invariant forall e :: 1 <= e < d ==> Agree(lines, k, e)
      decreases maxD - d
    {
      if lines[k - d] != lines[k + d - 1] {
        assert !Agree(lines, k, d);
        reflected := false;
        return;
      }
      d := d + 1;
    }
  }

  /**
   * `getVerticalLinesOfReflection` on the columns, `getHorizontalLinesOfReflection` on the rows:
   * the first line of reflection not in `ignore`, 0 when there is none.
   */
  method LineOfReflection(lines: seq<Line>, ignore: seq<int>) returns (k: nat)
    ensures k == FirstMirror(lines, ignore, 1)
  {
    var n := 1;
    while n < |lines|
      invariant 1 <= n && (n <= |lines| || |lines| == 0)
      invariant FirstMirror(lines, ignore, n) == FirstMirror(lines, ignore, 1)
      decreases |lines| - n
    {
      if n !in ignore {
        var reflected := IsReflected(lines, n);
        if reflected {
          return n;
        }
      }
      n := n + 1;
    }
    return 0;
  }

  /** The line found is the first of all that is not ignored: below `width`, and 0 only when there is none. */
  lemma FirstMirrorExactly(lines: seq<Line>, ignore: seq<int>)
    ensures FirstMirror(lines, ignore, 1) < |lines| || FirstMirror(lines, ignore, 1) == 0
    ensures FirstMirror(lines, ignore, 1) !in ignore || FirstMirror(lines, ignore, 1) == 0
    ensures FirstMirror(lines, ignore, 1) == 0 <==> forall j :: 1 <= j < |lines| && j !in ignore ==> !Mirrors(lines, j)
  {
    FirstMirrorSpec(lines, ignore, 1);
  }

  /** `ignore` only ever removes the lines it names. */
  lemma {:induction false} IgnoreOne(lines: seq<Line>, v: nat, from: nat)
    requires from >= 1 && FirstMirror(lines, [], from) != v
    ensures FirstMirror(lines, [v], from) == FirstMirror(lines, [], from)
    decreases |lines| - from
  {
    if from < |lines| && !Mirrors(lines, from) {
      IgnoreOne(lines, v, from + 1);
    }
  }

  /**
   * A pattern: the padded grid of nodes, each with its current and initial symbol.
   */
  class Pattern {
    var cells: seq<Line>
    const initial: seq<Line>
    const width: nat
    const height: nat

    /** Every row is `width` wide, every node is ash or rock, and the nodes are where they were. */
    ghost predicate Valid()
      reads this
    {
      && |cells| == height && |initial| == height
      && (forall r :: 0 <= r < height ==> |cells[r]| == width && |initial[r]| == width)
      && (forall r, c :: 0 <= r < height && 0 <= c < width ==> (cells[r][c].Some? <==> initial[r][c].Some?))
      && (forall r, c :: 0 <= r < height && 0 <= c < width && initial[r][c].Some? ==> initial[r][c].value in ".#")
      && (forall r, c :: 0 <= r < height && 0 <= c < width && cells[r][c].Some? ==> cells[r][c].value in ".#")
    }

    constructor(rows: seq<Line>, width: nat)
      requires forall r :: 0 <= r < |rows| ==> |rows[r]| == width
      requires forall r, c :: 0 <= r < |rows| && 0 <= c < width && rows[r][c].Some? ==> rows[r][c].value in ".#"
      ensures Valid() && cells == rows && initial == rows && this.width == width && height == |rows|
    {
      cells := rows;
      initial := rows;
      this.width := width;
      height := |rows|;
    }

    /** `node.isFlipped`. */
    predicate IsFlipped(r: nat, c: nat)
      reads this
      requires Valid() && r < height && c < width
    {
      cells[r][c] != initial[r][c]
    }

    /** `node.flip()` on the node at `(r, c)`. */
    method Flip(r: nat, c: nat)
      requires Valid() && r < height && c < width && cells[r][c].Some?
      modifies this
      ensures Valid()
      ensures cells == old(cells)[r := old(cells)[r][c := Some(FlipSymbol(old(cells)[r][c].value))]]
      ensures IsFlipped(r, c) <==> !old(IsFlipped(r, c))
    {
      cells := cells[r := cells[r][c := Some(FlipSymbol(cells[r][c].value))]];
    }

    /** `node.reset()` on the node at `(r, c)`. */
    method Reset(r: nat, c: nat)
      requires Valid() && r < height && c < width
      modifies this
      ensures Valid() && !IsFlipped(r, c)
      ensures cells == old(cells)[r := old(cells)[r][c := initial[r][c]]]
    {
      cells := cells[r := cells[r][c := initial[r][c]]];
    }
  }

  /** Flipping a node and resetting it restores the pattern; flipping it twice does too. */
  lemma FlipReset(cells: seq<Line>, initial: seq<Line>, r: nat, c: nat)
    requires r < |cells| && c < |cells[r]| && cells[r][c].Some? && cells[r][c].value in ".#"
    requires r < |initial| && c < |initial[r]| && cells[r][c] == initial[r][c]
    ensures var flipped := cells[r := cells[r][c := Some(FlipSymbol(cells[r][c].value))]];
      && flipped[r][c] != initial[r][c]
      && flipped[r := flipped[r][c := initial[r][c]]] == cells
      && flipped[r := flipped[r][c := Some(FlipSymbol(flipped[r][c].value))]] == cells
  {
    var flipped := cells[r := cells[r][c := Some(FlipSymbol(cells[r][c].value))]];
    assert flipped[r][c := initial[r][c]] == cells[r];
    assert flipped[r][c := Some(FlipSymbol(flipped[r][c].value))] == cells[r];
  }

  /** `part1` for one pattern: the vertical line plus 100 times the horizontal line. */
  method Summary(p: Pattern) returns (s: nat)
    requires p.Valid()
    ensures s == FirstMirror(Columns(p.cells, p.width), [], 1) + 100 * FirstMirror(p.cells, [], 1)
  {
    var v := LineOfReflection(Columns(p.cells, p.width), []);
    var h := LineOfReflection(p.cells, []);
    s := v + 100 * h;
  }

  /** The pattern with the node at `(r, c)` flipped. */
  function Flipped(cells: seq<Line>, r: nat, c: nat): seq<Line>
    requires r < |cells| && c < |cells[r]| && cells[r][c].Some?
  {
    cells[r := cells[r][c := Some(FlipSymbol(cells[r][c].value))]]
  }

  /** The lines to ignore: the original one, if there is one. */
  function Ignoring(k: nat): seq<int>
  {
    if k > 0 then [k] else []
  }

  /**
   * What `part2` returns after flipping the node at `(r, c)` of a pattern whose original lines
   * are `v0` and `h0`: a new vertical line, else 100 times a new horizontal line, else nothing.
   */
  function Smudged(cells: seq<Line>, width: nat, r: nat, c: nat, v0: nat, h0: nat): Option<nat>
    requires r < |cells| && c < |cells[r]| && cells[r][c].Some?
  {
    var flipped := Flipped(cells, r, c);
    var v := FirstMirror(Columns(flipped, width), Ignoring(v0), 1);
    var h := FirstMirror(flipped, Ignoring(h0), 1);
    if v != 0 && (h0 > 0 || v != v0) then Some(v)
    else if h != 0 && (v0 > 0 || h != h0) then Some(h * 100)
    else None
  }

  /** A smudge gives a line of reflection of the flipped pattern other than the original line. */
  lemma SmudgedIsNew(cells: seq<Line>, width: nat, r: nat, c: nat, v0: nat, h0: nat, x: nat)
    requires r < |cells| && c < |cells[r]| && cells[r][c].Some?
    requires Smudged(cells, width, r, c, v0, h0) == Some(x)
    ensures var flipped := Flipped(cells, r, c);
      || (0 < x < width && x != v0 && Mirrors(Columns(flipped, width), x))
      || (x % 100 == 0 && 0 < x / 100 < |cells| && x / 100 != h0 && Mirrors(flipped, x / 100))
  {
    var flipped := Flipped(cells, r, c);
    FirstMirrorSpec(Columns(flipped, width), Ignoring(v0), 1);
    FirstMirrorSpec(flipped, Ignoring(h0), 1);
  }

  /** The search of `part2` over the cells from `(r, c)` on, in row-major order; `None` means it throws. */
  function Search(cells: seq<Line>, width: nat, v0: nat, h0: nat, r: nat, c: nat): Option<nat>
    requires forall i :: 0 <= i < |cells| ==> |cells[i]| == width
    decreases |cells| - r, width - c
  {
    if r >= |cells| then None
    else if c >= width then Search(cells, width, v0, h0, r + 1, 0)
    else if cells[r][c].Some? && Smudged(cells, width, r, c, v0, h0).Some? then Smudged(cells, width, r, c, v0, h0)
    else Search(cells, width, v0, h0, r, c + 1)
  }

  /** Flipping the node at `(i, j)` gives `x`. */
  predicate FoundAt(cells: seq<Line>, width: nat, v0: nat, h0: nat, i: int, j: int, x: Option<nat>)
  {
    0 <= i < |cells| && 0 <= j < |cells[i]| && cells[i][j].Some? && Smudged(cells, width, i, j, v0, h0) == x
  }

  /** What the search finds comes from some node. */
  lemma {:induction false} SearchFinds(cells: seq<Line>, width: nat, v0: nat, h0: nat, r: nat, c: nat)
    requires forall i :: 0 <= i < |cells| ==> |cells[i]| == width
    requires Search(cells, width, v0, h0, r, c).Some?
    ensures exists i, j :: FoundAt(cells, width, v0, h0, i, j, Search(cells, width, v0, h0, r, c))
    decreases |cells| - r, width - c
  {
    if c >= width {
      SearchFinds(cells, width, v0, h0, r + 1, 0);
    } else if !(cells[r][c].Some? && Smudged(cells, width, r, c, v0, h0).Some?) {
      SearchFinds(cells, width, v0, h0, r, c + 1);
    } else {
      assert FoundAt(cells, width, v0, h0, r, c, Search(cells, width, v0, h0, r, c));
    }
  }

  /**
   * `part2` for one pattern: flip every node in turn, resetting it before moving on or
   * returning; throw when no flip gives a new line.
   */
  method Unsmudge(p: Pattern, ghost shape: (seq<Line>, nat)) returns (result: Result<nat>)
    requires p.Valid() && p.cells == p.initial && shape == (p.cells, p.width)
    modifies p
    ensures p.Valid() && p.cells == old(p.cells)
    ensures Rectangular(shape) && result == Thrown(Unsmudged(shape))
  {
    var v0 := LineOfReflection(Columns(p.cells, p.width), []);
    var h0 := LineOfReflection(p.cells, []);
    var row := 0;
    while row < p.height
      invariant p.Valid() && p.cells == p.initial == old(p.cells)
      invariant row <= p.height
      invariant Search(p.cells, p.width, v0, h0, 0, 0) == Search(p.cells, p.width, v0, h0, row, 0)
      decreases p.height - row
    {
      var found := SearchRow(p, row, v0, h0);
      if found.Some? {
        return Success(found.value);
      }
      row := row + 1;
    }
    return Failure("No new reflection found");
  }

  /** The inner loop of `part2`: flip the nodes of one row in turn. */
  method SearchRow(p: Pattern, row: nat, v0: nat, h0: nat) returns (found: Option<nat>)
    requires p.Valid() && p.cells == p.initial && row < p.height
    modifies p
    ensures p.Valid() && p.cells == old(p.cells)
    ensures found.Some? ==> found == Search(p.cells, p.width, v0, h0, row, 0)
    ensures found.None? ==> Search(p.cells, p.width, v0, h0, row, 0) == Search(p.cells, p.width, v0, h0, row + 1, 0)
  {
    var col := 0;
    while col < p.width
      invariant p.Valid() && p.cells == p.initial == old(p.cells)
      invariant col <= p.width
      invariant Search(p.cells, p.width, v0, h0, row, 0) == Search(p.cells, p.width, v0, h0, row, col)
      decreases p.width - col
    {
      if p.cells[row][col].Some? {
        found := TryFlip(p, row, col, v0, h0);
        if found.Some? {
          return;
        }
      }
      col := col + 1;
    }
    return None;
  }

  /** One step of `part2`: flip the node, look for new lines, reset the node. */
  method TryFlip(p: Pattern, row: nat, col: nat, v0: nat, h0: nat) returns (found: Option<nat>)
    requires p.Valid() && row < p.height && col < p.width && p.cells[row][col].Some?
    requires p.cells[row][col] == p.initial[row][col]
    modifies p
    ensures p.Valid() && p.cells == old(p.cells)
    ensures found == Smudged(p.cells, p.width, row, col, v0, h0)
  {
    ghost var cells0 := p.cells;
    p.Flip(row, col);
    assert p.cells == Flipped(cells0, row, col);
    var v := LineOfReflection(Columns(p.cells, p.width), Ignoring(v0));
    var h := LineOfReflection(p.cells, Ignoring(h0));
    FlipReset(cells0, p.initial, row, col);
    if v != 0 && (h0 > 0 || v != v0) {
      p.Reset(row, col);
      return Some(v);
    }
    if h != 0 && (v0 > 0 || h != h0) {
      p.Reset(row, col);
      return Some(h * 100);
    }
    p.Reset(row, col);
    return None;
  }

  /** The input split at its empty lines into groups of non-empty lines, empty groups dropped. */
  function Groups(lines: seq<string>, current: seq<string>): (gs: seq<seq<string>>)
    ensures forall g :: g in gs ==> |g| > 0 && forall l :: l in g ==> l != ""
    requires forall l :: l in current ==> l != ""
    decreases |lines|
  {
    if |lines| == 0 then (if |current| > 0 then [current] else [])
    else if lines[0] == "" then (if |current| > 0 then [current] else []) + Groups(lines[1..], [])
    else Groups(lines[1..], current + [lines[0]])
  }

  /** The concatenation of a sequence of sequences. */
  function Flatten<T>(gs: seq<seq<T>>): seq<T>
  {
    if |gs| == 0 then [] else gs[0] + Flatten(gs[1..])
  }

  lemma {:induction false} FlattenAppend<T>(a: seq<seq<T>>, b: seq<seq<T>>)
    ensures Flatten(a + b) == Flatten(a) + Flatten(b)
  {
    if |a| > 0 {
      assert (a + b)[0] == a[0];
      assert (a + b)[1..] == a[1..] + b;
      FlattenAppend(a[1..], b);
      calc {
        Flatten(a + b);
        a[0] + Flatten(a[1..] + b);
        a[0] + (Flatten(a[1..]) + Flatten(b));
        (a[0] + Flatten(a[1..])) + Flatten(b);
      }
    } else {
      assert a + b == b;
    }
  }

  /** Grouping neither loses, reorders nor invents a line: the groups concatenate to the non-empty lines. */
  lemma {:induction false} GroupsKeepLines(lines: seq<string>, current: seq<string>)
    requires forall l :: l in current ==> l != ""
    ensures Flatten(Groups(lines, current)) == current + Text.NonEmpty(lines)
    decreases |lines|
  {
    if |lines| == 0 {
    } else if lines[0] == "" {
      var head := if |current| > 0 then [current] else [];
      GroupsKeepLines(lines[1..], []);
      FlattenAppend(head, Groups(lines[1..], []));
      assert Flatten(head) == current by {
        if |current| > 0 {
          assert head[1..] == [];
        }
      }
    } else {
      GroupsKeepLines(lines[1..], current + [lines[0]]);
    }
  }

  /** The row of nodes for `line`: one per character, `None` past its end up to `width`. */
  function Padded(line: string, width: nat): (row: Line)
    ensures |row| == width
  {
    seq(width, c requires 0 <= c < width => if c < |line| then Some(line[c]) else None)
  }

  /** The first character in row-major order that is neither ash nor rock. */
  function FirstInvalid(group: seq<string>): (bad: Option<char>)
    ensures bad.None? <==> forall r, c :: 0 <= r < |group| && 0 <= c < |group[r]| ==> group[r][c] in ".#"
    ensures bad.Some? ==> bad.value !in ".#"
  {
    if |group| == 0 then None
    else if exists c :: 0 <= c < |group[0]| && group[0][c] !in ".#" then
      var c := FirstBad(group[0], 0);
      Some(group[0][c])
    else
      var rest := FirstInvalid(group[1..]);
      assert forall r, c :: 1 <= r < |group| && 0 <= c < |group[r]| ==> group[r][c] == group[1..][r - 1][c];
      rest
  }

  /** The index of the first character of `line` from `from` on that is neither ash nor rock. */
  function FirstBad(line: string, from: nat): (c: nat)
    requires exists c :: from <= c < |line| && line[c] !in ".#"
    ensures from <= c < |line| && line[c] !in ".#"
    ensures forall j :: from <= j < c ==> line[j] in ".#"
    decreases |line| - from
  {
    if line[from] !in ".#" then from else FirstBad(line, from + 1)
  }

  /** `built` holds the rows of `group`, padded to its widest line, which is `built.1`. */
  predicate BuiltFrom(group: seq<string>, built: (seq<Line>, nat))
  {
    && FirstInvalid(group).None?
    && built.1 == Grid.MaxWidth(group) && |built.0| == |group|
    && forall j :: 0 <= j < |group| ==> built.0[j] == Padded(group[j], built.1)
  }

  /** What `parseInput` yields: the padded rows and width of every pattern, or the first invalid symbol. */
  function Patterns(groups: seq<seq<string>>): (r: Result<seq<(seq<Line>, nat)>>)
    ensures r.Success? ==> |r.value| == |groups|
    ensures r.Success? ==> forall i :: 0 <= i < |groups| ==> BuiltFrom(groups[i], r.value[i])
    ensures r.Failure? <==> exists i :: 0 <= i < |groups| && FirstInvalid(groups[i]).Some?
  {
    if |groups| == 0 then Success([])
    else
      var bad := FirstInvalid(groups[0]);
      if bad.Some? then Failure("Invalid symbol: " + [bad.value])
      else
        var width := Grid.MaxWidth(groups[0]);
        var rows := seq(|groups[0]|, j requires 0 <= j < |groups[0]| => Padded(groups[0][j], width));
        var rest := Patterns(groups[1..]);
        if rest.Failure? then Failure(rest.error) else Success([(rows, width)] + rest.value)
  }

  /** Parsing builds one valid pattern per group, as `Patterns` describes. */
  method ParseInput(lines: seq<string>) returns (r: Result<seq<Pattern>>)
    ensures var expected := Patterns(Groups(lines, []));
      && (r.Failure? <==> expected.Failure?)
      && (r.Failure? ==> r.error == expected.error)
      && (r.Success? ==> |r.value| == |expected.value| && forall i :: 0 <= i < |r.value| ==>
        && fresh(r.value[i]) && r.value[i].Valid()
        && r.value[i].cells == expected.value[i].0 && r.value[i].width == expected.value[i].1)
  {
    var groups := Groups(lines, []);
    var expected := Patterns(groups);
    if expected.Failure? {
      return Failure(expected.error);
    }
    forall i | 0 <= i < |expected.value|
      ensures Drawable(expected.value[i])
    {
      PatternsAreValid(groups, i);
    }
    var patterns := Build(expected.value);
    return Success(patterns);
  }

  /** One new pattern per parsed group. */
  method Build(built: seq<(seq<Line>, nat)>) returns (patterns: seq<Pattern>)
    requires forall i :: 0 <= i < |built| ==> Drawable(built[i])
    ensures |patterns| == |built|
    ensures forall i :: 0 <= i < |patterns| ==> (fresh(patterns[i]) && patterns[i].Valid()
      && patterns[i].cells == built[i].0 && patterns[i].width == built[i].1)
  {
    patterns := [];
    for i := 0 to |built|
      invariant |patterns| == i
      invariant forall j :: 0 <= j < i ==> (fresh(patterns[j]) && patterns[j].Valid()
        && patterns[j].cells == built[j].0 && patterns[j].width == built[j].1)
    {
      var p := new Pattern(built[i].0, built[i].1);
      patterns := patterns + [p];
    }
  }

  /** The rows are all `width` wide and hold only ash and rock. */
  predicate Drawable(shape: (seq<Line>, nat))
  {
    && (forall r :: 0 <= r < |shape.0| ==> |shape.0[r]| == shape.1)
    && (forall r, c :: 0 <= r < |shape.0| && 0 <= c < shape.1 && shape.0[r][c].Some? ==> shape.0[r][c].value in ".#")
  }

  /** Every parsed pattern is a rectangle of ash and rock. */
  lemma PatternsAreValid(groups: seq<seq<string>>, i: nat)
    requires Patterns(groups).Success? && i < |groups|
    ensures Drawable(Patterns(groups).value[i])
  {
    var rows: seq<Line>, width: nat := Patterns(groups).value[i].0, Patterns(groups).value[i].1;
    forall r, c | 0 <= r < |rows| && 0 <= c < width && rows[r][c].Some?
      ensures rows[r][c].value in ".#"
    {
      assert rows[r] == Padded(groups[i][r], width);
      assert FirstInvalid(groups[i]).None?;
    }
  }

  /** `part1` of one pattern, on its rows. */
  function Summarized(cells: seq<Line>, width: nat): nat
  {
    FirstMirror(Columns(cells, width), [], 1) + 100 * FirstMirror(cells, [], 1)
  }

  /** The rows and width of each pattern. */
  ghost function Shapes(patterns: seq<Pattern>): (shapes: seq<(seq<Line>, nat)>)
    reads set p | p in patterns
    ensures |shapes| == |patterns|
    ensures forall i :: 0 <= i < |patterns| ==> shapes[i] == (patterns[i].cells, patterns[i].width)
  {
    seq(|patterns|, i reads set p | p in patterns requires 0 <= i < |patterns| => (patterns[i].cells, patterns[i].width))
  }

  /** Every row of the pattern is `width` wide. */
  predicate Rectangular(shape: (seq<Line>, nat))
  {
    forall i :: 0 <= i < |shape.0| ==> |shape.0[i]| == shape.1
  }

  /** `part1` over all patterns. */
  function Total1(shapes: seq<(seq<Line>, nat)>): nat
  {
    if |shapes| == 0 then 0
    else Total1(shapes[..|shapes| - 1]) + Summarized(shapes[|shapes| - 1].0, shapes[|shapes| - 1].1)
  }

  /** What `part2` gives for one pattern: the first new reflection over its nodes in row-major order. */
  function Unsmudged(shape: (seq<Line>, nat)): Option<nat>
    requires Rectangular(shape)
  {
    var (cells, width) := shape;
    Search(cells, width, FirstMirror(Columns(cells, width), [], 1), FirstMirror(cells, [], 1), 0, 0)
  }

  /** A pattern's outcome as `part2` reports it: its value, or the error it throws. */
  function Thrown(outcome: Option<nat>): (r: Result<nat>)
    ensures r.Success? <==> outcome.Some?
    ensures r.Success? ==> r.value == outcome.value
    ensures r.Failure? ==> r.error == "No new reflection found"
  {
    match outcome
    case None => Failure("No new reflection found")
    case Some(x) => Success(x)
  }

  /** What `part2` gives for each pattern. */
  function Outcomes(shapes: seq<(seq<Line>, nat)>): (outcomes: seq<Option<nat>>)
    requires forall i :: 0 <= i < |shapes| ==> Rectangular(shapes[i])
    ensures |outcomes| == |shapes|
  {
    if |shapes| == 0 then []
    else Outcomes(shapes[..|shapes| - 1]) + [Unsmudged(shapes[|shapes| - 1])]
  }

  /** The outcome of each pattern in its place. */
  lemma {:induction false} OutcomesAt(shapes: seq<(seq<Line>, nat)>, i: nat)
    requires forall i :: 0 <= i < |shapes| ==> Rectangular(shapes[i])
    requires i < |shapes|
    ensures Outcomes(shapes)[i] == Unsmudged(shapes[i])
  {
    if i < |shapes| - 1 {
      var pre := shapes[..|shapes| - 1];
      OutcomesAt(pre, i);
      assert pre[i] == shapes[i];
    }
  }

  /** The outcomes added up in order, or the error of the first pattern without a new line. */
  function AddUp(outcomes: seq<Option<nat>>): (r: Result<nat>)
    ensures r.Failure? ==> r.error == "No new reflection found"
  {
    if |outcomes| == 0 then Success(0)
    else
      var pre := AddUp(outcomes[..|outcomes| - 1]);
      if pre.Failure? then pre
      else match outcomes[|outcomes| - 1]
        case None => Failure("No new reflection found")
        case Some(x) => Success(pre.value + x)
  }

  /** `part2` over all patterns. */
  function Total2(shapes: seq<(seq<Line>, nat)>): Result<nat>
    requires forall i :: 0 <= i < |shapes| ==> Rectangular(shapes[i])
  {
    AddUp(Outcomes(shapes))
  }

  /** `part1`: the summaries of all patterns added up. */
  method Part1(patterns: seq<Pattern>) returns (total: nat)
    requires forall i :: 0 <= i < |patterns| ==> patterns[i].Valid()
    ensures total == Total1(Shapes(patterns))
  {
    total := 0;
    for i := 0 to |patterns|
      invariant total == Total1(Shapes(patterns)[..i])
    {
      var s := Summary(patterns[i]);
      assert Shapes(patterns)[..i + 1][..i] == Shapes(patterns)[..i];
      total := total + s;
    }
    assert Shapes(patterns)[..|patterns|] == Shapes(patterns);
  }

  /** `part2`: the new reflections of all patterns added up, leaving every pattern as it was. */
  method Part2(patterns: seq<Pattern>) returns (total: Result<nat>)
    requires forall i :: 0 <= i < |patterns| ==> patterns[i].Valid() && patterns[i].cells == patterns[i].initial
    modifies set p | p in patterns
    ensures forall i :: 0 <= i < |patterns| ==> patterns[i].Valid() && patterns[i].cells == old(patterns[i].cells)
    ensures forall i :: 0 <= i < |patterns| ==> Rectangular(old(Shapes(patterns))[i])
    ensures total == Total2(old(Shapes(patterns)))
  {
    ghost var shapes := Shapes(patterns);
    assert forall j :: 0 <= j < |shapes| ==> Rectangular(shapes[j]) by {
      forall j | 0 <= j < |shapes| ensures Rectangular(shapes[j]) {
        assert patterns[j].Valid();
      }
    }
    ghost var outcomes := Outcomes(shapes);
    var sum := 0;
    for i := 0 to |patterns|
      invariant forall j :: 0 <= j < |patterns| ==> patterns[j].Valid() && patterns[j].cells == patterns[j].initial == old(patterns[j].cells)
      invariant forall j :: 0 <= j < |shapes| ==> shapes[j] == (patterns[j].cells, patterns[j].width)
      invariant AddUp(outcomes[..i]) == Success(sum)
    {
      var x := Unsmudge(patterns[i], shapes[i]);
      OutcomesAt(shapes, i);
      AddUpStep(outcomes, i, sum, x);
      if x.Failure? {
        return x;
      }
      sum := sum + x.value;
    }
    assert outcomes[..|patterns|] == outcomes;
    return Success(sum);
  }

  /** `part2` throws exactly when some pattern has no new line of reflection. */
  lemma {:induction false} AddUpFails(outcomes: seq<Option<nat>>)
    ensures AddUp(outcomes).Failure? <==> None in outcomes
  {
    if |outcomes| > 0 {
      var pre := outcomes[..|outcomes| - 1];
      AddUpFails(pre);
      assert outcomes == pre + [outcomes[|outcomes| - 1]];
    }
  }

  /** `part2` succeeds exactly when every pattern has a new line of reflection. */
  lemma Total2Fails(shapes: seq<(seq<Line>, nat)>)
    requires forall i :: 0 <= i < |shapes| ==> Rectangular(shapes[i])
    ensures Total2(shapes).Failure? <==> exists i :: 0 <= i < |shapes| && Unsmudged(shapes[i]).None?
  {
    AddUpFails(Outcomes(shapes));
    forall i | 0 <= i < |shapes|
      ensures Outcomes(shapes)[i] == Unsmudged(shapes[i])
    {
      OutcomesAt(shapes, i);
    }
  }

  /** Adding up one more outcome: its value joins the sum, or its error is the result. */
  lemma AddUpStep(outcomes: seq<Option<nat>>, i: nat, sum: nat, x: Result<nat>)
    requires i < |outcomes| && AddUp(outcomes[..i]) == Success(sum) && x == Thrown(outcomes[i])
    ensures x.Success? ==> AddUp(outcomes[..i + 1]) == Success(sum + x.value)
    ensures x.Failure? ==> AddUp(outcomes) == x
  {
    assert outcomes[..i + 1][..i] == outcomes[..i];
    if x.Failure? {
      PrefixFails(outcomes, i + 1);
    }
  }

  /** Once a prefix of the patterns fails, so do all of them. */
  lemma {:induction false} PrefixFails(outcomes: seq<Option<nat>>, n: nat)
    requires n <= |outcomes| && AddUp(outcomes[..n]).Failure?
    ensures AddUp(outcomes) == AddUp(outcomes[..n])
    decreases |outcomes| - n
  {
    if n < |outcomes| {
      var longer := outcomes[..n + 1];
      assert longer[..n] == outcomes[..n];
      PrefixFails(outcomes, n + 1);
    } else {
      assert outcomes[..n] == outcomes;
    }
  }
}
