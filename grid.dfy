/**
 * `Grid<T>`: a 2-D array of rows with a row and column offset (`minY`, `minX`).
 * A cell holds a value or JavaScript's `undefined` (`None`). A write past the end of a row
 * or below the last row grows the array; the cells it skips read as `undefined`, but inside
 * a row they are holes: positions no element was stored at, which `forEach`, `reduce`,
 * `filter` and `map` skip and `join` renders as `""`. A skipped row holds no cells at all.
 */
module Grid {
  import opened Wrappers

  type Rows<T> = seq<seq<Option<T>>>

  /** `Grid.orthogonalNeighbors`: `[rowDiff, colDiff]` pairs. */
  function OrthogonalOffsets(): seq<(int, int)>
  {
    [(0, 1), (0, -1), (1, 0), (-1, 0)]
  }

  /** `Grid.allNeighbors`: the orthogonal offsets, then the diagonal ones. */
  function AllOffsets(): seq<(int, int)>
  {
    OrthogonalOffsets() + [(1, 1), (1, -1), (-1, 1), (-1, -1)]
  }

  /** The orthogonal offsets are the four unit steps; all the offsets are the eight non-zero ones, none repeated. */
  lemma OffsetsExactly(o: (int, int))
    ensures o in OrthogonalOffsets() <==> (o.0 == 0 || o.1 == 0) && -1 <= o.0 <= 1 && -1 <= o.1 <= 1 && o != (0, 0)
    ensures o in AllOffsets() <==> -1 <= o.0 <= 1 && -1 <= o.1 <= 1 && o != (0, 0)
    ensures |OrthogonalOffsets()| == 4 && |AllOffsets()| == 8
    ensures forall i, j :: 0 <= i < j < |AllOffsets()| ==> AllOffsets()[i] != AllOffsets()[j]
  {
  }

  /** `grid[ri]?.[ci]` at array indices: `undefined` outside the allocated rows and columns. */
  function Lookup<T>(rows: Rows<T>, ri: int, ci: int): Option<T>
  {
    if 0 <= ri < |rows| && 0 <= ci < |rows[ri]| then rows[ri][ci] else None
  }

  /** The cell at array indices `(ri, ci)` set to `v`, growing the rows as JavaScript arrays grow. */
  function Written<T>(rows: Rows<T>, ri: nat, ci: nat, v: T): (r: Rows<T>)
    ensures Lookup(r, ri, ci) == Some(v)
    ensures forall a, b :: (a, b) != (ri, ci) ==> Lookup(r, a, b) == Lookup(rows, a, b)
    ensures ri < |rows| && ci < |rows[ri]| ==> |r| == |rows| && forall i :: 0 <= i < |r| ==> |r[i]| == |rows[i]|
    ensures |r| >= |rows| && forall i :: 0 <= i < |rows| ==> |r[i]| >= |rows[i]|
  {
    var padded := if ri < |rows| then rows else rows + seq(ri + 1 - |rows|, _ => []);
    var row := padded[ri];
    var grown := if ci < |row| then row else row + seq(ci + 1 - |row|, _ => None);
    var r := padded[ri := grown[ci := Some(v)]];
    WrittenFrame(rows, padded, row, grown, r, ri, ci, v);
    r
  }

  lemma WrittenFrame<T>(rows: Rows<T>, padded: Rows<T>, row: seq<Option<T>>, grown: seq<Option<T>>, r: Rows<T>, ri: nat, ci: nat, v: T)
    requires padded == if ri < |rows| then rows else rows + seq(ri + 1 - |rows|, _ => [])
    requires row == padded[ri]
    requires grown == if ci < |row| then row else row + seq(ci + 1 - |row|, _ => None)
    requires r == padded[ri := grown[ci := Some(v)]]
    ensures forall a, b :: (a, b) != (ri, ci) ==> Lookup(r, a, b) == Lookup(rows, a, b)
  {
    forall a, b | (a, b) != (ri, ci)
      ensures Lookup(r, a, b) == Lookup(rows, a, b)
    {
      if a != ri {
        assert Lookup(padded, a, b) == Lookup(rows, a, b);
      } else {
        assert Lookup([grown], 0, b) == Lookup([row], 0, b) by {
          if 0 <= b < |grown| && b >= |row| {
            assert grown[b] == None;
          }
        }
      }
    }
  }

  /** The positions of row `r` from column `c` on, left to right. */
  function RowFrom<T>(rows: Rows<T>, r: nat, c: nat): seq<(int, int)>
    requires r < |rows|
    decreases |rows[r]| - c
  {
    if c >= |rows[r]| then [] else [(r, c)] + RowFrom(rows, r, c + 1)
  }

  /** The positions of rows `r` onward, row by row. */
  function From<T>(rows: Rows<T>, r: nat): seq<(int, int)>
    decreases |rows| - r
  {
    if r >= |rows| then [] else RowFrom(rows, r, 0) + From(rows, r + 1)
  }

  /** The allocated cells in the order of `forEach`: row by row, each row left to right. */
  function Positions<T>(rows: Rows<T>): seq<(int, int)>
  {
    From(rows, 0)
  }

  /** `p` comes before `q` in row-major order. */
  predicate Before(p: (int, int), q: (int, int))
  {
    p.0 < q.0 || (p.0 == q.0 && p.1 < q.1)
  }

  predicate RowMajor(s: seq<(int, int)>)
  {
    forall i, j :: 0 <= i < j < |s| ==> Before(s[i], s[j])
  }

  lemma {:induction false} RowFromExactly<T>(rows: Rows<T>, r: nat, c: nat)
    requires r < |rows|
    ensures forall p :: p in RowFrom(rows, r, c) <==> p.0 == r && c <= p.1 < |rows[r]|
    ensures RowMajor(RowFrom(rows, r, c))
    decreases |rows[r]| - c
  {
    if c < |rows[r]| {
      RowFromExactly(rows, r, c + 1);
    }
  }

  lemma {:induction false} FromExactly<T>(rows: Rows<T>, r: nat)
    ensures forall p :: p in From(rows, r) <==> r <= p.0 < |rows| && 0 <= p.1 < |rows[p.0]|
    ensures RowMajor(From(rows, r))
    decreases |rows| - r
  {
    if r < |rows| {
      RowFromExactly(rows, r, 0);
      FromExactly(rows, r + 1);
      var a, b := RowFrom(rows, r, 0), From(rows, r + 1);
      forall i, j | 0 <= i < j < |a + b|
        ensures Before((a + b)[i], (a + b)[j])
      {
        if j < |a| {
        } else if i >= |a| {
          assert (a + b)[i] == b[i - |a|] && (a + b)[j] == b[j - |a|];
        } else {
          assert (a + b)[i] in a && (a + b)[j] in b;
        }
      }
    }
  }

  /** `forEach` and `reduce` visit exactly the allocated cells, each once, in row-major order. */
  lemma PositionsExactly<T>(rows: Rows<T>)
    ensures forall p :: p in Positions(rows) <==> 0 <= p.0 < |rows| && 0 <= p.1 < |rows[p.0]|
    ensures RowMajor(Positions(rows))
    ensures forall i, j :: 0 <= i < j < |Positions(rows)| ==> Positions(rows)[i] != Positions(rows)[j]
  {
    FromExactly(rows, 0);
  }

  /** `reduce`'s accumulator over the positions `ps`; the callback gets array indices. */
  function FoldCells<T, A>(fn: (A, Option<T>, int, int) -> A, acc: A, rows: Rows<T>, ps: seq<(int, int)>): A
  {
    if ps == [] then acc
    else FoldCells(fn, fn(acc, Lookup(rows, ps[0].0, ps[0].1), ps[0].0, ps[0].1), rows, ps[1..])
  }

  /**
   * The holes a write at `(ri, ci)` leaves: a write past a row's end creates the array
   * positions it skips without storing anything there, and the written cell is a hole no more.
   * A skipped row is an empty row to every operation here, so only holes inside rows are kept.
   */
  function WrittenHoles<T>(rows: Rows<T>, holes: set<(int, int)>, ri: nat, ci: nat): set<(int, int)>
  {
    var end := if ri < |rows| then |rows[ri]| else 0;
    (holes + set c | end <= c < ci :: (ri, c)) - {(ri, ci)}
  }

  /** Every hole is an allocated cell that reads as `undefined`. */
  predicate HolesUndefined<T>(rows: Rows<T>, holes: set<(int, int)>)
  {
    forall p :: p in holes ==> 0 <= p.0 < |rows| && 0 <= p.1 < |rows[p.0]| && rows[p.0][p.1] == None
  }

  /** A write inside the allocated cells leaves no new holes. */
  lemma InsideWrite<T>(rows: Rows<T>, holes: set<(int, int)>, ri: nat, ci: nat)
    requires ri < |rows| && ci < |rows[ri]|
    ensures WrittenHoles(rows, holes, ri, ci) == holes - {(ri, ci)}
  {
    assert (set c | |rows[ri]| <= c < ci :: (ri, c)) == {};
  }

  /** After a write, the holes are exactly the old holes and the skipped cells, and they still read as `undefined`. */
  lemma WrittenHolesUndefined<T>(rows: Rows<T>, holes: set<(int, int)>, ri: nat, ci: nat, v: T)
    requires HolesUndefined(rows, holes)
    ensures var end := if ri < |rows| then |rows[ri]| else 0;
      forall p :: p in WrittenHoles(rows, holes, ri, ci) <==> p != (ri, ci) && (p in holes || (p.0 == ri && end <= p.1 < ci))
    ensures HolesUndefined(Written(rows, ri, ci, v), WrittenHoles(rows, holes, ri, ci))
  {
    var r := Written(rows, ri, ci, v);
    var end := if ri < |rows| then |rows[ri]| else 0;
    forall p | p in WrittenHoles(rows, holes, ri, ci)
      ensures 0 <= p.0 < |r| && 0 <= p.1 < |r[p.0]| && r[p.0][p.1] == None
    {
      if p in holes {
        assert Lookup(r, p.0, p.1) == Lookup(rows, p.0, p.1);
      } else {
        assert p.0 == ri && end <= p.1 < ci;
        assert Lookup(r, p.0, p.1) == Lookup(rows, p.0, p.1) == None;
      }
    }
  }

  /** `ps` without the holes. */
  function Unholed(ps: seq<(int, int)>, holes: set<(int, int)>): seq<(int, int)>
  {
    if ps == [] then [] else (if ps[0] in holes then [] else [ps[0]]) + Unholed(ps[1..], holes)
  }

  /** The cells `forEach`, `reduce` and `filter` visit, as `Array.prototype.forEach` skips holes. */
  function Visited<T>(rows: Rows<T>, holes: set<(int, int)>): seq<(int, int)>
  {
    Unholed(Positions(rows), holes)
  }

  lemma {:induction false} UnholedExactly(ps: seq<(int, int)>, holes: set<(int, int)>)
    ensures forall p :: p in Unholed(ps, holes) <==> p in ps && p !in holes
    ensures RowMajor(ps) ==> RowMajor(Unholed(ps, holes))
  {
    if ps != [] {
      UnholedExactly(ps[1..], holes);
      if RowMajor(ps) {
        assert RowMajor(ps[1..]) by {
          forall i, j | 0 <= i < j < |ps[1..]| ensures Before(ps[1..][i], ps[1..][j]) {
            assert ps[1..][i] == ps[i + 1] && ps[1..][j] == ps[j + 1];
          }
        }
        var tail := Unholed(ps[1..], holes);
        forall q | q in tail ensures Before(ps[0], q) {
          var k :| 0 <= k < |ps[1..]| && ps[1..][k] == q;
          assert ps[k + 1] == q;
        }
        var u := Unholed(ps, holes);
        forall i, j | 0 <= i < j < |u| ensures Before(u[i], u[j]) {
          if ps[0] !in holes {
            assert u == [ps[0]] + tail;
            if i == 0 {
              assert u[j] == tail[j - 1];
            } else {
              assert u[i] == tail[i - 1] && u[j] == tail[j - 1];
            }
          } else {
            assert u == tail;
          }
        }
      }
    }
  }

  /** `forEach` and `reduce` visit exactly the allocated cells that are not holes, each once, in row-major order. */
  lemma VisitedExactly<T>(rows: Rows<T>, holes: set<(int, int)>)
    ensures forall p :: p in Visited(rows, holes) <==> 0 <= p.0 < |rows| && 0 <= p.1 < |rows[p.0]| && p !in holes
    ensures RowMajor(Visited(rows, holes))
    ensures forall i, j :: 0 <= i < j < |Visited(rows, holes)| ==> Visited(rows, holes)[i] != Visited(rows, holes)[j]
  {
    PositionsExactly(rows);
    UnholedExactly(Positions(rows), holes);
  }

  lemma UnholedCons(p: (int, int), ps: seq<(int, int)>, holes: set<(int, int)>)
    ensures Unholed([p] + ps, holes) == (if p in holes then [] else [p]) + Unholed(ps, holes)
  {
    assert ([p] + ps)[0] == p && ([p] + ps)[1..] == ps;
  }

  lemma VisitStep<T, A>(fn: (A, Option<T>, int, int) -> A, acc: A, rows: Rows<T>, holes: set<(int, int)>,
                        r: nat, c: nat, rest: seq<(int, int)>)
    requires r < |rows| && c < |rows[r]|
    ensures FoldCells(fn, acc, rows, Unholed(RowFrom(rows, r, c) + rest, holes))
      == FoldCells(fn, if (r, c) in holes then acc else fn(acc, rows[r][c], r, c), rows, Unholed(RowFrom(rows, r, c + 1) + rest, holes))
  {
    var tail := Unholed(RowFrom(rows, r, c + 1) + rest, holes);
    assert RowFrom(rows, r, c) + rest == [(r, c)] + (RowFrom(rows, r, c + 1) + rest);
    UnholedCons((r, c), RowFrom(rows, r, c + 1) + rest, holes);
    if (r, c) !in holes {
      var s := [(r, c)] + tail;
      assert s[0] == (r, c) && s[1..] == tail;
      assert Lookup(rows, r, c) == rows[r][c];
    } else {
      assert [] + tail == tail;
    }
  }

  /** The first of `ps` whose cell satisfies `fn`. */
  function FindIn<T>(fn: (Option<T>, int, int) -> bool, rows: Rows<T>, ps: seq<(int, int)>): Option<(int, int)>
  {
    if ps == [] then None
    else if fn(Lookup(rows, ps[0].0, ps[0].1), ps[0].0, ps[0].1) then Some(ps[0])
    else FindIn(fn, rows, ps[1..])
  }

  /** `find`/`findCoords` return the first match in the order given, or nothing when there is none. */
  lemma {:induction false} FindInSpec<T>(fn: (Option<T>, int, int) -> bool, rows: Rows<T>, ps: seq<(int, int)>)
    ensures var r := FindIn(fn, rows, ps);
      (r.None? <==> forall i :: 0 <= i < |ps| ==> !fn(Lookup(rows, ps[i].0, ps[i].1), ps[i].0, ps[i].1))
      && (r.Some? ==>
            exists k :: 0 <= k < |ps| && ps[k] == r.value
              && fn(Lookup(rows, ps[k].0, ps[k].1), ps[k].0, ps[k].1)
              && forall i :: 0 <= i < k ==> !fn(Lookup(rows, ps[i].0, ps[i].1), ps[i].0, ps[i].1))
  {
    if ps != [] {
      FindInSpec(fn, rows, ps[1..]);
      var r := FindIn(fn, rows, ps[1..]);
      if !fn(Lookup(rows, ps[0].0, ps[0].1), ps[0].0, ps[0].1) && r.Some? {
        var k :| 0 <= k < |ps[1..]| && ps[1..][k] == r.value
          && fn(Lookup(rows, ps[1..][k].0, ps[1..][k].1), ps[1..][k].0, ps[1..][k].1)
          && forall i :: 0 <= i < k ==> !fn(Lookup(rows, ps[1..][i].0, ps[1..][i].1), ps[1..][i].0, ps[1..][i].1);
        assert ps[k + 1] == r.value;
        forall i | 0 <= i < k + 1
          ensures !fn(Lookup(rows, ps[i].0, ps[i].1), ps[i].0, ps[i].1)
        {
          if i > 0 {
            assert ps[i] == ps[1..][i - 1];
          }
        }
      } else if r.None? {
        forall i | 0 <= i < |ps| && !fn(Lookup(rows, ps[0].0, ps[0].1), ps[0].0, ps[0].1)
          ensures !fn(Lookup(rows, ps[i].0, ps[i].1), ps[i].0, ps[i].1)
        {
          if i > 0 {
            assert ps[i] == ps[1..][i - 1];
          }
        }
      }
    }
  }

  lemma FindStep<T>(fn: (Option<T>, int, int) -> bool, rows: Rows<T>, r: nat, c: nat, rest: seq<(int, int)>)
    requires r < |rows| && c < |rows[r]|
    ensures FindIn(fn, rows, RowFrom(rows, r, c) + rest)
      == if fn(rows[r][c], r, c) then Some((r, c)) else FindIn(fn, rows, RowFrom(rows, r, c + 1) + rest)
  {
    assert (RowFrom(rows, r, c) + rest)[1..] == RowFrom(rows, r, c + 1) + rest;
  }

  /** The truthy values among `filter`'s cells at `ps` that satisfy `fn`, in order. */
  function Matches<T>(fn: (T, int, int) -> bool, truthy: T -> bool, rows: Rows<T>, ps: seq<(int, int)>): seq<T>
  {
    if ps == [] then []
    else
      var d := Lookup(rows, ps[0].0, ps[0].1);
      (if d.Some? && truthy(d.value) && fn(d.value, ps[0].0, ps[0].1) then [d.value] else [])
        + Matches(fn, truthy, rows, ps[1..])
  }

  /** What `filter` keeps: exactly the truthy values at the given positions that satisfy `fn`. */
  lemma {:induction false} MatchesExactly<T>(fn: (T, int, int) -> bool, truthy: T -> bool, rows: Rows<T>, ps: seq<(int, int)>)
    ensures forall x :: x in Matches(fn, truthy, rows, ps) <==>
      exists p :: p in ps && Lookup(rows, p.0, p.1) == Some(x) && truthy(x) && fn(x, p.0, p.1)
  {
    if ps != [] {
      MatchesExactly(fn, truthy, rows, ps[1..]);
      forall x
        ensures (exists p :: p in ps && Lookup(rows, p.0, p.1) == Some(x) && truthy(x) && fn(x, p.0, p.1))
          ==> x in Matches(fn, truthy, rows, ps)
      {
        if p :| p in ps && Lookup(rows, p.0, p.1) == Some(x) && truthy(x) && fn(x, p.0, p.1) {
          if p != ps[0] {
            assert p in ps[1..];
          }
        }
      }
    }
  }

  /** `filter`'s loop as a `reduce` callback. */
  function FilterStep<T>(fn: (T, int, int) -> bool, truthy: T -> bool): (seq<T>, Option<T>, int, int) -> seq<T>
  {
    (acc: seq<T>, d: Option<T>, r: int, c: int) => if d.Some? && truthy(d.value) && fn(d.value, r, c) then acc + [d.value] else acc
  }

  lemma {:induction false} FoldFilter<T>(fn: (T, int, int) -> bool, truthy: T -> bool, rows: Rows<T>, acc: seq<T>, ps: seq<(int, int)>)
    ensures FoldCells(FilterStep(fn, truthy), acc, rows, ps) == acc + Matches(fn, truthy, rows, ps)
    decreases |ps|
  {
    if ps != [] {
      var next := FilterStep(fn, truthy)(acc, Lookup(rows, ps[0].0, ps[0].1), ps[0].0, ps[0].1);
      FoldFilter(fn, truthy, rows, next, ps[1..]);
    }
  }

  /** Skipping holes changes nothing `filter` keeps: a hole reads as `undefined`, which `filter` drops anyway. */
  lemma {:induction false} MatchesUnholed<T>(fn: (T, int, int) -> bool, truthy: T -> bool, rows: Rows<T>, holes: set<(int, int)>, ps: seq<(int, int)>)
    requires HolesUndefined(rows, holes)
    ensures Matches(fn, truthy, rows, Unholed(ps, holes)) == Matches(fn, truthy, rows, ps)
  {
    if ps != [] {
      MatchesUnholed(fn, truthy, rows, holes, ps[1..]);
      var tail := Unholed(ps[1..], holes);
      if ps[0] in holes {
        assert Unholed(ps, holes) == tail;
        assert Lookup(rows, ps[0].0, ps[0].1) == None;
      } else {
        assert Unholed(ps, holes) == [ps[0]] + tail;
        assert ([ps[0]] + tail)[1..] == tail;
      }
    }
  }

  /** The truthy cells at `(row + rowDiff, col + colDiff)` for each offset, in offset order. */
  function Gather<T>(rows: Rows<T>, truthy: T -> bool, ri: int, ci: int, offsets: seq<(int, int)>): seq<T>
  {
    if offsets == [] then []
    else Kept(Lookup(rows, ri + offsets[0].0, ci + offsets[0].1), truthy) + Gather(rows, truthy, ri, ci, offsets[1..])
  }

  /**
   * At most one cell per offset; each gathered cell is the truthy cell of some offset, and every
   * truthy cell of an offset is gathered.
   */
  lemma GatherMembers<T>(rows: Rows<T>, truthy: T -> bool, ri: int, ci: int, offsets: seq<(int, int)>)
    ensures |Gather(rows, truthy, ri, ci, offsets)| <= |offsets|
    ensures forall i :: 0 <= i < |Gather(rows, truthy, ri, ci, offsets)| ==> exists o :: (o in offsets
      && Lookup(rows, ri + o.0, ci + o.1) == Some(Gather(rows, truthy, ri, ci, offsets)[i]) && truthy(Gather(rows, truthy, ri, ci, offsets)[i]))
    ensures forall o :: o in offsets && Lookup(rows, ri + o.0, ci + o.1).Some? && truthy(Lookup(rows, ri + o.0, ci + o.1).value) ==>
      Lookup(rows, ri + o.0, ci + o.1).value in Gather(rows, truthy, ri, ci, offsets)
  {
    GatherSound(rows, truthy, ri, ci, offsets);
    GatherComplete(rows, truthy, ri, ci, offsets);
  }

  lemma {:induction false} GatherSound<T>(rows: Rows<T>, truthy: T -> bool, ri: int, ci: int, offsets: seq<(int, int)>)
    ensures |Gather(rows, truthy, ri, ci, offsets)| <= |offsets|
    ensures forall i :: 0 <= i < |Gather(rows, truthy, ri, ci, offsets)| ==> exists o :: (o in offsets
      && Lookup(rows, ri + o.0, ci + o.1) == Some(Gather(rows, truthy, ri, ci, offsets)[i]) && truthy(Gather(rows, truthy, ri, ci, offsets)[i]))
    decreases |offsets|
  {
    if offsets != [] {
      GatherSound(rows, truthy, ri, ci, offsets[1..]);
      var head, tail := Kept(Lookup(rows, ri + offsets[0].0, ci + offsets[0].1), truthy), Gather(rows, truthy, ri, ci, offsets[1..]);
      var r := Gather(rows, truthy, ri, ci, offsets);
      assert r == head + tail;
      forall i | 0 <= i < |r|
        ensures exists o :: o in offsets && Lookup(rows, ri + o.0, ci + o.1) == Some(r[i]) && truthy(r[i])
      {
        if i < |head| {
          assert r[i] == head[i] && head == [Lookup(rows, ri + offsets[0].0, ci + offsets[0].1).value];
          assert offsets[0] in offsets;
        } else {
          var j := i - |head|;
          assert r[i] == tail[j] && 0 <= j < |tail|;
          var o :| o in offsets[1..] && Lookup(rows, ri + o.0, ci + o.1) == Some(tail[j]) && truthy(tail[j]);
          assert o in offsets;
        }
      }
    }
  }

  lemma {:induction false} GatherComplete<T>(rows: Rows<T>, truthy: T -> bool, ri: int, ci: int, offsets: seq<(int, int)>)
    ensures forall o :: o in offsets && Lookup(rows, ri + o.0, ci + o.1).Some? && truthy(Lookup(rows, ri + o.0, ci + o.1).value) ==>
      Lookup(rows, ri + o.0, ci + o.1).value in Gather(rows, truthy, ri, ci, offsets)
    decreases |offsets|
  {
    if offsets != [] {
      GatherComplete(rows, truthy, ri, ci, offsets[1..]);
      var head, tail := Kept(Lookup(rows, ri + offsets[0].0, ci + offsets[0].1), truthy), Gather(rows, truthy, ri, ci, offsets[1..]);
      assert Gather(rows, truthy, ri, ci, offsets) == head + tail;
      forall o | o in offsets && Lookup(rows, ri + o.0, ci + o.1).Some? && truthy(Lookup(rows, ri + o.0, ci + o.1).value)
        ensures Lookup(rows, ri + o.0, ci + o.1).value in head + tail
      {
        if o != offsets[0] {
          assert o in offsets[1..];
          assert Lookup(rows, ri + o.0, ci + o.1).value in tail;
        } else {
          assert Lookup(rows, ri + o.0, ci + o.1).value in head;
        }
      }
    }
  }

  /** `if (node) neighbors.push(node)`: the node when it is truthy, nothing otherwise. */
  function Kept<T>(d: Option<T>, truthy: T -> bool): seq<T>
  {
    if d.Some? && truthy(d.value) then [d.value] else []
  }

  /** The `reduce` from the left: one more offset pushes its truthy cell after the earlier ones. */
  lemma {:induction false} GatherSnoc<T>(rows: Rows<T>, truthy: T -> bool, ri: int, ci: int, offsets: seq<(int, int)>, o: (int, int))
    ensures Gather(rows, truthy, ri, ci, []) == []
    ensures Gather(rows, truthy, ri, ci, offsets + [o]) == Gather(rows, truthy, ri, ci, offsets) + Kept(Lookup(rows, ri + o.0, ci + o.1), truthy)
    decreases |offsets|
  {
    var k := Kept(Lookup(rows, ri + o.0, ci + o.1), truthy);
    if offsets == [] {
      assert [o][1..] == [];
    } else {
      assert (offsets + [o])[0] == offsets[0] && (offsets + [o])[1..] == offsets[1..] + [o];
      GatherSnoc(rows, truthy, ri, ci, offsets[1..], o);
      var h, t := Kept(Lookup(rows, ri + offsets[0].0, ci + offsets[0].1), truthy), Gather(rows, truthy, ri, ci, offsets[1..]);
      assert Gather(rows, truthy, ri, ci, offsets + [o]) == h + (t + k);
      Concat3(h, t, k);
    }
  }

  lemma Concat3<T>(a: seq<T>, b: seq<T>, c: seq<T>)
    ensures a + (b + c) == a + b + c
  {
  }

  /** The orthogonal neighbours in the offsets' order: right, left, down, up. */
  lemma GatherOrthogonal<T>(rows: Rows<T>, truthy: T -> bool, ri: int, ci: int)
    ensures Gather(rows, truthy, ri, ci, OrthogonalOffsets())
      == Kept(Lookup(rows, ri, ci + 1), truthy) + Kept(Lookup(rows, ri, ci - 1), truthy)
        + Kept(Lookup(rows, ri + 1, ci), truthy) + Kept(Lookup(rows, ri - 1, ci), truthy)
  {
    var a, b, c, d := Kept(Lookup(rows, ri, ci + 1), truthy), Kept(Lookup(rows, ri, ci - 1), truthy),
      Kept(Lookup(rows, ri + 1, ci), truthy), Kept(Lookup(rows, ri - 1, ci), truthy);
    var none: seq<(int, int)> := [];
    var o3 := [(-1, 0)] + none;
    var o2 := [(1, 0)] + o3;
    var o1 := [(0, -1)] + o2;
    assert OrthogonalOffsets() == [(0, 1)] + o1;
    assert Gather(rows, truthy, ri, ci, none) == [];
    GatherCons(rows, truthy, ri, ci, -1, 0, none, ri - 1, ci);
    GatherCons(rows, truthy, ri, ci, 1, 0, o3, ri + 1, ci);
    GatherCons(rows, truthy, ri, ci, 0, -1, o2, ri, ci - 1);
    GatherCons(rows, truthy, ri, ci, 0, 1, o1, ri, ci + 1);
    assert Gather(rows, truthy, ri, ci, OrthogonalOffsets()) == a + (b + (c + (d + [])));
    assert d + [] == d;
    Concat3(b, c, d);
    Concat3(a, b + c, d);
    Concat3(a, b, c);
  }

  /** The first offset's cell, at `(r, c)`, comes first. */
  lemma GatherCons<T>(rows: Rows<T>, truthy: T -> bool, ri: int, ci: int, dr: int, dc: int, rest: seq<(int, int)>, r: int, c: int)
    requires r == ri + dr && c == ci + dc
    ensures Gather(rows, truthy, ri, ci, [(dr, dc)] + rest) == Kept(Lookup(rows, r, c), truthy) + Gather(rows, truthy, ri, ci, rest)
  {
    assert ([(dr, dc)] + rest)[0] == (dr, dc) && ([(dr, dc)] + rest)[1..] == rest;
  }

  /** The diagonal neighbours in the offsets' order: down-right, down-left, up-right, up-left. */
  lemma GatherDiagonal<T>(rows: Rows<T>, truthy: T -> bool, ri: int, ci: int)
    ensures Gather(rows, truthy, ri, ci, [(1, 1), (1, -1), (-1, 1), (-1, -1)])
      == Kept(Lookup(rows, ri + 1, ci + 1), truthy) + Kept(Lookup(rows, ri + 1, ci - 1), truthy)
        + Kept(Lookup(rows, ri - 1, ci + 1), truthy) + Kept(Lookup(rows, ri - 1, ci - 1), truthy)
  {
    var a, b, c, d := Kept(Lookup(rows, ri + 1, ci + 1), truthy), Kept(Lookup(rows, ri + 1, ci - 1), truthy),
      Kept(Lookup(rows, ri - 1, ci + 1), truthy), Kept(Lookup(rows, ri - 1, ci - 1), truthy);
    var none: seq<(int, int)> := [];
    var o3 := [(-1, -1)] + none;
    var o2 := [(-1, 1)] + o3;
    var o1 := [(1, -1)] + o2;
    assert [(1, 1), (1, -1), (-1, 1), (-1, -1)] == [(1, 1)] + o1;
    assert Gather(rows, truthy, ri, ci, none) == [];
    GatherCons(rows, truthy, ri, ci, -1, -1, none, ri - 1, ci - 1);
    GatherCons(rows, truthy, ri, ci, -1, 1, o3, ri - 1, ci + 1);
    GatherCons(rows, truthy, ri, ci, 1, -1, o2, ri + 1, ci - 1);
    GatherCons(rows, truthy, ri, ci, 1, 1, o1, ri + 1, ci + 1);
    assert Gather(rows, truthy, ri, ci, [(1, 1), (1, -1), (-1, 1), (-1, -1)]) == a + (b + (c + (d + [])));
    assert d + [] == d;
    Concat3(b, c, d);
    Concat3(a, b + c, d);
    Concat3(a, b, c);
  }

  /** All eight neighbours: the orthogonal ones, then the diagonal ones. */
  lemma GatherAll<T>(rows: Rows<T>, truthy: T -> bool, ri: int, ci: int)
    ensures Gather(rows, truthy, ri, ci, AllOffsets())
      == Gather(rows, truthy, ri, ci, OrthogonalOffsets())
        + Kept(Lookup(rows, ri + 1, ci + 1), truthy) + Kept(Lookup(rows, ri + 1, ci - 1), truthy)
        + Kept(Lookup(rows, ri - 1, ci + 1), truthy) + Kept(Lookup(rows, ri - 1, ci - 1), truthy)
  {
    var diagonal: seq<(int, int)> := [(1, 1), (1, -1), (-1, 1), (-1, -1)];
    GatherAppend(rows, truthy, ri, ci, OrthogonalOffsets(), diagonal);
    GatherDiagonal(rows, truthy, ri, ci);
    var a, b, c, d := Kept(Lookup(rows, ri + 1, ci + 1), truthy), Kept(Lookup(rows, ri + 1, ci - 1), truthy),
      Kept(Lookup(rows, ri - 1, ci + 1), truthy), Kept(Lookup(rows, ri - 1, ci - 1), truthy);
    var g := Gather(rows, truthy, ri, ci, OrthogonalOffsets());
    Concat3(g, a + b + c, d);
    Concat3(g, a + b, c);
    Concat3(g, a, b);
  }

  /** Gathering over two runs of offsets is gathering over each, in order. */
  lemma {:induction false} GatherAppend<T>(rows: Rows<T>, truthy: T -> bool, ri: int, ci: int, a: seq<(int, int)>, b: seq<(int, int)>)
    ensures Gather(rows, truthy, ri, ci, a + b) == Gather(rows, truthy, ri, ci, a) + Gather(rows, truthy, ri, ci, b)
    decreases |a|
  {
    if a == [] {
      assert a + b == b;
    } else {
      assert (a + b)[0] == a[0] && (a + b)[1..] == a[1..] + b;
      GatherAppend(rows, truthy, ri, ci, a[1..], b);
      Concat3(Kept(Lookup(rows, ri + a[0].0, ci + a[0].1), truthy), Gather(rows, truthy, ri, ci, a[1..]), Gather(rows, truthy, ri, ci, b));
    }
  }

  /** `drawFn?.(d) ?? d?.toString?.() ?? blank`. */
  function Render<T>(drawFn: Option<Option<T> -> string>, show: T -> string, blank: string, d: Option<T>): string
  {
    if drawFn.Some? then drawFn.value(d) else if d.Some? then show(d.value) else blank
  }

  /** The renderings of `cells` from column `start` on, joined. */
  function RowKey<T>(cells: seq<Option<T>>, render: Option<T> -> string): string
  {
    if cells == [] then "" else render(cells[0]) + RowKey(cells[1..], render)
  }

  /** `row.slice(start)`: empty when the row is no longer than `start`. */
  function Slice<T>(cells: seq<Option<T>>, start: nat): seq<Option<T>>
  {
    if start >= |cells| then [] else cells[start..]
  }

  /** `key`: every row's rendering from column `start` on, joined in row order. */
  function KeyOf<T>(rows: Rows<T>, start: nat, render: Option<T> -> string): string
  {
    if rows == [] then "" else RowKey(Slice(rows[0], start), render) + KeyOf(rows[1..], start, render)
  }

  /** Rows of the same lengths. */
  predicate SameShape<T>(a: Rows<T>, b: Rows<T>)
  {
    |a| == |b| && forall i :: 0 <= i < |a| ==> |a[i]| == |b[i]|
  }

  lemma {:induction false} RowKeyLength<T>(cells: seq<Option<T>>, render: Option<T> -> string)
    requires forall d :: |render(d)| == 1
    ensures |RowKey(cells, render)| == |cells|
  {
    if cells != [] {
      RowKeyLength(cells[1..], render);
    }
  }

  /** Cells rendered to strings of the same lengths, pointwise, give row keys of the same length. */
  lemma {:induction false} RowKeyLengths<T>(a: seq<Option<T>>, b: seq<Option<T>>, render: Option<T> -> string)
    requires |a| == |b| && forall j :: 0 <= j < |a| ==> |render(a[j])| == |render(b[j])|
    ensures |RowKey(a, render)| == |RowKey(b, render)|
  {
    if a != [] {
      assert forall j :: 0 <= j < |a[1..]| ==> a[1..][j] == a[j + 1] && b[1..][j] == b[j + 1];
      RowKeyLengths(a[1..], b[1..], render);
    }
  }

  /**
   * Two rows whose cells render to strings of the same lengths, pointwise, have the same row
   * key exactly when every cell renders the same.
   */
  lemma {:induction false} RowKeyInjective<T>(a: seq<Option<T>>, b: seq<Option<T>>, render: Option<T> -> string)
    requires |a| == |b| && forall j :: 0 <= j < |a| ==> |render(a[j])| == |render(b[j])|
    ensures RowKey(a, render) == RowKey(b, render) <==> forall j :: 0 <= j < |a| ==> render(a[j]) == render(b[j])
  {
    if a != [] {
      assert forall j :: 0 <= j < |a[1..]| ==> a[1..][j] == a[j + 1] && b[1..][j] == b[j + 1];
      RowKeyInjective(a[1..], b[1..], render);
      var ka, kb := RowKey(a, render), RowKey(b, render);
      var n := |render(a[0])|;
      if ka == kb {
        assert ka[..n] == render(a[0]) && kb[..n] == render(b[0]);
        assert ka[n..] == RowKey(a[1..], render) && kb[n..] == RowKey(b[1..], render);
      }
      if ka == kb {
        forall j | 0 <= j < |a| ensures render(a[j]) == render(b[j]) {
          if j > 0 {
            assert a[1..][j - 1] == a[j] && b[1..][j - 1] == b[j];
          }
        }
      }
    }
  }

  /**
   * Two grids of the same shape whose cells from column `start` on render to strings of the
   * same lengths, pointwise (one character each, say), have the same `key` exactly when every
   * such cell renders the same: the key identifies the rendered state, as cycle detection on
   * it requires.
   */
  lemma {:induction false} KeyIdentifiesRenderings<T>(a: Rows<T>, b: Rows<T>, start: nat, render: Option<T> -> string)
    requires SameShape(a, b)
    requires forall i, j :: 0 <= i < |a| && start <= j < |a[i]| ==> |render(a[i][j])| == |render(b[i][j])|
    ensures KeyOf(a, start, render) == KeyOf(b, start, render)
      <==> forall i, j :: 0 <= i < |a| && start <= j < |a[i]| ==> render(a[i][j]) == render(b[i][j])
  {
    if a != [] {
      var sa, sb := Slice(a[0], start), Slice(b[0], start);
      assert |sa| == |sb|;
      assert forall j :: 0 <= j < |sa| ==> sa[j] == a[0][j + start] && sb[j] == b[0][j + start];
      RowKeyInjective(sa, sb, render);
      RowKeyLengths(sa, sb, render);
      assert SameShape(a[1..], b[1..]);
      assert forall i :: 0 <= i < |a[1..]| ==> a[1..][i] == a[i + 1] && b[1..][i] == b[i + 1];
      KeyIdentifiesRenderings(a[1..], b[1..], start, render);
      var ra, rb := RowKey(sa, render), RowKey(sb, render);
      var ka, kb := KeyOf(a[1..], start, render), KeyOf(b[1..], start, render);
      assert KeyOf(a, start, render) == ra + ka && KeyOf(b, start, render) == rb + kb;
      RowCellsAgree(a, b, start, render);
      if ra + ka == rb + kb {
        assert ra == (ra + ka)[..|ra|] && rb == (rb + kb)[..|rb|];
        assert ka == (ra + ka)[|ra|..] && kb == (rb + kb)[|rb|..];
      }
    }
  }

  /** Agreement on all rows is agreement on the first row and on the rest. */
  lemma RowCellsAgree<T>(a: Rows<T>, b: Rows<T>, start: nat, render: Option<T> -> string)
    requires SameShape(a, b) && a != []
    ensures (forall i, j :: 0 <= i < |a| && start <= j < |a[i]| ==> render(a[i][j]) == render(b[i][j]))
      <==> ((forall j :: 0 <= j < |Slice(a[0], start)| ==> render(Slice(a[0], start)[j]) == render(Slice(b[0], start)[j]))
            && (forall i, j :: 0 <= i < |a[1..]| && start <= j < |a[1..][i]| ==> render(a[1..][i][j]) == render(b[1..][i][j])))
  {
    var sa, sb := Slice(a[0], start), Slice(b[0], start);
    if forall j :: 0 <= j < |sa| ==> render(sa[j]) == render(sb[j]) {
      forall j | start <= j < |a[0]| ensures render(a[0][j]) == render(b[0][j]) {
        assert sa[j - start] == a[0][j] && sb[j - start] == b[0][j];
      }
    }
    if forall i, j :: 0 <= i < |a[1..]| && start <= j < |a[1..][i]| ==> render(a[1..][i][j]) == render(b[1..][i][j]) {
      forall i, j | 1 <= i < |a| && start <= j < |a[i]| ensures render(a[i][j]) == render(b[i][j]) {
        assert a[1..][i - 1] == a[i] && b[1..][i - 1] == b[i];
      }
    }
  }

  /** The rows as `map` sees them: `None` at a hole, which `map` skips and `join` renders as `""`. */
  function Marked<T>(rows: Rows<T>, holes: set<(int, int)>): (m: Rows<Option<T>>)
    ensures |m| == |rows| && forall i :: 0 <= i < |rows| ==> |m[i]| == |rows[i]|
    ensures forall i, j :: 0 <= i < |rows| && 0 <= j < |rows[i]| ==> m[i][j] == if (i, j) in holes then None else Some(rows[i][j])
  {
    seq(|rows|, i requires 0 <= i < |rows| =>
      seq(|rows[i]|, j requires 0 <= j < |rows[i]| => if (i, j) in holes then None else Some(rows[i][j])))
  }

  /** A marked cell's rendering: `""` for a hole, `render` of the cell otherwise. */
  function HoleRender<T>(render: Option<T> -> string): Option<Option<T>> -> string
  {
    (c: Option<Option<T>>) => if c.None? then "" else render(c.value)
  }

  /**
   * `key` over rows with holes: when every cell renders as one character, two grids of the
   * same shape and the same holes have the same `key` exactly when every cell from column
   * `start` on that is not a hole renders the same; a hole adds nothing to the key.
   */
  lemma KeySkipsHoles<T>(a: Rows<T>, b: Rows<T>, holes: set<(int, int)>, start: nat, render: Option<T> -> string)
    requires forall d :: |render(d)| == 1
    requires SameShape(a, b)
    ensures KeyOf(Marked(a, holes), start, HoleRender(render)) == KeyOf(Marked(b, holes), start, HoleRender(render))
      <==> forall i, j :: 0 <= i < |a| && start <= j < |a[i]| && (i, j) !in holes ==> render(a[i][j]) == render(b[i][j])
  {
    var ma, mb, hr := Marked(a, holes), Marked(b, holes), HoleRender(render);
    forall i, j | 0 <= i < |ma| && start <= j < |ma[i]|
      ensures |hr(ma[i][j])| == |hr(mb[i][j])|
      ensures hr(ma[i][j]) == hr(mb[i][j]) <==> (i, j) in holes || render(a[i][j]) == render(b[i][j])
    {
    }
    KeyIdentifiesRenderings(ma, mb, start, hr);
  }

  /**
   * A write two columns past a one-cell row leaves a hole between: `reduce` then visits two
   * cells, not three, and `key` leaves the hole out.
   */
  lemma SparseWriteExample()
    ensures var rows := Written([[None]], 0, 2, 'v');
      var holes := WrittenHoles<char>([[None]], {}, 0, 2);
      rows == [[None, None, Some('v')]] && holes == {(0, 1)}
      && Visited(rows, holes) == [(0, 0), (0, 2)]
      && KeyOf(Marked(rows, holes), 0, HoleRender((d: Option<char>) => if d.Some? then [d.value] else ".")) == ".v"
  {
    var rows := Written([[None]], 0, 2, 'v');
    var grown: seq<Option<char>> := [None] + seq(2, _ => None);
    assert grown == [None, None, None];
    assert rows == [grown[2 := Some('v')]];
    assert grown[2 := Some('v')] == [None, None, Some('v')];
    assert rows == [[None, None, Some('v')]];
    var holes := WrittenHoles<char>([[None]], {}, 0, 2);
    assert holes == {(0, 1)};
    assert Positions(rows) == [(0, 0), (0, 1), (0, 2)];
    var m := Marked(rows, holes);
    assert m[0] == [Some(None), None, Some(Some('v'))];
    assert m == [[Some(None), None, Some(Some('v'))]];
  }

  /** The widest row: `Math.max(...arr.map((row) => row.length))`, 0 for no rows. */
  function MaxWidth<I>(arr: seq<seq<I>>): (w: nat)
    ensures forall i :: 0 <= i < |arr| ==> |arr[i]| <= w
    ensures arr != [] ==> exists i :: 0 <= i < |arr| && |arr[i]| == w
  {
    if arr == [] then 0
    else
      var rest := MaxWidth(arr[1..]);
      assert forall i :: 1 <= i < |arr| ==> arr[i] == arr[1..][i - 1];
      if |arr[0]| >= rest then |arr[0]| else rest
  }

  class Grid<T> {
    var rows: Rows<T>
    /** The smallest column written by `setAt`, if any. */
    var minXUpdated: Option<int>
    /** The holes `setAt` has left inside rows, at array indices. */
    var holes: set<(int, int)>
    const minX: int
    const minY: int
    const width: int
    const height: int
    const blank: string
    const drawFn: Option<Option<T> -> string>
    const truthy: T -> bool
    const show: T -> string

    /**
     * `maxY - minY + 1` rows of `maxX - minX + 1` cells, each `defaultValue(row, col)` or
     * `undefined`. `width` and `height` are `maxX + 1` and `maxY + 1`, whatever the minima.
     */
    constructor (minX: int, minY: int, maxX: int, maxY: int, defaultValue: Option<(int, int) -> T>,
                 blank: string, drawFn: Option<Option<T> -> string>, truthy: T -> bool, show: T -> string)
      ensures |rows| == (if maxY - minY + 1 < 0 then 0 else maxY - minY + 1)
      ensures forall r :: 0 <= r < |rows| ==> |rows[r]| == (if maxX - minX + 1 < 0 then 0 else maxX - minX + 1)
      ensures forall r, c :: 0 <= r < |rows| && 0 <= c < |rows[r]| ==>
        rows[r][c] == if defaultValue.Some? then Some(defaultValue.value(r, c)) else None
      ensures this.minX == minX && this.minY == minY && width == maxX + 1 && height == maxY + 1
      ensures holes == {} && minXUpdated == None && this.blank == blank && this.drawFn == drawFn && this.truthy == truthy && this.show == show
    {
      var h := if maxY - minY + 1 < 0 then 0 else maxY - minY + 1;
      var w := if maxX - minX + 1 < 0 then 0 else maxX - minX + 1;
      rows := seq(h, r => seq(w, c => if defaultValue.Some? then Some(defaultValue.value(r, c)) else None));
      this.minX, this.minY, width, height := minX, minY, maxX + 1, maxY + 1;
      minXUpdated, this.blank, this.drawFn, this.truthy, this.show := None, blank, drawFn, truthy, show;
      holes := {};
    }

    /** `getAt`: total; `undefined` outside the allocated cells once the offsets are taken off. */
    function GetAt(rowIndex: int, colIndex: int): Option<T>
      reads this
    {
      Lookup(rows, rowIndex - minY, colIndex - minX)
    }

    /**
     * `setAt` at or beyond the minima: the cell is set and no other cell changes; a write past
     * a row's end leaves the cells it skips as holes, which still read as `undefined`.
     */
    method SetAt(rowIndex: int, colIndex: int, value: T)
      requires rowIndex >= minY && colIndex >= minX
      modifies this
      ensures rows == Written(old(rows), rowIndex - minY, colIndex - minX, value)
      ensures holes == WrittenHoles(old(rows), old(holes), rowIndex - minY, colIndex - minX)
      ensures old(HolesUndefined(rows, holes)) ==> HolesUndefined(rows, holes)
      ensures GetAt(rowIndex, colIndex) == Some(value)
      ensures forall r, c :: (r, c) != (rowIndex, colIndex) ==> GetAt(r, c) == old(GetAt(r, c))
      ensures minXUpdated == Some(if old(minXUpdated).Some? && old(minXUpdated).value < colIndex then old(minXUpdated).value else colIndex)
    {
      var ri, ci := rowIndex - minY, colIndex - minX;
      var written, left := Written(rows, ri, ci, value), WrittenHoles(rows, holes, ri, ci);
      if HolesUndefined(rows, holes) {
        WrittenHolesUndefined(rows, holes, ri, ci, value);
        assert HolesUndefined(written, left);
      }
      assert forall r, c :: (r, c) != (rowIndex, colIndex) ==> (r - minY, c - minX) != (ri, ci);
      rows, holes := written, left;
      minXUpdated := if minXUpdated.Some? && minXUpdated.value < colIndex then minXUpdated else Some(colIndex);
    }

    /**
     * `reduce` (and `forEach`, with the callback's effects threaded through the accumulator):
     * the cells in row-major order, holes skipped.
     */
    method Reduce<A>(fn: (A, Option<T>, int, int) -> A, initialValue: A) returns (acc: A)
      ensures acc == FoldCells(fn, initialValue, rows, Visited(rows, holes))
    {
      acc := initialValue;
      var rowIndex := 0;
      while rowIndex < |rows|
        invariant 0 <= rowIndex <= |rows|
        invariant FoldCells(fn, acc, rows, Unholed(From(rows, rowIndex), holes)) == FoldCells(fn, initialValue, rows, Visited(rows, holes))
        decreases |rows| - rowIndex
      {
        var colIndex := 0;
        while colIndex < |rows[rowIndex]|
          invariant 0 <= colIndex <= |rows[rowIndex]|
          invariant FoldCells(fn, acc, rows, Unholed(RowFrom(rows, rowIndex, colIndex) + From(rows, rowIndex + 1), holes))
            == FoldCells(fn, initialValue, rows, Visited(rows, holes))
          decreases |rows[rowIndex]| - colIndex
        {
          VisitStep(fn, acc, rows, holes, rowIndex, colIndex, From(rows, rowIndex + 1));
          if (rowIndex, colIndex) !in holes {
            acc := fn(acc, rows[rowIndex][colIndex], rowIndex, colIndex);
          }
          colIndex := colIndex + 1;
        }
        assert RowFrom(rows, rowIndex, colIndex) + From(rows, rowIndex + 1) == From(rows, rowIndex + 1);
        rowIndex := rowIndex + 1;
      }
    }

    /**
     * `filter`: the truthy cells satisfying `fn`, in row-major order, holes skipped; as holes
     * read as `undefined`, skipping them drops nothing.
     */
    method Filter(fn: (T, int, int) -> bool) returns (filtered: seq<T>)
      ensures filtered == Matches(fn, truthy, rows, Visited(rows, holes))
      ensures HolesUndefined(rows, holes) ==> filtered == Matches(fn, truthy, rows, Positions(rows))
    {
      filtered := Reduce(FilterStep(fn, truthy), []);
      FoldFilter(fn, truthy, rows, [], Visited(rows, holes));
      if HolesUndefined(rows, holes) {
        MatchesUnholed(fn, truthy, rows, holes, Positions(rows));
      }
    }

    /** `findCoords`: the array indices of the first cell, in row-major order, satisfying `fn`. */
    method FindCoords(fn: (Option<T>, int, int) -> bool) returns (found: Option<(int, int)>)
      ensures found == FindIn(fn, rows, Positions(rows))
    {
      var rowIndex := 0;
      while rowIndex < |rows|
        invariant 0 <= rowIndex <= |rows|
        invariant FindIn(fn, rows, From(rows, rowIndex)) == FindIn(fn, rows, Positions(rows))
        decreases |rows| - rowIndex
      {
        var colIndex := 0;
        while colIndex < |rows[rowIndex]|
          invariant 0 <= colIndex <= |rows[rowIndex]|
          invariant FindIn(fn, rows, RowFrom(rows, rowIndex, colIndex) + From(rows, rowIndex + 1)) == FindIn(fn, rows, Positions(rows))
          decreases |rows[rowIndex]| - colIndex
        {
          FindStep(fn, rows, rowIndex, colIndex, From(rows, rowIndex + 1));
          if fn(rows[rowIndex][colIndex], rowIndex, colIndex) {
            return Some((rowIndex, colIndex));
          }
          colIndex := colIndex + 1;
        }
        assert RowFrom(rows, rowIndex, colIndex) + From(rows, rowIndex + 1) == From(rows, rowIndex + 1);
        rowIndex := rowIndex + 1;
      }
      return None;
    }

    /** `find`: the first cell, in row-major order, satisfying `fn`; `undefined` when none does. */
    method Find(fn: (Option<T>, int, int) -> bool) returns (node: Option<T>)
      ensures var p := FindIn(fn, rows, Positions(rows)); node == if p.Some? then Lookup(rows, p.value.0, p.value.1) else None
    {
      var p := FindCoords(fn);
      node := if p.Some? then Lookup(rows, p.value.0, p.value.1) else None;
    }

    /** The cell at `(row, col)` is the one at array indices `(ri, ci)`. */
    lemma CellAt(row: int, col: int, ri: int, ci: int)
      requires ri == row - minY && ci == col - minX
      ensures GetAt(row, col) == Lookup(rows, ri, ci)
      ensures Kept(GetAt(row, col), truthy) == Kept(Lookup(rows, ri, ci), truthy)
    {
    }

    /** `getOrthogonalNeighborsOf`: the truthy cells at the orthogonal offsets. */
    function OrthogonalNeighborsOf(row: int, col: int): seq<T>
      reads this
    {
      Gather(rows, truthy, row - minY, col - minX, OrthogonalOffsets())
    }

    /** The orthogonal neighbours are the truthy cells one step right, left, down and up, in that order. */
    lemma OrthogonalNeighborsOrder(row: int, col: int)
      ensures OrthogonalNeighborsOf(row, col) == Kept(GetAt(row, col + 1), truthy) + Kept(GetAt(row, col - 1), truthy)
        + Kept(GetAt(row + 1, col), truthy) + Kept(GetAt(row - 1, col), truthy)
    {
      GatherOrthogonal(rows, truthy, row - minY, col - minX);
      CellAt(row, col + 1, row - minY, col - minX + 1);
      CellAt(row, col - 1, row - minY, col - minX - 1);
      CellAt(row + 1, col, row - minY + 1, col - minX);
      CellAt(row - 1, col, row - minY - 1, col - minX);
    }

    /** `Gather` from `(row, col)`, in grid coordinates. */
    lemma GatheredAt(row: int, col: int, ri: int, ci: int, offsets: seq<(int, int)>)
      requires ri == row - minY && ci == col - minX
      ensures |Gather(rows, truthy, ri, ci, offsets)| <= |offsets|
      ensures forall i :: 0 <= i < |Gather(rows, truthy, ri, ci, offsets)| ==> exists o :: (o in offsets
        && GetAt(row + o.0, col + o.1) == Some(Gather(rows, truthy, ri, ci, offsets)[i])
        && truthy(Gather(rows, truthy, ri, ci, offsets)[i]))
      ensures forall o :: o in offsets && GetAt(row + o.0, col + o.1).Some? && truthy(GetAt(row + o.0, col + o.1).value) ==>
        GetAt(row + o.0, col + o.1).value in Gather(rows, truthy, ri, ci, offsets)
    {
      GatherMembers(rows, truthy, ri, ci, offsets);
      GatheredFrom(row, col, ri, ci, offsets);
      GatheredAll(row, col, ri, ci, offsets);
    }

    lemma GatheredFrom(row: int, col: int, ri: int, ci: int, offsets: seq<(int, int)>)
      requires ri == row - minY && ci == col - minX
      requires forall i :: 0 <= i < |Gather(rows, truthy, ri, ci, offsets)| ==> exists o :: (o in offsets
        && Lookup(rows, ri + o.0, ci + o.1) == Some(Gather(rows, truthy, ri, ci, offsets)[i]) && truthy(Gather(rows, truthy, ri, ci, offsets)[i]))
      ensures forall i :: 0 <= i < |Gather(rows, truthy, ri, ci, offsets)| ==> exists o :: (o in offsets
        && GetAt(row + o.0, col + o.1) == Some(Gather(rows, truthy, ri, ci, offsets)[i])
        && truthy(Gather(rows, truthy, ri, ci, offsets)[i]))
    {
      var g := Gather(rows, truthy, ri, ci, offsets);
      forall i | 0 <= i < |g|
        ensures exists o :: o in offsets && GetAt(row + o.0, col + o.1) == Some(g[i]) && truthy(g[i])
      {
        var o :| o in offsets && Lookup(rows, ri + o.0, ci + o.1) == Some(g[i]) && truthy(g[i]);
        CellAt(row + o.0, col + o.1, ri + o.0, ci + o.1);
      }
    }

    lemma GatheredAll(row: int, col: int, ri: int, ci: int, offsets: seq<(int, int)>)
      requires ri == row - minY && ci == col - minX
      requires forall o :: o in offsets && Lookup(rows, ri + o.0, ci + o.1).Some? && truthy(Lookup(rows, ri + o.0, ci + o.1).value) ==>
        Lookup(rows, ri + o.0, ci + o.1).value in Gather(rows, truthy, ri, ci, offsets)
      ensures forall o :: o in offsets && GetAt(row + o.0, col + o.1).Some? && truthy(GetAt(row + o.0, col + o.1).value) ==>
        GetAt(row + o.0, col + o.1).value in Gather(rows, truthy, ri, ci, offsets)
    {
      forall o | o in offsets && GetAt(row + o.0, col + o.1).Some? && truthy(GetAt(row + o.0, col + o.1).value)
        ensures GetAt(row + o.0, col + o.1).value in Gather(rows, truthy, ri, ci, offsets)
      {
        CellAt(row + o.0, col + o.1, ri + o.0, ci + o.1);
      }
    }

    /** The orthogonal neighbours are at most four, each a truthy cell at an orthogonal offset, and every such cell is among them. */
    lemma OrthogonalNeighborsMembers(row: int, col: int)
      ensures |OrthogonalNeighborsOf(row, col)| <= 4
      ensures forall i :: 0 <= i < |OrthogonalNeighborsOf(row, col)| ==> exists o :: (o in OrthogonalOffsets()
        && GetAt(row + o.0, col + o.1) == Some(OrthogonalNeighborsOf(row, col)[i]) && truthy(OrthogonalNeighborsOf(row, col)[i]))
      ensures forall o :: o in OrthogonalOffsets() && GetAt(row + o.0, col + o.1).Some? && truthy(GetAt(row + o.0, col + o.1).value) ==>
        GetAt(row + o.0, col + o.1).value in OrthogonalNeighborsOf(row, col)
    {
      GatheredAt(row, col, row - minY, col - minX, OrthogonalOffsets());
    }

    /** `getAllNeighborsOf`: the truthy cells at all eight offsets. */
    function AllNeighborsOf(row: int, col: int): seq<T>
      reads this
    {
      Gather(rows, truthy, row - minY, col - minX, AllOffsets())
    }

    /** All the neighbours are the orthogonal ones, then the truthy cells down-right, down-left, up-right and up-left. */
    lemma AllNeighborsOrder(row: int, col: int)
      ensures AllNeighborsOf(row, col) == OrthogonalNeighborsOf(row, col)
        + Kept(GetAt(row + 1, col + 1), truthy) + Kept(GetAt(row + 1, col - 1), truthy)
        + Kept(GetAt(row - 1, col + 1), truthy) + Kept(GetAt(row - 1, col - 1), truthy)
    {
      GatherAll(rows, truthy, row - minY, col - minX);
      CellAt(row + 1, col + 1, row - minY + 1, col - minX + 1);
      CellAt(row + 1, col - 1, row - minY + 1, col - minX - 1);
      CellAt(row - 1, col + 1, row - minY - 1, col - minX + 1);
      CellAt(row - 1, col - 1, row - minY - 1, col - minX - 1);
    }

    /** All the neighbours are at most eight, each a truthy cell at one of the eight offsets, and every such cell is among them. */
    lemma AllNeighborsMembers(row: int, col: int)
      ensures |AllNeighborsOf(row, col)| <= 8
      ensures forall i :: 0 <= i < |AllNeighborsOf(row, col)| ==> exists o :: (o in AllOffsets()
        && GetAt(row + o.0, col + o.1) == Some(AllNeighborsOf(row, col)[i]) && truthy(AllNeighborsOf(row, col)[i]))
      ensures forall o :: o in AllOffsets() && GetAt(row + o.0, col + o.1).Some? && truthy(GetAt(row + o.0, col + o.1).value) ==>
        GetAt(row + o.0, col + o.1).value in AllNeighborsOf(row, col)
    {
      GatheredAt(row, col, row - minY, col - minX, AllOffsets());
    }

    /** `getRow`: the row at `y`, or an empty row outside the grid. */
    function GetRow(y: int): (r: seq<Option<T>>)
      reads this
      ensures !(0 <= y - minY < |rows|) ==> r == []
      ensures forall c :: 0 <= c < |r| ==> r[c] == GetAt(y, c + minX)
    {
      if 0 <= y - minY < |rows| then rows[y - minY] else []
    }

    /** `getColumn`: one entry per row, each the row's cell at `x` or `undefined`. */
    function GetColumn(x: int): (r: seq<Option<T>>)
      reads this
      ensures |r| == |rows|
      ensures forall i :: 0 <= i < |r| ==> r[i] == GetAt(i + minY, x)
    {
      var cells := rows;
      seq(|cells|, i requires 0 <= i < |cells| => Lookup(cells, i, x - minX))
    }

    /** `key`: the rows' renderings from column `minXUpdated` (when positive) on, joined; a hole renders as `""`. */
    function Key(): string
      reads this
    {
      KeyOf(Marked(rows, holes), if minXUpdated.Some? && minXUpdated.value > 0 then minXUpdated.value else 0,
            HoleRender(d => Render(drawFn, show, blank, d)))
    }
  }

  /**
   * `Grid.from2DArray`: fails on no rows or only empty rows; otherwise every input cell holds
   * `getNode` of its input and every other cell, including those past a short row's end, is
   * `undefined`.
   */
  method From2DArray<I, T>(arr: seq<seq<I>>, getNode: (I, int, int) -> T, truthy: T -> bool, show: T -> string) returns (r: Result<Grid<T>>)
    ensures r.Failure? <==> arr == [] || MaxWidth(arr) == 0
    ensures r.Failure? ==> r.error == "Invalid input dimensions"
    ensures r.Success? ==>
      fresh(r.value)
      && r.value.width == MaxWidth(arr) && r.value.height == |arr|
      && r.value.minX == 0 && r.value.minY == 0 && r.value.drawFn == None
      && (forall i, j :: 0 <= i < |arr| && 0 <= j < |arr[i]| ==> r.value.GetAt(i, j) == Some(getNode(arr[i][j], i, j)))
      && (forall i, j :: !(0 <= i < |arr| && 0 <= j < |arr[i]|) ==> r.value.GetAt(i, j) == None)
      && r.value.rows == Filled(arr, getNode, MaxWidth(arr)) && r.value.holes == {}
  {
    var width := MaxWidth(arr);
    var height := |arr|;
    if width == 0 || height == 0 {
      return Failure("Invalid input dimensions");
    }
    var grid := new Grid<T>(0, 0, width - 1, height - 1, None, " ", None, truthy, show);
    var iRow := 0;
    while iRow < height
      invariant 0 <= iRow <= height
      invariant PartlyFilled(grid.rows, arr, getNode, width, iRow, 0)
      invariant grid.minX == 0 && grid.minY == 0 && grid.holes == {}
      modifies grid
      decreases height - iRow
    {
      FillRow(grid, arr, getNode, width, iRow);
      iRow := iRow + 1;
    }
    FilledLookup(grid.rows, arr, getNode, width);
    assert forall i, j :: grid.GetAt(i, j) == Lookup(grid.rows, i, j);
    return Success(grid);
  }

  /** `from2DArray`'s inner loop: row `iRow`'s input cells, written left to right. */
  method FillRow<I, T>(grid: Grid<T>, arr: seq<seq<I>>, getNode: (I, int, int) -> T, width: nat, iRow: nat)
    requires iRow < |arr| && |arr[iRow]| <= width
    requires PartlyFilled(grid.rows, arr, getNode, width, iRow, 0)
    requires grid.minX == 0 && grid.minY == 0 && grid.holes == {}
    modifies grid
    ensures PartlyFilled(grid.rows, arr, getNode, width, iRow + 1, 0)
    ensures grid.holes == {}
  {
    var iCol := 0;
    while iCol < |arr[iRow]|
      invariant 0 <= iCol <= |arr[iRow]|
      invariant PartlyFilled(grid.rows, arr, getNode, width, iRow, iCol)
      invariant grid.holes == {}
      decreases |arr[iRow]| - iCol
    {
      ghost var before := grid.rows;
      InsideWrite(grid.rows, grid.holes, iRow, iCol);
      grid.SetAt(iRow, iCol, getNode(arr[iRow][iCol], iRow, iCol));
      FillStep(before, grid.rows, arr, getNode, width, iRow, iCol);
      iCol := iCol + 1;
    }
    FillRowDone(grid.rows, arr, getNode, width, iRow);
  }

  /** After `from2DArray`: a `|arr|` by `width` block holding `getNode` of each input cell and `undefined` elsewhere. */
  function Filled<I, T>(arr: seq<seq<I>>, getNode: (I, int, int) -> T, width: nat): Rows<T>
  {
    seq(|arr|, i requires 0 <= i < |arr| =>
      seq(width, j requires 0 <= j < width => if j < |arr[i]| then Some(getNode(arr[i][j], i, j)) else None))
  }

  /** The cells before row `iRow`, and before column `iCol` in that row, are filled; the rest are `undefined`. */
  ghost predicate PartlyFilled<I, T>(rows: Rows<T>, arr: seq<seq<I>>, getNode: (I, int, int) -> T, width: nat, iRow: nat, iCol: nat)
  {
    |rows| == |arr|
    && (forall i :: 0 <= i < |rows| ==> |rows[i]| == width)
    && (forall i, j :: 0 <= i < |rows| && 0 <= j < width ==>
          rows[i][j] == if (i < iRow || (i == iRow && j < iCol)) && j < |arr[i]| then Some(getNode(arr[i][j], i, j)) else None)
  }

  lemma FillStep<I, T>(before: Rows<T>, after: Rows<T>, arr: seq<seq<I>>, getNode: (I, int, int) -> T, width: nat, iRow: nat, iCol: nat)
    requires iRow < |arr| && iCol < |arr[iRow]| && |arr[iRow]| <= width
    requires PartlyFilled(before, arr, getNode, width, iRow, iCol)
    requires after == Written(before, iRow, iCol, getNode(arr[iRow][iCol], iRow, iCol))
    ensures PartlyFilled(after, arr, getNode, width, iRow, iCol + 1)
  {
    forall i, j | 0 <= i < |after| && 0 <= j < width
      ensures after[i][j] == if (i < iRow || (i == iRow && j < iCol + 1)) && j < |arr[i]| then Some(getNode(arr[i][j], i, j)) else None
    {
      assert after[i][j] == Lookup(after, i, j);
      assert before[i][j] == Lookup(before, i, j);
    }
  }

  lemma FillRowDone<I, T>(rows: Rows<T>, arr: seq<seq<I>>, getNode: (I, int, int) -> T, width: nat, iRow: nat)
    requires iRow < |arr|
    requires PartlyFilled(rows, arr, getNode, width, iRow, |arr[iRow]|)
    ensures PartlyFilled(rows, arr, getNode, width, iRow + 1, 0)
  {
  }

  lemma FilledLookup<I, T>(rows: Rows<T>, arr: seq<seq<I>>, getNode: (I, int, int) -> T, width: nat)
    requires PartlyFilled(rows, arr, getNode, width, |arr|, 0)
    requires forall i :: 0 <= i < |arr| ==> |arr[i]| <= width
    ensures forall i, j :: 0 <= i < |arr| && 0 <= j < |arr[i]| ==> Lookup(rows, i, j) == Some(getNode(arr[i][j], i, j))
    ensures forall i, j :: !(0 <= i < |arr| && 0 <= j < |arr[i]|) ==> Lookup(rows, i, j) == None
    ensures rows == Filled(arr, getNode, width)
  {
    var f := Filled(arr, getNode, width);
    forall i | 0 <= i < |arr|
      ensures rows[i] == f[i]
    {
      assert |rows[i]| == |f[i]|;
    }
  }
}
