/**
 * `VirtualGrid<T>`: a sparse grid keyed by `(row, col)` whose bounding box grows with every
 * `setAt`. Reading a cell inside the box that holds no truthy value creates a blank there,
 * when `getBlank` gives a truthy one, and keeps it; reading outside the box stores nothing.
 * The box is `None` while `minX`/`minY` are `Infinity` and `maxX`/`maxY` are `-Infinity`.
 */
module VirtualGrid {
  import opened Wrappers
  import Grid

  /** `(row, col)`. */
  type Coord = (int, int)

  datatype Box = Box(minX: int, minY: int, maxX: int, maxY: int)

  /** `width`/`height`: `-Infinity` for the empty box, otherwise a finite number. */
  datatype Extent = MinusInfinity | Finite(value: int)

  /** `Array.from({length})`: negative and `-Infinity` lengths give no entries. */
  function Count(e: Extent): nat
  {
    if e.MinusInfinity? || e.value < 0 then 0 else e.value
  }

  predicate InBox(box: Option<Box>, p: Coord)
  {
    box.Some? && box.value.minY <= p.0 <= box.value.maxY && box.value.minX <= p.1 <= box.value.maxX
  }

  /** `outer` contains `inner`. */
  predicate Contains(outer: Box, inner: Box)
  {
    outer.minX <= inner.minX && outer.minY <= inner.minY && inner.maxX <= outer.maxX && inner.maxY <= outer.maxY
  }

  function Min(a: int, b: int): int { if a < b then a else b }

  function Max(a: int, b: int): int { if a < b then b else a }

  /** `setAt`'s bound update: the least box containing the old one and `(row, col)`. */
  function Extend(box: Option<Box>, row: int, col: int): (r: Box)
    ensures InBox(Some(r), (row, col))
    ensures box.Some? ==> Contains(r, box.value)
    ensures forall q :: InBox(box, q) ==> InBox(Some(r), q)
  {
    if box.None? then Box(col, row, col, row)
    else Box(Min(box.value.minX, col), Min(box.value.minY, row), Max(box.value.maxX, col), Max(box.value.maxY, row))
  }

  /** No smaller box does: every box holding the old box and the written coordinate holds the new one. */
  lemma ExtendLeast(box: Option<Box>, row: int, col: int, other: Box)
    requires InBox(Some(other), (row, col))
    requires box.Some? ==> Contains(other, box.value)
    ensures Contains(other, Extend(box, row, col))
  {
  }

  /** The blank generator, if any, and JavaScript truthiness of cells. */
  datatype Blanks<!T> = Blanks(getBlank: Option<(int, int) -> T>, truthy: T -> bool)

  /** The cell at `p` agrees in `a` and `b`: present in both or neither, with the same value. */
  ghost predicate AgreeAt<T>(a: map<Coord, T>, b: map<Coord, T>, p: Coord)
  {
    (p in a <==> p in b) && (p in a ==> a[p] == b[p])
  }

  /**
   * `getAt(row, col)`: the node read and the cells afterwards. A truthy stored value is returned;
   * outside the box, or with no truthy blank, the read gives `undefined` and stores nothing;
   * otherwise the blank is stored, replacing a falsy value, and returned.
   */
  function Read<T>(cells: map<Coord, T>, box: Option<Box>, bl: Blanks<T>, p: Coord): (r: (Option<T>, map<Coord, T>))
    ensures p in cells && bl.truthy(cells[p]) ==> r == (Some(cells[p]), cells)
    ensures !(p in cells && bl.truthy(cells[p])) && !InBox(box, p) ==> r == (None, cells)
    ensures r.0.Some? ==> bl.truthy(r.0.value) && p in r.1 && r.1[p] == r.0.value
    ensures r.0.None? ==> r.1 == cells
    ensures forall q :: q != p ==> AgreeAt(r.1, cells, q)
  {
    if p in cells && bl.truthy(cells[p]) then (Some(cells[p]), cells)
    else if !InBox(box, p) then (None, cells)
    else if bl.getBlank.None? || !bl.truthy(bl.getBlank.value(p.0, p.1)) then (None, cells)
    else
      var blank := bl.getBlank.value(p.0, p.1);
      (Some(blank), cells[p := blank])
  }

  /** A read depends only on the cell read. */
  lemma ReadLocal<T>(a: map<Coord, T>, b: map<Coord, T>, box: Option<Box>, bl: Blanks<T>, p: Coord)
    requires AgreeAt(a, b, p)
    ensures Read(a, box, bl, p).0 == Read(b, box, bl, p).0
    ensures AgreeAt(Read(a, box, bl, p).1, Read(b, box, bl, p).1, p)
  {
  }

  /** Reading again gives the same node and stores nothing more: a blank is created once and then reused. */
  lemma ReadIdempotent<T>(cells: map<Coord, T>, box: Option<Box>, bl: Blanks<T>, p: Coord)
    ensures var (d, after) := Read(cells, box, bl, p); Read(after, box, bl, p) == (d, after)
  {
  }

  /** A truthy value just written is what `getAt` returns there. */
  lemma SetThenGet<T>(cells: map<Coord, T>, box: Option<Box>, bl: Blanks<T>, row: int, col: int, v: T)
    requires bl.truthy(v)
    ensures Read(cells[(row, col) := v], Some(Extend(box, row, col)), bl, (row, col)) == (Some(v), cells[(row, col) := v])
  {
  }

  /** `fn` over the nodes at `coords`, each read through `getAt` in turn, with the cells its reads leave. */
  function Reduced<T, A>(cells: map<Coord, T>, box: Option<Box>, bl: Blanks<T>, coords: seq<Coord>,
                         fn: (A, Option<T>, int, int) -> A, acc: A): (A, map<Coord, T>)
    decreases |coords|
  {
    if coords == [] then (acc, cells)
    else
      var (d, after) := Read(cells, box, bl, coords[0]);
      Reduced(after, box, bl, coords[1..], fn, fn(acc, d, coords[0].0, coords[0].1))
  }

  /** The reference the reads are checked against: `fn` over the nodes each coordinate gives on the original cells. */
  function Pure<T, A>(cells: map<Coord, T>, box: Option<Box>, bl: Blanks<T>, coords: seq<Coord>,
                      fn: (A, Option<T>, int, int) -> A, acc: A): A
  {
    if coords == [] then acc
    else Pure(cells, box, bl, coords[1..], fn, fn(acc, Read(cells, box, bl, coords[0]).0, coords[0].0, coords[0].1))
  }

  predicate Distinct(coords: seq<Coord>)
  {
    forall i, j :: 0 <= i < j < |coords| ==> coords[i] != coords[j]
  }

  lemma {:induction false} PureFrame<T, A>(a: map<Coord, T>, b: map<Coord, T>, box: Option<Box>, bl: Blanks<T>, coords: seq<Coord>,
                                          fn: (A, Option<T>, int, int) -> A, acc: A)
    requires forall q :: q in coords ==> Read(a, box, bl, q).0 == Read(b, box, bl, q).0
    ensures Pure(a, box, bl, coords, fn, acc) == Pure(b, box, bl, coords, fn, acc)
    decreases |coords|
  {
    if coords != [] {
      assert coords[0] in coords;
      var next := fn(acc, Read(a, box, bl, coords[0]).0, coords[0].0, coords[0].1);
      assert forall q :: q in coords[1..] ==> q in coords;
      PureFrame(a, b, box, bl, coords[1..], fn, next);
    }
  }

  /**
   * Over distinct coordinates the reads do not interfere: `reduce`, `forEach` and the other
   * iterators see exactly the nodes `getAt` would give on the cells as they were.
   */
  lemma {:induction false} ReducedIsPure<T, A>(cells: map<Coord, T>, box: Option<Box>, bl: Blanks<T>, coords: seq<Coord>,
                                              fn: (A, Option<T>, int, int) -> A, acc: A)
    requires Distinct(coords)
    ensures Reduced(cells, box, bl, coords, fn, acc).0 == Pure(cells, box, bl, coords, fn, acc)
    decreases |coords|
  {
    if coords != [] {
      var (d, after) := Read(cells, box, bl, coords[0]);
      var next := fn(acc, d, coords[0].0, coords[0].1);
      assert Distinct(coords[1..]);
      ReducedIsPure(after, box, bl, coords[1..], fn, next);
      forall q | q in coords[1..]
        ensures Read(after, box, bl, q).0 == Read(cells, box, bl, q).0
      {
        assert q != coords[0];
        ReadLocal(after, cells, box, bl, q);
      }
      PureFrame(after, cells, box, bl, coords[1..], fn, next);
    }
  }

  /**
   * After the reads of distinct coordinates, a cell outside them is as it was, and one among them
   * is as a single `getAt` of it would leave it.
   */
  lemma {:induction false} ReducedCells<T, A>(cells: map<Coord, T>, box: Option<Box>, bl: Blanks<T>, coords: seq<Coord>,
                                             fn: (A, Option<T>, int, int) -> A, acc: A, q: Coord)
    requires Distinct(coords)
    ensures AgreeAt(Reduced(cells, box, bl, coords, fn, acc).1, if q in coords then Read(cells, box, bl, q).1 else cells, q)
    decreases |coords|
  {
    if coords != [] {
      var (d, after) := Read(cells, box, bl, coords[0]);
      var next := fn(acc, d, coords[0].0, coords[0].1);
      assert Distinct(coords[1..]);
      ReducedCells(after, box, bl, coords[1..], fn, next, q);
      if q == coords[0] {
        assert q !in coords[1..];
      } else {
        assert q in coords <==> q in coords[1..];
        if q in coords {
          ReadLocal(after, cells, box, bl, q);
        }
      }
    }
  }

  /** Iterating a second time sees the same nodes as the first: cached blanks are returned again. */
  lemma {:induction false} ReducedTwice<T, A>(cells: map<Coord, T>, box: Option<Box>, bl: Blanks<T>, coords: seq<Coord>,
                                             fn: (A, Option<T>, int, int) -> A, acc: A, fn2: (A, Option<T>, int, int) -> A)
    requires Distinct(coords)
    ensures Reduced(Reduced(cells, box, bl, coords, fn2, acc).1, box, bl, coords, fn, acc).0 == Reduced(cells, box, bl, coords, fn, acc).0
  {
    var after := Reduced(cells, box, bl, coords, fn2, acc).1;
    ReducedIsPure(after, box, bl, coords, fn, acc);
    ReducedIsPure(cells, box, bl, coords, fn, acc);
    forall q | q in coords
      ensures Read(after, box, bl, q).0 == Read(cells, box, bl, q).0
    {
      ReducedCells(cells, box, bl, coords, fn2, acc, q);
      ReadLocal(after, Read(cells, box, bl, q).1, box, bl, q);
      ReadIdempotent(cells, box, bl, q);
    }
    PureFrame(after, cells, box, bl, coords, fn, acc);
  }

  lemma ReducedStep<T, A>(cells: map<Coord, T>, box: Option<Box>, bl: Blanks<T>, p: Coord, rest: seq<Coord>,
                          fn: (A, Option<T>, int, int) -> A, acc: A)
    ensures var (d, after) := Read(cells, box, bl, p);
      Reduced(cells, box, bl, [p] + rest, fn, acc) == Reduced(after, box, bl, rest, fn, fn(acc, d, p.0, p.1))
  {
    assert ([p] + rest)[1..] == rest;
  }

  /** Row `row` from column `col` to `maxX`, left to right. */
  function RowCoords(row: int, col: int, maxX: int): seq<Coord>
    decreases maxX + 1 - col
  {
    if col > maxX then [] else [(row, col)] + RowCoords(row, col + 1, maxX)
  }

  /** Rows `row` to `box.maxY` of the box, each left to right. */
  function BoxRows(row: int, box: Box): seq<Coord>
    decreases box.maxY + 1 - row
  {
    if row > box.maxY then [] else RowCoords(row, box.minX, box.maxX) + BoxRows(row + 1, box)
  }

  /** The coordinates the nested `for` loops of the iterators visit: none for the empty box. */
  function BoxCoords(box: Option<Box>): seq<Coord>
  {
    if box.None? then [] else BoxRows(box.value.minY, box.value)
  }

  lemma {:induction false} RowCoordsExactly(row: int, col: int, maxX: int)
    ensures forall p :: p in RowCoords(row, col, maxX) <==> p.0 == row && col <= p.1 <= maxX
    ensures Grid.RowMajor(RowCoords(row, col, maxX))
    ensures |RowCoords(row, col, maxX)| == if maxX + 1 - col < 0 then 0 else maxX + 1 - col
    decreases maxX + 1 - col
  {
    if col <= maxX {
      RowCoordsExactly(row, col + 1, maxX);
    }
  }

  lemma {:induction false} BoxRowsExactly(row: int, box: Box)
    ensures forall p :: p in BoxRows(row, box) <==> row <= p.0 <= box.maxY && box.minX <= p.1 <= box.maxX
    ensures Grid.RowMajor(BoxRows(row, box))
    decreases box.maxY + 1 - row
  {
    if row <= box.maxY {
      RowCoordsExactly(row, box.minX, box.maxX);
      BoxRowsExactly(row + 1, box);
      var a, b := RowCoords(row, box.minX, box.maxX), BoxRows(row + 1, box);
      forall i, j | 0 <= i < j < |a + b|
        ensures Grid.Before((a + b)[i], (a + b)[j])
      {
        if j < |a| {
        } else if i >= |a| {
          assert (a + b)[i] == b[i - |a|] && (a + b)[j] == b[j - |a|];
        } else {
          assert (a + b)[i] in a && (a + b)[j] in b;
        }
      }
    }
  }

  lemma RowMajorDistinct(s: seq<Coord>)
    requires Grid.RowMajor(s)
    ensures Distinct(s)
  {
  }

  /** The iterators visit exactly the box, each cell once, in row-major order. */
  lemma BoxCoordsExactly(box: Option<Box>)
    ensures forall p :: p in BoxCoords(box) <==> InBox(box, p)
    ensures Grid.RowMajor(BoxCoords(box)) && Distinct(BoxCoords(box))
  {
    if box.Some? {
      BoxRowsExactly(box.value.minY, box.value);
      RowMajorDistinct(BoxCoords(box));
    }
  }

  /** The coordinates `(row + rowDiff, col + colDiff)` for each offset, in order. */
  function Around(row: int, col: int, offsets: seq<(int, int)>): (r: seq<Coord>)
    ensures |r| == |offsets|
    ensures forall i :: 0 <= i < |r| ==> r[i] == (row + offsets[i].0, col + offsets[i].1)
  {
    if offsets == [] then [] else [(row + offsets[0].0, col + offsets[0].1)] + Around(row, col, offsets[1..])
  }

  lemma AroundDistinct(row: int, col: int, offsets: seq<(int, int)>)
    requires forall i, j :: 0 <= i < j < |offsets| ==> offsets[i] != offsets[j]
    ensures Distinct(Around(row, col, offsets))
  {
  }

  /** The neighbour lists' callback: keep a truthy node. */
  function KeepTruthy<T>(truthy: T -> bool): (seq<T>, Option<T>, int, int) -> seq<T>
  {
    (acc: seq<T>, d: Option<T>, r: int, c: int) => if d.Some? && truthy(d.value) then acc + [d.value] else acc
  }

  /** `Array.from`'s callback: keep every node, `undefined` included. */
  function AppendNode<T>(): (seq<Option<T>>, Option<T>, int, int) -> seq<Option<T>>
  {
    (acc: seq<Option<T>>, d: Option<T>, r: int, c: int) => acc + [d]
  }

  /** The truthy nodes among `getAt` of `coords` on the original cells, in order. */
  function TruthyNodes<T>(cells: map<Coord, T>, box: Option<Box>, bl: Blanks<T>, coords: seq<Coord>): seq<T>
  {
    if coords == [] then []
    else
      var d := Read(cells, box, bl, coords[0]).0;
      (if d.Some? && bl.truthy(d.value) then [d.value] else []) + TruthyNodes(cells, box, bl, coords[1..])
  }

  lemma {:induction false} PureKeepTruthy<T>(cells: map<Coord, T>, box: Option<Box>, bl: Blanks<T>, coords: seq<Coord>, acc: seq<T>)
    ensures Pure(cells, box, bl, coords, KeepTruthy(bl.truthy), acc) == acc + TruthyNodes(cells, box, bl, coords)
    decreases |coords|
  {
    if coords != [] {
      var next := KeepTruthy(bl.truthy)(acc, Read(cells, box, bl, coords[0]).0, coords[0].0, coords[0].1);
      PureKeepTruthy(cells, box, bl, coords[1..], next);
    }
  }

  lemma {:induction false} TruthyNodesExactly<T>(cells: map<Coord, T>, box: Option<Box>, bl: Blanks<T>, coords: seq<Coord>)
    ensures |TruthyNodes(cells, box, bl, coords)| <= |coords|
    ensures forall x :: x in TruthyNodes(cells, box, bl, coords) <==> exists q :: q in coords && Read(cells, box, bl, q).0 == Some(x)
    decreases |coords|
  {
    if coords != [] {
      TruthyNodesExactly(cells, box, bl, coords[1..]);
      forall x | exists q :: q in coords && Read(cells, box, bl, q).0 == Some(x)
        ensures x in TruthyNodes(cells, box, bl, coords)
      {
        var q :| q in coords && Read(cells, box, bl, q).0 == Some(x);
        if q != coords[0] {
          assert q in coords[1..];
        }
      }
    }
  }

  /**
   * The neighbour lists hold exactly the truthy nodes `getAt` gives one offset away, at most one
   * per offset.
   */
  lemma NeighborsExactly<T>(cells: map<Coord, T>, box: Option<Box>, bl: Blanks<T>, row: int, col: int, offsets: seq<(int, int)>)
    requires forall i, j :: 0 <= i < j < |offsets| ==> offsets[i] != offsets[j]
    ensures var r := Reduced(cells, box, bl, Around(row, col, offsets), KeepTruthy(bl.truthy), []).0;
      |r| <= |offsets|
      && forall x :: x in r <==> exists o :: o in offsets && Read(cells, box, bl, (row + o.0, col + o.1)).0 == Some(x)
  {
    var coords := Around(row, col, offsets);
    AroundDistinct(row, col, offsets);
    ReducedIsPure(cells, box, bl, coords, KeepTruthy(bl.truthy), []);
    PureKeepTruthy(cells, box, bl, coords, []);
    TruthyNodesExactly(cells, box, bl, coords);
    forall x
      ensures (exists q :: q in coords && Read(cells, box, bl, q).0 == Some(x))
        <==> (exists o :: o in offsets && Read(cells, box, bl, (row + o.0, col + o.1)).0 == Some(x))
    {
      AroundMembership(row, col, offsets);
    }
  }

  lemma AroundMembership(row: int, col: int, offsets: seq<(int, int)>)
    ensures forall q :: q in Around(row, col, offsets) <==> exists o :: o in offsets && q == (row + o.0, col + o.1)
  {
    var coords := Around(row, col, offsets);
    forall q | q in coords
      ensures exists o :: o in offsets && q == (row + o.0, col + o.1)
    {
      var i :| 0 <= i < |coords| && coords[i] == q;
      assert offsets[i] in offsets;
    }
    forall o | o in offsets
      ensures (row + o.0, col + o.1) in coords
    {
      var i :| 0 <= i < |offsets| && offsets[i] == o;
      assert coords[i] == (row + o.0, col + o.1);
    }
  }

  lemma {:induction false} AppendNodeLength<T>(cells: map<Coord, T>, box: Option<Box>, bl: Blanks<T>, coords: seq<Coord>, acc: seq<Option<T>>)
    ensures |Reduced(cells, box, bl, coords, AppendNode(), acc).0| == |acc| + |coords|
    decreases |coords|
  {
    if coords != [] {
      var (d, after) := Read(cells, box, bl, coords[0]);
      AppendNodeLength(after, box, bl, coords[1..], acc + [d]);
    }
  }

  /** The coordinates `getColumn(col)` reads: rows `row` to `row + n - 1`. */
  function ColumnCoords(row: int, col: int, n: nat): seq<Coord>
    decreases n
  {
    if n == 0 then [] else [(row, col)] + ColumnCoords(row + 1, col, n - 1)
  }

  /** What `filter` keeps of the nodes at `ps` read on `cells`. */
  function FilterStep<T>(fn: (T, int, int) -> bool, truthy: T -> bool): (seq<T>, Option<T>, int, int) -> seq<T>
  {
    Grid.FilterStep(fn, truthy)
  }

  /** `find`'s loop: the first node satisfying `fn`, and the cells after the reads up to it. */
  function FirstMatch<T>(cells: map<Coord, T>, box: Option<Box>, bl: Blanks<T>, coords: seq<Coord>,
                         fn: (Option<T>, int, int) -> bool): (r: (Option<T>, map<Coord, T>))
    decreases |coords|
  {
    if coords == [] then (None, cells)
    else
      var (d, after) := Read(cells, box, bl, coords[0]);
      if fn(d, coords[0].0, coords[0].1) then (d, after) else FirstMatch(after, box, bl, coords[1..], fn)
  }

  /**
   * Over distinct coordinates, `find` returns the node of the first coordinate whose node, read on
   * the original cells, satisfies `fn`; `undefined` when there is none.
   */
  lemma {:induction false} FirstMatchSpec<T>(cells: map<Coord, T>, box: Option<Box>, bl: Blanks<T>, coords: seq<Coord>,
                                            fn: (Option<T>, int, int) -> bool)
    requires Distinct(coords)
    ensures var r := FirstMatch(cells, box, bl, coords, fn).0;
      ((forall i :: 0 <= i < |coords| ==> !fn(Read(cells, box, bl, coords[i]).0, coords[i].0, coords[i].1)) ==> r == None)
      && forall k :: 0 <= k < |coords| && fn(Read(cells, box, bl, coords[k]).0, coords[k].0, coords[k].1)
           && (forall i :: 0 <= i < k ==> !fn(Read(cells, box, bl, coords[i]).0, coords[i].0, coords[i].1))
           ==> r == Read(cells, box, bl, coords[k]).0
    decreases |coords|
  {
    if coords != [] {
      var (d, after) := Read(cells, box, bl, coords[0]);
      var rest := coords[1..];
      assert Distinct(rest);
      FirstMatchSpec(after, box, bl, rest, fn);
      forall i | 0 <= i < |rest|
        ensures Read(after, box, bl, rest[i]).0 == Read(cells, box, bl, coords[i + 1]).0
      {
        assert rest[i] == coords[i + 1] && coords[i + 1] != coords[0];
        ReadLocal(after, cells, box, bl, rest[i]);
      }
      forall k | 1 <= k < |coords| && fn(Read(cells, box, bl, coords[k]).0, coords[k].0, coords[k].1)
           && (forall i :: 0 <= i < k ==> !fn(Read(cells, box, bl, coords[i]).0, coords[i].0, coords[i].1))
        ensures FirstMatch(cells, box, bl, coords, fn).0 == Read(cells, box, bl, coords[k]).0
      {
        assert !fn(Read(cells, box, bl, coords[0]).0, coords[0].0, coords[0].1);
        assert forall i :: 0 <= i < k - 1 ==> rest[i] == coords[i + 1];
      }
    }
  }

  lemma FirstMatchStep<T>(cells: map<Coord, T>, box: Option<Box>, bl: Blanks<T>, p: Coord, rest: seq<Coord>,
                          fn: (Option<T>, int, int) -> bool)
    ensures var (d, after) := Read(cells, box, bl, p);
      FirstMatch(cells, box, bl, [p] + rest, fn) == if fn(d, p.0, p.1) then (d, after) else FirstMatch(after, box, bl, rest, fn)
  {
    assert ([p] + rest)[1..] == rest;
  }

  lemma RowStep(row: int, col: int, maxX: int, rest: seq<Coord>)
    requires col <= maxX
    ensures RowCoords(row, col, maxX) + rest == [(row, col)] + (RowCoords(row, col + 1, maxX) + rest)
  {
  }

  /** The box's rows above `top` have been read from `c0`, one `getAt` per cell, and nothing else. */
  ghost predicate ReadAbove<T>(c0: map<Coord, T>, cells: map<Coord, T>, box: Option<Box>, bl: Blanks<T>, top: int)
  {
    forall q :: AgreeAt(cells, if InBox(box, q) && q.0 < top then Read(c0, box, bl, q).1 else c0, q)
  }

  /** The nodes `getAt` gives at `coords`, one by one, on the same cells. */
  function Nodes<T>(cells: map<Coord, T>, box: Option<Box>, bl: Blanks<T>, coords: seq<Coord>): seq<Option<T>>
  {
    if coords == [] then [] else [Read(cells, box, bl, coords[0]).0] + Nodes(cells, box, bl, coords[1..])
  }

  /** One node per coordinate, the `k`th the one `getAt` gives at the `k`th coordinate. */
  lemma {:induction false} NodesAt<T>(cells: map<Coord, T>, box: Option<Box>, bl: Blanks<T>, coords: seq<Coord>, k: nat)
    ensures |Nodes(cells, box, bl, coords)| == |coords|
    ensures k < |coords| ==> Nodes(cells, box, bl, coords)[k] == Read(cells, box, bl, coords[k]).0
    decreases |coords|
  {
    if coords != [] {
      NodesAt(cells, box, bl, coords[1..], if k == 0 then 0 else k - 1);
    }
  }

  /** Appending every node read is appending the nodes of the coordinates. */
  lemma {:induction false} PureAppendNode<T>(cells: map<Coord, T>, box: Option<Box>, bl: Blanks<T>, coords: seq<Coord>, acc: seq<Option<T>>)
    ensures Pure(cells, box, bl, coords, AppendNode(), acc) == acc + Nodes(cells, box, bl, coords)
    decreases |coords|
  {
    if coords != [] {
      var d := Read(cells, box, bl, coords[0]).0;
      PureAppendNode(cells, box, bl, coords[1..], acc + [d]);
      Concat3(acc, [d], Nodes(cells, box, bl, coords[1..]));
    }
  }

  lemma Concat3<T>(a: seq<T>, b: seq<T>, c: seq<T>)
    ensures a + (b + c) == a + b + c
  {
  }

  lemma {:induction false} RowCoordsAt(row: int, col: int, maxX: int, c: nat)
    requires c < |RowCoords(row, col, maxX)|
    ensures RowCoords(row, col, maxX)[c] == (row, col + c)
    decreases c
  {
    if c > 0 {
      RowCoordsAt(row, col + 1, maxX, c - 1);
    }
  }

  lemma AgreeTrans<T>(a: map<Coord, T>, b: map<Coord, T>, c: map<Coord, T>, q: Coord)
    requires AgreeAt(a, b, q) && AgreeAt(b, c, q)
    ensures AgreeAt(a, c, q)
  {
  }

  lemma AgreeShared<T>(a: map<Coord, T>, b: map<Coord, T>, c: map<Coord, T>, q: Coord)
    requires AgreeAt(a, b, q) && AgreeAt(c, b, q)
    ensures AgreeAt(a, c, q)
  {
  }

  /** Reading every node of distinct coordinates and appending it gives their nodes on the cells as they were. */
  lemma AppendNodes<T>(cells: map<Coord, T>, box: Option<Box>, bl: Blanks<T>, coords: seq<Coord>)
    requires Distinct(coords)
    ensures Reduced(cells, box, bl, coords, AppendNode(), []).0 == Nodes(cells, box, bl, coords)
  {
    ReducedIsPure(cells, box, bl, coords, AppendNode(), []);
    PureAppendNode(cells, box, bl, coords, []);
  }

  /** Reading row `top` of the box moves one cell `q` from "not yet read" to "read once". */
  lemma RowCellRead<T>(c0: map<Coord, T>, cells: map<Coord, T>, box: Option<Box>, bl: Blanks<T>, top: int,
                       coords: seq<Coord>, q: Coord)
    requires Distinct(coords) && (q in coords <==> InBox(box, q) && q.0 == top)
    requires AgreeAt(cells, if InBox(box, q) && q.0 < top then Read(c0, box, bl, q).1 else c0, q)
    ensures AgreeAt(Reduced(cells, box, bl, coords, AppendNode(), []).1, if InBox(box, q) && q.0 < top + 1 then Read(c0, box, bl, q).1 else c0, q)
  {
    var after := Reduced(cells, box, bl, coords, AppendNode(), []).1;
    ReducedCells(cells, box, bl, coords, AppendNode(), [], q);
    if q in coords {
      ReadLocal(cells, c0, box, bl, q);
      AgreeTrans(after, Read(cells, box, bl, q).1, Read(c0, box, bl, q).1, q);
    } else {
      AgreeTrans(after, cells, if InBox(box, q) && q.0 < top then Read(c0, box, bl, q).1 else c0, q);
    }
  }

  /** The nodes depend only on the cells at the coordinates. */
  lemma {:induction false} NodesFrame<T>(a: map<Coord, T>, b: map<Coord, T>, box: Option<Box>, bl: Blanks<T>, coords: seq<Coord>)
    requires forall q :: q in coords ==> AgreeAt(a, b, q)
    ensures Nodes(a, box, bl, coords) == Nodes(b, box, bl, coords)
    decreases |coords|
  {
    if coords != [] {
      assert coords[0] in coords;
      ReadLocal(a, b, box, bl, coords[0]);
      assert forall q :: q in coords[1..] ==> q in coords;
      NodesFrame(a, b, box, bl, coords[1..]);
    }
  }

  /**
   * One `getRow` of `toArray`: row `top` of the box holds the nodes of the original cells `c0`,
   * and one more row of the box has been read.
   */
  lemma RowOfArray<T>(c0: map<Coord, T>, cells: map<Coord, T>, box: Option<Box>, bl: Blanks<T>, top: int,
                      row: seq<Option<T>>, after: map<Coord, T>)
    requires box.Some? && box.value.minY <= top <= box.value.maxY && ReadAbove(c0, cells, box, bl, top)
    requires (row, after) == Reduced(cells, box, bl, RowCoords(top, box.value.minX, box.value.maxX), AppendNode(), [])
    ensures row == Nodes(c0, box, bl, RowCoords(top, box.value.minX, box.value.maxX))
    ensures ReadAbove(c0, after, box, bl, top + 1)
  {
    var b := box.value;
    var coords := RowCoords(top, b.minX, b.maxX);
    RowCoordsExactly(top, b.minX, b.maxX);
    RowMajorDistinct(coords);
    AppendNodes(cells, box, bl, coords);
    forall q | q in coords
      ensures AgreeAt(cells, c0, q)
    {
      assert AgreeAt(cells, if InBox(box, q) && q.0 < top then Read(c0, box, bl, q).1 else c0, q);
    }
    NodesFrame(cells, c0, box, bl, coords);
    forall q
      ensures AgreeAt(after, if InBox(box, q) && q.0 < top + 1 then Read(c0, box, bl, q).1 else c0, q)
    {
      assert AgreeAt(cells, if InBox(box, q) && q.0 < top then Read(c0, box, bl, q).1 else c0, q);
      RowCellRead(c0, cells, box, bl, top, coords, q);
    }
  }

  /** `toArray`'s rows so far: each `width` long, row `i` the nodes of box row `i + minY` on the cells `c0`. */
  ghost predicate RowsRead<T>(c0: map<Coord, T>, box: Option<Box>, bl: Blanks<T>, width: nat, rows: seq<seq<Option<T>>>)
  {
    forall i :: 0 <= i < |rows| ==> (|rows[i]| == width
      && box.Some? && rows[i] == Nodes(c0, box, bl, RowCoords(i + box.value.minY, box.value.minX, box.value.maxX)))
  }

  lemma RowsSnoc<T>(c0: map<Coord, T>, box: Option<Box>, bl: Blanks<T>, width: nat, rows: seq<seq<Option<T>>>, top: int, row: seq<Option<T>>)
    requires RowsRead(c0, box, bl, width, rows) && box.Some? && |row| == width && top == box.value.minY + |rows|
    requires row == Nodes(c0, box, bl, RowCoords(top, box.value.minX, box.value.maxX))
    ensures RowsRead(c0, box, bl, width, rows + [row])
  {
  }

  /** Row `i`, column `c` of rows read as `toArray` reads them is the node at `(i + minY, c + minX)`. */
  lemma ArrayNodes<T>(c0: map<Coord, T>, box: Option<Box>, bl: Blanks<T>, width: nat, rows: seq<seq<Option<T>>>)
    requires RowsRead(c0, box, bl, width, rows)
    ensures forall i :: 0 <= i < |rows| ==> |rows[i]| == width
    ensures forall i, c :: 0 <= i < |rows| && 0 <= c < |rows[i]| ==>
      box.Some? && rows[i][c] == Read(c0, box, bl, (i + box.value.minY, c + box.value.minX)).0
  {
    forall i, c | 0 <= i < |rows| && 0 <= c < |rows[i]|
      ensures box.Some? && rows[i][c] == Read(c0, box, bl, (i + box.value.minY, c + box.value.minX)).0
    {
      var b := box.value;
      var coords := RowCoords(i + b.minY, b.minX, b.maxX);
      NodesAt(c0, box, bl, coords, c);
      RowCoordsAt(i + b.minY, b.minX, b.maxX, c);
    }
  }

  /** Once every row of the box is read, the cells are those the iterators' reads over the box leave. */
  lemma BoxRead<T>(c0: map<Coord, T>, cells: map<Coord, T>, box: Option<Box>, bl: Blanks<T>, top: int)
    requires ReadAbove(c0, cells, box, bl, top)
    requires box.Some? ==> top > box.value.maxY
    ensures forall q :: AgreeAt(cells, if InBox(box, q) then Read(c0, box, bl, q).1 else c0, q)
    ensures cells == Reduced(c0, box, bl, BoxCoords(box), AppendNode(), []).1
  {
    var r := Reduced(c0, box, bl, BoxCoords(box), AppendNode(), []).1;
    BoxCoordsExactly(box);
    forall q
      ensures AgreeAt(cells, if InBox(box, q) then Read(c0, box, bl, q).1 else c0, q)
    {
      assert AgreeAt(cells, if InBox(box, q) && q.0 < top then Read(c0, box, bl, q).1 else c0, q);
    }
    forall q
      ensures (q in cells <==> q in r) && (q in cells ==> cells[q] == r[q])
    {
      var x := if InBox(box, q) then Read(c0, box, bl, q).1 else c0;
      assert AgreeAt(cells, x, q);
      ReducedCells(c0, box, bl, BoxCoords(box), AppendNode(), [], q);
      AgreeShared(cells, x, r, q);
    }
    assert cells.Keys == r.Keys;
  }

  class VirtualGrid<T> {
    var cells: map<Coord, T>
    var box: Option<Box>
    const getBlank: Option<(int, int) -> T>
    const truthy: T -> bool

    function Blank(): Blanks<T>
    {
      Blanks(getBlank, truthy)
    }

    constructor (getBlank: Option<(int, int) -> T>, truthy: T -> bool)
      ensures cells == map[] && box == None
      ensures this.getBlank == getBlank && this.truthy == truthy
    {
      cells, box := map[], None;
      this.getBlank, this.truthy := getBlank, truthy;
    }

    /** `getAt`: the node, and the cell as `Read` leaves it; the box does not change. */
    method GetAt(rowIndex: int, colIndex: int) returns (node: Option<T>)
      modifies this
      ensures (node, cells) == Read(old(cells), box, Blank(), (rowIndex, colIndex))
      ensures box == old(box)
    {
      var p := (rowIndex, colIndex);
      if p in cells && truthy(cells[p]) {
        return Some(cells[p]);
      }
      if !InBox(box, p) {
        return None;
      }
      if getBlank.None? || !truthy(getBlank.value(rowIndex, colIndex)) {
        return None;
      }
      var blank := getBlank.value(rowIndex, colIndex);
      cells := cells[p := blank];
      return Some(blank);
    }

    /** `setAt`: the value is stored and the box grows to the least one holding the coordinate. */
    method SetAt(rowIndex: int, colIndex: int, value: T)
      modifies this
      ensures cells == old(cells)[(rowIndex, colIndex) := value]
      ensures box == Some(Extend(old(box), rowIndex, colIndex))
    {
      cells := cells[(rowIndex, colIndex) := value];
      box := Some(Extend(box, rowIndex, colIndex));
    }

    /** `width`: `maxX - minX + 1`. */
    function Width(): (w: Extent)
      reads this
      ensures box.None? <==> w.MinusInfinity?
    {
      if box.None? then MinusInfinity else Finite(box.value.maxX - box.value.minX + 1)
    }

    /** `height`: `maxY - minY + 1`. */
    function Height(): (h: Extent)
      reads this
      ensures box.None? <==> h.MinusInfinity?
    {
      if box.None? then MinusInfinity else Finite(box.value.maxY - box.value.minY + 1)
    }

    /** The nested loops of the iterators: `fn` at each coordinate of `coords`, read through `getAt`. */
    method Visit<A>(coords: seq<Coord>, fn: (A, Option<T>, int, int) -> A, initialValue: A) returns (acc: A)
      modifies this
      ensures (acc, cells) == Reduced(old(cells), box, Blank(), coords, fn, initialValue)
      ensures box == old(box)
    {
      acc := initialValue;
      var i := 0;
      while i < |coords|
        invariant 0 <= i <= |coords| && box == old(box)
        invariant Reduced(cells, box, Blank(), coords[i..], fn, acc) == Reduced(old(cells), box, Blank(), coords, fn, initialValue)
        decreases |coords| - i
      {
        assert coords[i..] == [coords[i]] + coords[i + 1..];
        ReducedStep(cells, box, Blank(), coords[i], coords[i + 1..], fn, acc);
        var node := GetAt(coords[i].0, coords[i].1);
        acc := fn(acc, node, coords[i].0, coords[i].1);
        i := i + 1;
      }
    }

    /**
     * `reduce` (and `forEach`, whose callback's effects are threaded through the accumulator):
     * row `minY` to `maxY`, each column `minX` to `maxX`, reading every cell through `getAt`.
     */
    method Reduce<A>(fn: (A, Option<T>, int, int) -> A, initialValue: A) returns (acc: A)
      modifies this
      ensures (acc, cells) == Reduced(old(cells), box, Blank(), BoxCoords(box), fn, initialValue)
      ensures box == old(box)
    {
      acc := initialValue;
      if box.None? {
        return;
      }
      var b := box.value;
      var rowIndex := b.minY;
      while rowIndex <= b.maxY
        invariant box == old(box)
        invariant Reduced(cells, box, Blank(), BoxRows(rowIndex, b), fn, acc) == Reduced(old(cells), box, Blank(), BoxCoords(box), fn, initialValue)
        decreases b.maxY + 1 - rowIndex
      {
        assert BoxRows(rowIndex, b) == RowCoords(rowIndex, b.minX, b.maxX) + BoxRows(rowIndex + 1, b);
        var colIndex := b.minX;
        while colIndex <= b.maxX
          invariant box == old(box)
          invariant Reduced(cells, box, Blank(), RowCoords(rowIndex, colIndex, b.maxX) + BoxRows(rowIndex + 1, b), fn, acc)
            == Reduced(old(cells), box, Blank(), BoxCoords(box), fn, initialValue)
          decreases b.maxX + 1 - colIndex
        {
          RowStep(rowIndex, colIndex, b.maxX, BoxRows(rowIndex + 1, b));
          ReducedStep(cells, box, Blank(), (rowIndex, colIndex), RowCoords(rowIndex, colIndex + 1, b.maxX) + BoxRows(rowIndex + 1, b), fn, acc);
          var node := GetAt(rowIndex, colIndex);
          acc := fn(acc, node, rowIndex, colIndex);
          colIndex := colIndex + 1;
        }
        assert RowCoords(rowIndex, colIndex, b.maxX) + BoxRows(rowIndex + 1, b) == BoxRows(rowIndex + 1, b);
        rowIndex := rowIndex + 1;
      }
    }

    /** `filter`: the truthy nodes of the box satisfying `fn`, in row-major order. */
    method Filter(fn: (T, int, int) -> bool) returns (filtered: seq<T>)
      modifies this
      ensures (filtered, cells) == Reduced(old(cells), box, Blank(), BoxCoords(box), FilterStep(fn, truthy), [])
      ensures box == old(box)
    {
      filtered := Reduce(FilterStep(fn, truthy), []);
    }

    /** `find`: the first node of the box, in row-major order, satisfying `fn`. */
    method Find(fn: (Option<T>, int, int) -> bool) returns (node: Option<T>)
      modifies this
      ensures (node, cells) == FirstMatch(old(cells), box, Blank(), BoxCoords(box), fn)
      ensures box == old(box)
    {
      if box.None? {
        return None;
      }
      var b := box.value;
      var rowIndex := b.minY;
      while rowIndex <= b.maxY
        invariant box == old(box)
        invariant FirstMatch(cells, box, Blank(), BoxRows(rowIndex, b), fn) == FirstMatch(old(cells), box, Blank(), BoxCoords(box), fn)
        decreases b.maxY + 1 - rowIndex
      {
        assert BoxRows(rowIndex, b) == RowCoords(rowIndex, b.minX, b.maxX) + BoxRows(rowIndex + 1, b);
        var colIndex := b.minX;
        while colIndex <= b.maxX
          invariant box == old(box)
          invariant FirstMatch(cells, box, Blank(), RowCoords(rowIndex, colIndex, b.maxX) + BoxRows(rowIndex + 1, b), fn)
            == FirstMatch(old(cells), box, Blank(), BoxCoords(box), fn)
          decreases b.maxX + 1 - colIndex
        {
          RowStep(rowIndex, colIndex, b.maxX, BoxRows(rowIndex + 1, b));
          FirstMatchStep(cells, box, Blank(), (rowIndex, colIndex), RowCoords(rowIndex, colIndex + 1, b.maxX) + BoxRows(rowIndex + 1, b), fn);
          node := GetAt(rowIndex, colIndex);
          if fn(node, rowIndex, colIndex) {
            return node;
          }
          colIndex := colIndex + 1;
        }
        assert RowCoords(rowIndex, colIndex, b.maxX) + BoxRows(rowIndex + 1, b) == BoxRows(rowIndex + 1, b);
        rowIndex := rowIndex + 1;
      }
      return None;
    }

    /** `getOrthogonalNeighborsOf`: the truthy nodes one step right, left, down and up. */
    method OrthogonalNeighborsOf(row: int, col: int) returns (neighbors: seq<T>)
      modifies this
      ensures (neighbors, cells) == Reduced(old(cells), box, Blank(), Around(row, col, Grid.OrthogonalOffsets()), KeepTruthy(truthy), [])
      ensures box == old(box)
    {
      neighbors := Visit(Around(row, col, Grid.OrthogonalOffsets()), KeepTruthy(truthy), []);
    }

    /** `getAllNeighborsOf`: the truthy nodes among the eight around. */
    method AllNeighborsOf(row: int, col: int) returns (neighbors: seq<T>)
      modifies this
      ensures (neighbors, cells) == Reduced(old(cells), box, Blank(), Around(row, col, Grid.AllOffsets()), KeepTruthy(truthy), [])
      ensures box == old(box)
    {
      neighbors := Visit(Around(row, col, Grid.AllOffsets()), KeepTruthy(truthy), []);
    }

    /** `getRow`: `width` nodes, columns `minX` onward, `undefined` where there is none. */
    method GetRow(rowIndex: int) returns (row: seq<Option<T>>)
      modifies this
      ensures box.Some? ==> (row, cells) == Reduced(old(cells), box, Blank(), RowCoords(rowIndex, box.value.minX, box.value.maxX), AppendNode(), [])
      ensures box.None? ==> row == [] && cells == old(cells)
      ensures |row| == Count(Width())
      ensures box == old(box)
    {
      if box.None? {
        return [];
      }
      RowCoordsExactly(rowIndex, box.value.minX, box.value.maxX);
      AppendNodeLength(cells, box, Blank(), RowCoords(rowIndex, box.value.minX, box.value.maxX), []);
      row := Visit(RowCoords(rowIndex, box.value.minX, box.value.maxX), AppendNode(), []);
    }

    /** `getColumn`: `height` nodes, rows `minY` onward, `undefined` where there is none. */
    method GetColumn(colIndex: int) returns (column: seq<Option<T>>)
      modifies this
      ensures (column, cells) == Reduced(old(cells), box, Blank(), ColumnCoords(if box.Some? then box.value.minY else 0, colIndex, Count(Height())), AppendNode(), [])
      ensures |column| == Count(Height())
      ensures box == old(box)
    {
      var coords := ColumnCoords(if box.Some? then box.value.minY else 0, colIndex, Count(Height()));
      assert |coords| == Count(Height()) by {
        ColumnCoordsLength(if box.Some? then box.value.minY else 0, colIndex, Count(Height()));
      }
      AppendNodeLength(cells, box, Blank(), coords, []);
      column := Visit(coords, AppendNode(), []);
    }

    /** The row `toArray` builds at `y`: `getRow(y + minY)`, read from the cells `c0` as they were. */
    method ArrayRow(ghost c0: map<Coord, T>, y: nat) returns (row: seq<Option<T>>)
      requires box.Some? && box.value.minY + y <= box.value.maxY && ReadAbove(c0, cells, box, Blank(), box.value.minY + y)
      modifies this
      ensures box == old(box) && |row| == Count(Width())
      ensures row == Nodes(c0, box, Blank(), RowCoords(box.value.minY + y, box.value.minX, box.value.maxX))
      ensures ReadAbove(c0, cells, box, Blank(), box.value.minY + y + 1)
    {
      ghost var before := cells;
      row := GetRow(y + box.value.minY);
      assert y + box.value.minY == box.value.minY + y;
      RowOfArray(c0, before, box, Blank(), box.value.minY + y, row, cells);
    }

    /**
     * `toArray`: `height` rows, from `minY` on, each as `getRow` gives it: row `i` holds the
     * nodes `getAt` reads along row `i + minY` from the cells as they were (so, by `ArrayNodes`,
     * column `c` is the node at `(i + minY, c + minX)`), and the cells end as the iterators'
     * reads over the whole box leave them.
     */
    method ToArray() returns (rows: seq<seq<Option<T>>>)
      modifies this
      ensures |rows| == Count(Height())
      ensures RowsRead(old(cells), box, Blank(), Count(Width()), rows)
      ensures forall q :: AgreeAt(cells, if InBox(box, q) then Read(old(cells), box, Blank(), q).1 else old(cells), q)
      ensures cells == Reduced(old(cells), box, Blank(), BoxCoords(box), AppendNode(), []).1
      ensures box == old(box)
    {
      ghost var c0, width := cells, Count(Width());
      ghost var top := if box.Some? then box.value.minY else 0;
      rows := [];
      var y := 0;
      while y < Count(Height())
        invariant 0 <= y <= Count(Height()) && |rows| == y && box == old(box) && Count(Width()) == width
        invariant RowsRead(c0, box, Blank(), width, rows)
        invariant ReadAbove(c0, cells, box, Blank(), top + y)
        decreases Count(Height()) - y
      {
        var row := ArrayRow(c0, y);
        RowsSnoc(c0, box, Blank(), width, rows, top + y, row);
        rows := rows + [row];
        y := y + 1;
      }
      BoxRead(c0, cells, box, Blank(), top + y);
    }

    /** `reset`: no cells and the empty box. */
    method Reset()
      modifies this
      ensures cells == map[] && box == None
    {
      cells, box := map[], None;
    }
  }

  lemma {:induction false} ColumnCoordsLength(row: int, col: int, n: nat)
    ensures |ColumnCoords(row, col, n)| == n
    ensures forall p :: p in ColumnCoords(row, col, n) <==> p.1 == col && row <= p.0 < row + n
    ensures Distinct(ColumnCoords(row, col, n))
    decreases n
  {
    if n > 0 {
      ColumnCoordsLength(row + 1, col, n - 1);
    }
  }

  /** The box only grows: every coordinate in it before a `setAt` is in it after. */
  lemma SetAtGrows(box: Option<Box>, row: int, col: int, q: Coord)
    requires InBox(box, q)
    ensures InBox(Some(Extend(box, row, col)), q)
  {
  }
}
