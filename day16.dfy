/**
 * Day 16: a beam of light enters a contraption of empty space '.', mirrors '/' and '\',
 * and splitters '|' and '-'. Every tile remembers the directions light has passed through it
 * in; a tile is energized once any light has passed through it.
 */
module Day16 {
  import opened Wrappers
  import Arithmetic
  import Grid
  import Text

  /** A tile's place as (row, column). */
  type Pos = (int, int)

  datatype Direction = Up | Down | Left | Right

  /** `DirectionDiffs`, as a row and a column offset. */
  function Diff(d: Direction): Pos
  {
    match d
    case Up => (-1, 0)
    case Down => (1, 0)
    case Left => (0, -1)
    case Right => (0, 1)
  }

  function Add(p: Pos, q: Pos): Pos
  {
    (p.0 + q.0, p.1 + q.1)
  }

  function Opposite(d: Direction): Direction
  {
    match d
    case Up => Down
    case Down => Up
    case Left => Right
    case Right => Left
  }

  /** `DirectionFlips[symbol]?.[direction] ?? [direction]`: where light entering a tile goes on. */
  function Flips(symbol: char, d: Direction): seq<Direction>
  {
    if symbol == '/' then
      match d
      case Up => [Right]
      case Down => [Left]
      case Left => [Down]
      case Right => [Up]
    else if symbol == '\\' then
      match d
      case Up => [Left]
      case Down => [Right]
      case Left => [Up]
      case Right => [Down]
    else if symbol == '|' && (d == Left || d == Right) then [Up, Down]
    else if symbol == '-' && (d == Up || d == Down) then [Left, Right]
    else [d]
  }

  /**
   * A splitter met side-on sends light both ways across; every other tile sends it on in one
   * direction, and anything but a mirror lets it through unchanged.
   */
  lemma FlipsSpec(symbol: char, d: Direction)
    ensures |Flips(symbol, d)| == 2 <==> (symbol == '|' && (d == Left || d == Right)) || (symbol == '-' && (d == Up || d == Down))
    ensures 1 <= |Flips(symbol, d)| <= 2
    ensures |Flips(symbol, d)| == 2 ==> Flips(symbol, d)[0] == Opposite(Flips(symbol, d)[1]) && Flips(symbol, d)[0] != d && Flips(symbol, d)[0] != Opposite(d)
    ensures symbol != '/' && symbol != '\\' && |Flips(symbol, d)| == 1 ==> Flips(symbol, d) == [d]
  {
  }

  /** A mirror turns light by a right angle, and light sent back the way it left retraces its path. */
  lemma MirrorReverses(symbol: char, d: Direction)
    requires symbol == '/' || symbol == '\\'
    ensures |Flips(symbol, d)| == 1 && Flips(symbol, d)[0] != d && Flips(symbol, d)[0] != Opposite(d)
    ensures Flips(symbol, Opposite(Flips(symbol, d)[0])) == [Opposite(d)]
  {
  }

  /** The contraption's tiles; `None` where a short line leaves a cell `undefined`. */
  type Symbols = Grid.Rows<char>

  predicate IsTile(symbols: Symbols, p: Pos)
  {
    Grid.Lookup(symbols, p.0, p.1).Some?
  }

  ghost function TileSet(symbols: Symbols): set<Pos>
  {
    set r, c | 0 <= r < |symbols| && 0 <= c < |symbols[r]| && symbols[r][c].Some? :: (r, c)
  }

  lemma TileSetExactly(symbols: Symbols)
    ensures forall p: Pos :: p in TileSet(symbols) <==> IsTile(symbols, p)
  {
    forall p: Pos | IsTile(symbols, p)
      ensures p in TileSet(symbols)
    {
      var (r, c) := p;
      assert 0 <= r < |symbols| && 0 <= c < |symbols[r]| && symbols[r][c].Some?;
    }
  }

  /** A queue item: the tile light enters (`undefined` off the grid) and the direction it travels. */
  datatype Entry = Entry(tile: Option<Pos>, direction: Direction)

  /** The items queued for `directions` out of `p`: the neighbour towards each, when it is a tile. */
  function AheadOf(symbols: Symbols, p: Pos, directions: seq<Direction>): (queued: seq<Entry>)
    ensures forall i :: 0 <= i < |queued| ==> queued[i].tile.Some? && IsTile(symbols, queued[i].tile.value)
  {
    if directions == [] then []
    else
      var d := directions[|directions| - 1];
      var q := Add(p, Diff(d));
      var init := AheadOf(symbols, p, directions[..|directions| - 1]);
      assert forall i :: 0 <= i < |directions| - 1 ==> directions[..|directions| - 1][i] == directions[i];
      init + (if IsTile(symbols, q) then [Entry(Some(q), d)] else [])
  }

  /** The items queued are exactly those for the directions whose neighbour is a tile. */
  lemma {:induction false} AheadOfMembers(symbols: Symbols, p: Pos, directions: seq<Direction>)
    ensures forall e :: e in AheadOf(symbols, p, directions) <==> exists i :: 0 <= i < |directions| && e == Entry(Some(Add(p, Diff(directions[i]))), directions[i]) && IsTile(symbols, Add(p, Diff(directions[i])))
  {
    if directions != [] {
      var init := directions[..|directions| - 1];
      AheadOfMembers(symbols, p, init);
      assert forall i :: 0 <= i < |init| ==> init[i] == directions[i];
    }
  }

  /** What processing light entering the tile at `p` in direction `d` adds to the queue. */
  function Ahead(symbols: Symbols, p: Pos, d: Direction): seq<Entry>
    requires IsTile(symbols, p)
  {
    AheadOf(symbols, p, Flips(Grid.Lookup(symbols, p.0, p.1).value, d))
  }

  /** Each tile's `lights`: the directions light has entered it in, in order. */
  type Lights = map<Pos, seq<Direction>>

  /** Every tile has its list of lights, and nothing else does. */
  ghost predicate Tracks(symbols: Symbols, lights: Lights)
  {
    forall p :: p in lights <==> IsTile(symbols, p)
  }

  predicate QueueOk(symbols: Symbols, queue: seq<Entry>)
  {
    forall i :: 0 <= i < |queue| ==> queue[i].tile.Some? ==> IsTile(symbols, queue[i].tile.value)
  }

  /** The (tile, direction) pairs light has passed through. */
  ghost function Lit(lights: Lights): set<(Pos, Direction)>
  {
    set p, d | p in lights && d in lights[p] :: (p, d)
  }

  /** All (tile, direction) pairs of the contraption. */
  ghost function Universe(symbols: Symbols): set<(Pos, Direction)>
  {
    set p, d | p in TileSet(symbols) && d in {Up, Down, Left, Right} :: (p, d)
  }

  /** Lighting a tile in a new direction adds one pair, and it is one of the contraption's. */
  lemma LightOne(symbols: Symbols, lights: Lights, p: Pos, d: Direction)
    requires Tracks(symbols, lights) && p in lights && d !in lights[p]
    ensures Lit(lights[p := lights[p] + [d]]) == Lit(lights) + {(p, d)}
    ensures Tracks(symbols, lights[p := lights[p] + [d]])
    ensures |Universe(symbols) - Lit(lights[p := lights[p] + [d]])| < |Universe(symbols) - Lit(lights)|
  {
    LitAdd(lights, p, d);
    TileSetExactly(symbols);
    assert (p, d) in Universe(symbols);
    Shrinks(Universe(symbols), Lit(lights), (p, d));
  }

  lemma LitAdd(lights: Lights, p: Pos, d: Direction)
    requires p in lights
    ensures Lit(lights[p := lights[p] + [d]]) == Lit(lights) + {(p, d)}
  {
    var after := lights[p := lights[p] + [d]];
    forall x | x in Lit(after)
      ensures x in Lit(lights) + {(p, d)}
    {
      var (q, e) := x;
      if q != p {
        assert q in lights && e in lights[q];
      }
    }
    forall x | x in Lit(lights)
      ensures x in Lit(after)
    {
      var (q, e) := x;
      assert q in after && e in after[q];
    }
    assert d in after[p];
  }

  lemma Shrinks<X>(u: set<X>, s: set<X>, x: X)
    requires x in u && x !in s
    ensures |u - (s + {x})| < |u - s|
  {
    assert u - s == (u - (s + {x})) + {x};
  }

  /**
   * `queue.process` of `addLight` from `lights`: the tile lights when the queue empties. An item
   * whose tile is missing or already lit that way is dropped; otherwise the tile records the
   * direction and the neighbours the light goes on to are queued.
   */
  ghost function Propagate(symbols: Symbols, lights: Lights, queue: seq<Entry>): (r: Lights)
    requires Tracks(symbols, lights) && QueueOk(symbols, queue)
    ensures Tracks(symbols, r)
    decreases |Universe(symbols) - Lit(lights)|, |queue|
  {
    if queue == [] then lights
    else
      var e := queue[0];
      if e.tile.None? || e.direction in lights[e.tile.value] then
        Propagate(symbols, lights, queue[1..])
      else
        var p := e.tile.value;
        TileSetExactly(symbols);
        LightOne(symbols, lights, p, e.direction);
        Propagate(symbols, lights[p := lights[p] + [e.direction]], queue[1..] + Ahead(symbols, p, e.direction))
  }

  /** The pair an item lights when it is processed. */
  function PairOf(e: Entry): (Pos, Direction)
    requires e.tile.Some?
  {
    (e.tile.value, e.direction)
  }

  /** No light leaves a lit pair without lighting the pairs it goes on to. */
  ghost predicate Closed(symbols: Symbols, lit: set<(Pos, Direction)>)
  {
    forall x :: x in lit ==> IsTile(symbols, x.0) && forall e :: e in Ahead(symbols, x.0, x.1) ==> PairOf(e) in lit
  }

  /** Every pair the lit pairs go on to is lit already or still queued. */
  ghost predicate Pending(symbols: Symbols, lights: Lights, queue: seq<Entry>)
  {
    forall x :: x in Lit(lights) ==> IsTile(symbols, x.0) && forall e :: e in Ahead(symbols, x.0, x.1) ==> PairOf(e) in Lit(lights) || e in queue
  }

  /** Once the queue is empty, the lit pairs are closed under the beam's steps. */
  lemma {:induction false} PropagateClosed(symbols: Symbols, lights: Lights, queue: seq<Entry>)
    requires Tracks(symbols, lights) && QueueOk(symbols, queue) && Pending(symbols, lights, queue)
    ensures Closed(symbols, Lit(Propagate(symbols, lights, queue)))
    decreases |Universe(symbols) - Lit(lights)|, |queue|
  {
    if queue != [] {
      var e := queue[0];
      TileSetExactly(symbols);
      if e.tile.None? || e.direction in lights[e.tile.value] {
        PendingDrop(symbols, lights, queue);
        PropagateClosed(symbols, lights, queue[1..]);
      } else {
        var p := e.tile.value;
        LightOne(symbols, lights, p, e.direction);
        PendingLight(symbols, lights, queue);
        PropagateClosed(symbols, lights[p := lights[p] + [e.direction]], queue[1..] + Ahead(symbols, p, e.direction));
      }
    }
  }

  lemma PendingDrop(symbols: Symbols, lights: Lights, queue: seq<Entry>)
    requires Pending(symbols, lights, queue) && queue != []
    requires queue[0].tile.None? || PairOf(queue[0]) in Lit(lights)
    ensures Pending(symbols, lights, queue[1..])
  {
    forall x, f | x in Lit(lights) && f in Ahead(symbols, x.0, x.1) && PairOf(f) !in Lit(lights)
      ensures f in queue[1..]
    {
      assert f in queue && f != queue[0];
    }
  }

  lemma PendingLight(symbols: Symbols, lights: Lights, queue: seq<Entry>)
    requires Tracks(symbols, lights) && Pending(symbols, lights, queue) && queue != []
    requires queue[0].tile.Some? && IsTile(symbols, queue[0].tile.value) && queue[0].tile.value in lights
    requires queue[0].direction !in lights[queue[0].tile.value]
    ensures var (p, d) := PairOf(queue[0]);
      Pending(symbols, lights[p := lights[p] + [d]], queue[1..] + Ahead(symbols, p, d))
  {
    var (p, d) := PairOf(queue[0]);
    LitAdd(lights, p, d);
    var lit := lights[p := lights[p] + [d]];
    var rest := queue[1..] + Ahead(symbols, p, d);
    forall x, f | x in Lit(lit) && f in Ahead(symbols, x.0, x.1) && PairOf(f) !in Lit(lit)
      ensures f in rest
    {
      if x != (p, d) {
        assert f in queue && f != queue[0];
      }
    }
  }

  /** Every pair lit before stays lit, and every queued item's pair ends up lit. */
  lemma {:induction false} PropagateCovers(symbols: Symbols, lights: Lights, queue: seq<Entry>)
    requires Tracks(symbols, lights) && QueueOk(symbols, queue)
    ensures Lit(lights) <= Lit(Propagate(symbols, lights, queue))
    ensures forall i :: 0 <= i < |queue| && queue[i].tile.Some? ==> PairOf(queue[i]) in Lit(Propagate(symbols, lights, queue))
    decreases |Universe(symbols) - Lit(lights)|, |queue|
  {
    if queue != [] {
      var e := queue[0];
      TileSetExactly(symbols);
      assert forall i :: 1 <= i < |queue| ==> queue[i] == queue[1..][i - 1];
      if e.tile.None? || e.direction in lights[e.tile.value] {
        PropagateCovers(symbols, lights, queue[1..]);
      } else {
        var p := e.tile.value;
        LightOne(symbols, lights, p, e.direction);
        var rest := queue[1..] + Ahead(symbols, p, e.direction);
        assert forall i :: 1 <= i < |queue| ==> queue[i] == rest[i - 1];
        PropagateCovers(symbols, lights[p := lights[p] + [e.direction]], rest);
      }
    }
  }

  /** The lit pairs stay inside any closed set holding the pairs lit before and the queued ones. */
  lemma {:induction false} PropagateLeast(symbols: Symbols, lights: Lights, queue: seq<Entry>, bound: set<(Pos, Direction)>)
    requires Tracks(symbols, lights) && QueueOk(symbols, queue)
    requires Closed(symbols, bound) && Lit(lights) <= bound
    requires forall i :: 0 <= i < |queue| && queue[i].tile.Some? ==> PairOf(queue[i]) in bound
    ensures Lit(Propagate(symbols, lights, queue)) <= bound
    decreases |Universe(symbols) - Lit(lights)|, |queue|
  {
    if queue != [] {
      var e := queue[0];
      TileSetExactly(symbols);
      assert forall i :: 1 <= i < |queue| ==> queue[i] == queue[1..][i - 1];
      if e.tile.None? || e.direction in lights[e.tile.value] {
        PropagateLeast(symbols, lights, queue[1..], bound);
      } else {
        var p := e.tile.value;
        LightOne(symbols, lights, p, e.direction);
        var ahead := Ahead(symbols, p, e.direction);
        var rest := queue[1..] + ahead;
        assert PairOf(e) in bound;
        forall i | 0 <= i < |rest| && rest[i].tile.Some?
          ensures PairOf(rest[i]) in bound
        {
          if i >= |queue| - 1 {
            assert rest[i] in ahead;
          } else {
            assert rest[i] == queue[i + 1];
          }
        }
        PropagateLeast(symbols, lights[p := lights[p] + [e.direction]], rest, bound);
      }
    }
  }

  /** Light entering a missing tile goes nowhere: nothing is lit. */
  lemma OffGridStart(symbols: Symbols, lights: Lights, d: Direction)
    requires Tracks(symbols, lights)
    ensures Propagate(symbols, lights, [Entry(None, d)]) == lights
  {
    assert [Entry(None, d)][1..] == [];
  }

  /** Every tile with no light through it, as `reset` and the `Tile` constructor leave it. */
  function NoLights(symbols: Symbols): (lights: Lights)
    ensures Tracks(symbols, lights)
    ensures forall p :: p in lights ==> lights[p] == []
  {
    Grid.PositionsExactly(symbols);
    TileSetExactly(symbols);
    map p: Pos | p in Grid.Positions(symbols) && IsTile(symbols, p) :: []
  }

  /** The energized tiles: those light has passed through. */
  ghost function Energized(lights: Lights): set<Pos>
  {
    set p | p in lights && lights[p] != []
  }

  /** The energized tiles are exactly the tiles of the lit pairs. */
  lemma EnergizedLit(lights: Lights)
    ensures forall p :: p in Energized(lights) <==> exists d :: (p, d) in Lit(lights)
  {
    forall p | p in Energized(lights)
      ensures exists d :: (p, d) in Lit(lights)
    {
      assert (p, lights[p][0]) in Lit(lights);
    }
  }

  /** `filter((tile) => tile.isEnergized).length` over the cells at `ps`. */
  function EnergizedIn(symbols: Symbols, lights: Lights, ps: seq<Pos>): nat
  {
    if ps == [] then 0
    else
      (if IsTile(symbols, ps[0]) && ps[0] in lights && lights[ps[0]] != [] then 1 else 0)
        + EnergizedIn(symbols, lights, ps[1..])
  }

  /** Over distinct positions the count is the number of energized tiles among them. */
  lemma {:induction false} EnergizedInCounts(symbols: Symbols, lights: Lights, ps: seq<Pos>)
    requires Tracks(symbols, lights)
    requires forall i, j :: 0 <= i < j < |ps| ==> ps[i] != ps[j]
    ensures EnergizedIn(symbols, lights, ps) == |set p | p in ps && p in Energized(lights)|
  {
    TileSetExactly(symbols);
    if ps != [] {
      var tail := ps[1..];
      assert forall i, j :: 0 <= i < j < |tail| ==> tail[i] != tail[j] by {
        forall i, j | 0 <= i < j < |tail| ensures tail[i] != tail[j] {
          assert tail[i] == ps[i + 1] && tail[j] == ps[j + 1];
        }
      }
      EnergizedInCounts(symbols, lights, tail);
      var all := set p | p in ps && p in Energized(lights);
      var rest := set p | p in tail && p in Energized(lights);
      assert ps[0] !in tail by {
        forall k | 0 <= k < |tail| ensures tail[k] != ps[0] {
          assert tail[k] == ps[k + 1];
        }
      }
      if ps[0] in Energized(lights) {
        assert all == rest + {ps[0]};
      } else {
        assert all == rest;
      }
    }
  }

  /** The strength counts each energized tile once, so it is at most the number of tiles. */
  lemma StrengthCounts(symbols: Symbols, lights: Lights)
    requires Tracks(symbols, lights)
    ensures EnergizedIn(symbols, lights, Grid.Positions(symbols)) == |Energized(lights)|
    ensures |Energized(lights)| <= |TileSet(symbols)|
  {
    Grid.PositionsExactly(symbols);
    TileSetExactly(symbols);
    EnergizedInCounts(symbols, lights, Grid.Positions(symbols));
    assert (set p | p in Grid.Positions(symbols) && p in Energized(lights)) == Energized(lights);
    assert Energized(lights) <= TileSet(symbols);
    SubsetCard(Energized(lights), TileSet(symbols));
  }

  lemma SubsetCard<X>(a: set<X>, b: set<X>)
    requires a <= b
    ensures |a| <= |b|
  {
    assert b == a + (b - a);
  }

  /** The queue item for light entering the cell at (`row`, `col`), as `addLight` builds it. */
  function EntryAt(symbols: Symbols, d: Direction, row: int, col: int): (e: Entry)
    ensures e.tile.Some? <==> IsTile(symbols, (row, col))
    ensures e.tile.Some? ==> e.tile.value == (row, col)
  {
    Entry(if IsTile(symbols, (row, col)) then Some((row, col)) else None, d)
  }

  /** The tiles energized when light enters at (`row`, `col`) going `d` into a reset contraption. */
  ghost function EnergizedFrom(symbols: Symbols, d: Direction, row: int, col: int): set<Pos>
  {
    Energized(Propagate(symbols, NoLights(symbols), [EntryAt(symbols, d, row, col)]))
  }

  /**
   * What light from one start energizes: the lit pairs contain the start, are closed under the
   * beam's steps, and lie inside every closed set containing the start, so they are the pairs the
   * beam can reach; the energized tiles are their tiles.
   */
  lemma EnergizedFromSpec(symbols: Symbols, d: Direction, row: int, col: int)
    ensures var e := EntryAt(symbols, d, row, col);
      var lit := Lit(Propagate(symbols, NoLights(symbols), [e]));
      && Closed(symbols, lit)
      && (e.tile.Some? ==> PairOf(e) in lit)
      && (e.tile.None? ==> lit == {})
      && (forall bound :: Closed(symbols, bound) && (e.tile.Some? ==> PairOf(e) in bound) ==> lit <= bound)
      && (forall p :: p in EnergizedFrom(symbols, d, row, col) <==> exists d' :: (p, d') in lit)
  {
    var e := EntryAt(symbols, d, row, col);
    var none := NoLights(symbols);
    assert Lit(none) == {};
    PropagateClosed(symbols, none, [e]);
    PropagateCovers(symbols, none, [e]);
    forall bound | Closed(symbols, bound) && (e.tile.Some? ==> PairOf(e) in bound)
      ensures Lit(Propagate(symbols, none, [e])) <= bound
    {
      PropagateLeast(symbols, none, [e], bound);
    }
    if e.tile.None? {
      OffGridStart(symbols, none, d);
    }
    EnergizedLit(Propagate(symbols, none, [e]));
  }

  /** The starts `part2` tries, in order: down and up each column, then right and left along each row. */
  function Starts(width: int, height: int): seq<(Direction, int, int)>
  {
    ColumnStarts(width, height, if width < 0 then 0 else width) + RowStarts(width, height, if height < 0 then 0 else height)
  }

  /** The starts of the first `n` columns. */
  function ColumnStarts(width: int, height: int, n: nat): (starts: seq<(Direction, int, int)>)
    ensures |starts| == 2 * n
  {
    if n == 0 then [] else ColumnStarts(width, height, n - 1) + [(Down, 0, n - 1), (Up, height - 1, n - 1)]
  }

  /** The starts of the first `n` rows. */
  function RowStarts(width: int, height: int, n: nat): (starts: seq<(Direction, int, int)>)
    ensures |starts| == 2 * n
  {
    if n == 0 then [] else RowStarts(width, height, n - 1) + [(Right, n - 1, 0), (Left, n - 1, width - 1)]
  }

  /** Column `i` is tried downwards from the top row, then upwards from the bottom row. */
  lemma {:induction false} ColumnStartsAt(width: int, height: int, n: nat, i: nat)
    requires i < n
    ensures ColumnStarts(width, height, n)[2 * i] == (Down, 0, i)
    ensures ColumnStarts(width, height, n)[2 * i + 1] == (Up, height - 1, i)
  {
    if i < n - 1 {
      ColumnStartsAt(width, height, n - 1, i);
    }
  }

  /** Row `i` is tried rightwards from the first column, then leftwards from the last. */
  lemma {:induction false} RowStartsAt(width: int, height: int, n: nat, i: nat)
    requires i < n
    ensures RowStarts(width, height, n)[2 * i] == (Right, i, 0)
    ensures RowStarts(width, height, n)[2 * i + 1] == (Left, i, width - 1)
  {
    if i < n - 1 {
      RowStartsAt(width, height, n - 1, i);
    }
  }

  /** Light starting at the edge of a `width` by `height` contraption, heading into it. */
  predicate OnEdge(width: int, height: int, start: (Direction, int, int))
  {
    match start.0
    case Down => start.1 == 0 && 0 <= start.2 < width
    case Up => start.1 == height - 1 && 0 <= start.2 < width
    case Right => start.2 == 0 && 0 <= start.1 < height
    case Left => start.2 == width - 1 && 0 <= start.1 < height
  }

  /** `part2` tries two starts per column and two per row, each at an edge heading inwards. */
  lemma StartsOnEdge(width: int, height: int)
    requires width >= 1 && height >= 1
    ensures |Starts(width, height)| == 2 * (width + height)
    ensures forall i :: 0 <= i < |Starts(width, height)| ==> OnEdge(width, height, Starts(width, height)[i])
  {
    var starts := Starts(width, height);
    forall i | 0 <= i < |starts|
      ensures OnEdge(width, height, starts[i])
    {
      if i < 2 * width {
        ColumnStartsAt(width, height, width, i / 2);
        assert starts[i] == ColumnStarts(width, height, width)[i];
      } else {
        var j := i - 2 * width;
        RowStartsAt(width, height, height, j / 2);
        assert starts[i] == RowStarts(width, height, height)[j];
      }
    }
  }

  /** The strength from each start. */
  ghost function Strengths(symbols: Symbols, starts: seq<(Direction, int, int)>): (r: seq<int>)
    ensures |r| == |starts|
  {
    seq(|starts|, i requires 0 <= i < |starts| => StrengthOf(symbols, starts[i]))
  }

  /** `strengths` holds the strength from each of `starts`, in order. */
  ghost predicate Tried(symbols: Symbols, starts: seq<(Direction, int, int)>, strengths: seq<int>)
  {
    |strengths| == |starts| && forall i {:trigger StartAt(starts, i)} :: 0 <= i < |starts| ==> strengths[i] == StrengthOf(symbols, StartAt(starts, i))
  }

  /** The `i`th start; `Tried` refers to its entries through it, so they are looked at only when asked for. */
  function StartAt(starts: seq<(Direction, int, int)>, i: int): (Direction, int, int)
    requires 0 <= i < |starts|
  {
    starts[i]
  }

  lemma TriedAppend(symbols: Symbols, a: seq<(Direction, int, int)>, sa: seq<int>, b: seq<(Direction, int, int)>, sb: seq<int>)
    requires Tried(symbols, a, sa) && Tried(symbols, b, sb)
    ensures Tried(symbols, a + b, sa + sb)
  {
    forall i | 0 <= i < |a + b|
      ensures (sa + sb)[i] == StrengthOf(symbols, StartAt(a + b, i))
    {
      if i < |a| {
        assert StartAt(a, i) == StartAt(a + b, i);
      } else {
        assert StartAt(b, i - |a|) == StartAt(a + b, i);
      }
    }
  }

  lemma ColumnTried(symbols: Symbols, width: int, height: int, col: nat, done: seq<int>, pair: seq<int>)
    requires Tried(symbols, ColumnStarts(width, height, col), done)
    requires Tried(symbols, [(Down, 0, col), (Up, height - 1, col)], pair)
    ensures Tried(symbols, ColumnStarts(width, height, col + 1), done + pair)
  {
    TriedAppend(symbols, ColumnStarts(width, height, col), done, [(Down, 0, col), (Up, height - 1, col)], pair);
  }

  lemma RowTried(symbols: Symbols, width: int, height: int, row: nat, done: seq<int>, pair: seq<int>)
    requires Tried(symbols, RowStarts(width, height, row), done)
    requires Tried(symbols, [(Right, row, 0), (Left, row, width - 1)], pair)
    ensures Tried(symbols, RowStarts(width, height, row + 1), done + pair)
  {
    TriedAppend(symbols, RowStarts(width, height, row), done, [(Right, row, 0), (Left, row, width - 1)], pair);
  }

  lemma TriedStrengths(symbols: Symbols, starts: seq<(Direction, int, int)>, strengths: seq<int>)
    requires Tried(symbols, starts, strengths)
    ensures strengths == Strengths(symbols, starts)
  {
    forall i | 0 <= i < |starts|
      ensures strengths[i] == Strengths(symbols, starts)[i]
    {
      assert StartAt(starts, i) == starts[i];
    }
  }

  /** The lights once the tile of `e` records its direction. */
  function Lighted(lights: Lights, e: Entry): Lights
    requires e.tile.Some? && e.tile.value in lights
  {
    lights[e.tile.value := lights[e.tile.value] + [e.direction]]
  }

  lemma PropagateDrops(symbols: Symbols, lights: Lights, queue: seq<Entry>)
    requires Tracks(symbols, lights) && QueueOk(symbols, queue) && queue != []
    requires queue[0].tile.None? || PairOf(queue[0]) in Lit(lights)
    ensures QueueOk(symbols, queue[1..])
    ensures Propagate(symbols, lights, queue) == Propagate(symbols, lights, queue[1..])
  {
    TileSetExactly(symbols);
    var e := queue[0];
    assert e.tile.Some? ==> e.direction in lights[e.tile.value];
  }

  lemma PropagateLights(symbols: Symbols, lights: Lights, queue: seq<Entry>)
    requires Tracks(symbols, lights) && QueueOk(symbols, queue) && queue != []
    requires queue[0].tile.Some? && queue[0].tile.value in lights && queue[0].direction !in lights[queue[0].tile.value]
    ensures IsTile(symbols, queue[0].tile.value)
    ensures var (p, d) := PairOf(queue[0]);
      Tracks(symbols, lights[p := lights[p] + [d]]) && QueueOk(symbols, queue[1..] + Ahead(symbols, p, d))
      && Propagate(symbols, lights, queue) == Propagate(symbols, lights[p := lights[p] + [d]], queue[1..] + Ahead(symbols, p, d))
  {
    TileSetExactly(symbols);
    LightOne(symbols, lights, queue[0].tile.value, queue[0].direction);
    QueueNext(symbols, queue, queue[0].tile.value, queue[0].direction);
  }

  /** Dequeuing an item and queueing the neighbours a tile's light goes on to keeps every queued tile on the grid. */
  lemma QueueNext(symbols: Symbols, queue: seq<Entry>, p: Pos, d: Direction)
    requires QueueOk(symbols, queue) && queue != [] && IsTile(symbols, p)
    ensures QueueOk(symbols, queue[1..] + Ahead(symbols, p, d))
  {
    var rest: seq<Entry>, ahead: seq<Entry> := queue[1..], Ahead(symbols, p, d);
    forall i | 0 <= i < |rest + ahead| && (rest + ahead)[i].tile.Some?
      ensures IsTile(symbols, (rest + ahead)[i].tile.value)
    {
      if i < |rest| {
        assert (rest + ahead)[i] == queue[i + 1];
      } else {
        assert (rest + ahead)[i] == ahead[i - |rest|];
      }
    }
  }

  /** The strength from one start. */
  ghost function StrengthOf(symbols: Symbols, start: (Direction, int, int)): int
  {
    |EnergizedFrom(symbols, start.0, start.1, start.2)|
  }

  /** Among the starts `part2` tries is `part1`'s, so its answer is never below `part1`'s. */
  lemma Part2CoversPart1(symbols: Symbols, width: int, height: int)
    requires width >= 1 && height >= 1
    ensures (Right, 0, 0) in Starts(width, height)
    ensures Arithmetic.Max(Strengths(symbols, Starts(width, height))) >= StrengthOf(symbols, (Right, 0, 0))
  {
    RowStartsAt(width, height, height, 0);
    var starts := Starts(width, height);
    var k := 2 * width;
    assert starts[k] == RowStarts(width, height, height)[0];
    assert Strengths(symbols, starts)[k] == StrengthOf(symbols, (Right, 0, 0));
  }

  /** Once every tile's lights are cleared the contraption is as it started. */
  lemma AllDark(symbols: Symbols, lights: Lights)
    requires Tracks(symbols, lights)
    requires forall p :: p in lights && p.0 < |symbols| ==> lights[p] == []
    ensures lights == NoLights(symbols)
  {
    TileSetExactly(symbols);
    assert lights.Keys == NoLights(symbols).Keys;
  }

  class Contraption {
    const symbols: Symbols
    const width: int
    const height: int
    var lights: Lights
    var queue: seq<Entry>

    /** A parsed contraption: a non-empty rectangle of cells, one list of lights per tile, queued tiles on the grid. */
    ghost predicate Valid()
      reads this
    {
      height == |symbols| >= 1 && width >= 1
      && (forall r :: 0 <= r < |symbols| ==> |symbols[r]| == width)
      && Tracks(symbols, lights) && QueueOk(symbols, queue)
    }

    /** The contraption as `from2DArray` leaves it: every tile dark and the queue empty. */
    constructor (symbols: Symbols, width: int, height: int)
      requires height == |symbols| >= 1 && width >= 1
      requires forall r :: 0 <= r < |symbols| ==> |symbols[r]| == width
      ensures Valid()
      ensures this.symbols == symbols && this.width == width && this.height == height
      ensures lights == NoLights(symbols) && queue == []
    {
      this.symbols, this.width, this.height := symbols, width, height;
      lights := NoLights(symbols);
      queue := [];
    }

    /** `reset`: the queue is emptied and every tile forgets its lights. */
    method Reset()
      requires Valid()
      modifies this
      ensures Valid()
      ensures lights == NoLights(symbols) && queue == []
    {
      queue := [];
      var row := 0;
      while row < |symbols|
        invariant 0 <= row <= |symbols|
        invariant Valid()
        invariant forall p :: p in lights && p.0 < row ==> lights[p] == []
        invariant queue == []
      {
        ResetRow(row);
        row := row + 1;
      }
      AllDark(symbols, lights);
    }

    /** `forEach`'s pass over one row of `reset`: the row's tiles forget their lights. */
    method ResetRow(row: int)
      requires Valid() && 0 <= row < |symbols|
      requires forall p :: p in lights && p.0 < row ==> lights[p] == []
      modifies this
      ensures Valid() && queue == old(queue)
      ensures forall p :: p in lights && p.0 <= row ==> lights[p] == []
    {
      TileSetExactly(symbols);
      var col := 0;
      while col < |symbols[row]|
        invariant 0 <= col <= |symbols[row]|
        invariant Valid() && queue == old(queue)
        invariant forall p :: p in lights && (p.0 < row || (p.0 == row && p.1 < col)) ==> lights[p] == []
      {
        if symbols[row][col].Some? {
          lights := lights[(row, col) := []];
        }
        col := col + 1;
      }
    }

    /** `addLight`: light enters the cell at (`row`, `col`) going `d` and the queue is processed until it is empty. */
    method AddLight(d: Direction, row: int, col: int)
      requires Valid()
      modifies this
      ensures Valid() && queue == []
      ensures lights == Propagate(symbols, old(lights), old(queue) + [EntryAt(symbols, d, row, col)])
    {
      queue := queue + [EntryAt(symbols, d, row, col)];
      Process();
    }

    /** `queue.process`: items are taken off the front until none is left; the tiles then hold the lights `Propagate` gives. */
    method Process()
      requires Valid()
      modifies this
      ensures Valid() && queue == []
      ensures lights == Propagate(symbols, old(lights), old(queue))
    {
      ghost var goal := Propagate(symbols, lights, queue);
      while queue != []
        invariant Valid()
        invariant Propagate(symbols, lights, queue) == goal
        decreases |Universe(symbols) - Lit(lights)|, |queue|
      {
        Step();
      }
    }

    /**
     * The callback of `addLight` on the front item: it is dropped when its tile is missing or
     * already lit that way; otherwise the tile records the direction and the tiles ahead are queued.
     */
    method Step()
      requires Valid() && queue != []
      modifies this
      ensures Valid()
      ensures Propagate(symbols, lights, queue) == Propagate(symbols, old(lights), old(queue))
      ensures if Lit(lights) == old(Lit(lights)) then |queue| < old(|queue|)
        else |Universe(symbols) - Lit(lights)| < old(|Universe(symbols) - Lit(lights)|)
    {
      var e := queue[0];
      TileSetExactly(symbols);
      if e.tile.None? || e.direction in lights[e.tile.value] {
        PropagateDrops(symbols, lights, queue);
        queue := queue[1..];
      } else {
        LightOne(symbols, lights, e.tile.value, e.direction);
        PropagateLights(symbols, lights, queue);
        LightFront();
      }
    }

    /** The front item's tile records its direction, and the tiles the light goes on to are queued. */
    method LightFront()
      requires Valid() && queue != [] && queue[0].tile.Some? && queue[0].tile.value in lights
      requires queue[0].direction !in lights[queue[0].tile.value]
      modifies this
      ensures Valid()
      ensures lights == Lighted(old(lights), old(queue[0]))
      ensures queue == old(queue[1..]) + Ahead(symbols, old(queue[0].tile.value), old(queue[0].direction))
    {
      var e := queue[0];
      lights, queue := Lighted(lights, e), queue[1..];
      EnqueueAhead(e.tile.value, e.direction);
    }

    /** The `forEach` over the directions light entering `p` going `d` leaves in: each neighbour that is a tile is queued. */
    method EnqueueAhead(p: Pos, d: Direction)
      requires Valid() && IsTile(symbols, p)
      modifies this
      ensures Valid() && lights == old(lights)
      ensures queue == old(queue) + Ahead(symbols, p, d)
    {
      var directions := Flips(Grid.Lookup(symbols, p.0, p.1).value, d);
      for k := 0 to |directions|
        invariant Valid() && lights == old(lights)
        invariant queue == old(queue) + AheadOf(symbols, p, directions[..k])
      {
        var q := Add(p, Diff(directions[k]));
        assert directions[..k + 1][..k] == directions[..k];
        if Grid.Lookup(symbols, q.0, q.1).Some? {
          queue := queue + [Entry(Some(q), directions[k])];
        }
      }
      assert directions[..|directions|] == directions;
    }

    /** `strength`: the number of energized tiles. */
    function Strength(): (s: nat)
      reads this
      requires Valid()
      ensures s == |Energized(lights)|
    {
      StrengthCounts(symbols, lights);
      EnergizedIn(symbols, lights, Grid.Positions(symbols))
    }

    /** `part1`: the strength after light enters the top-left tile heading right. */
    method Part1() returns (s: nat)
      requires Valid()
      modifies this
      ensures Valid()
      ensures s == |EnergizedFrom(symbols, Right, 0, 0)|
      ensures lights == Propagate(symbols, NoLights(symbols), [EntryAt(symbols, Right, 0, 0)])
    {
      Reset();
      AddLight(Right, 0, 0);
      assert [] + [EntryAt(symbols, Right, 0, 0)] == [EntryAt(symbols, Right, 0, 0)];
      s := Strength();
    }

    /** One start of `part2`: reset, shine, and read the strength. */
    method Try(d: Direction, row: int, col: int) returns (s: nat)
      requires Valid()
      modifies this
      ensures Valid()
      ensures s == StrengthOf(symbols, (d, row, col))
    {
      Reset();
      AddLight(d, row, col);
      assert [] + [EntryAt(symbols, d, row, col)] == [EntryAt(symbols, d, row, col)];
      s := Strength();
    }

    /** Two starts of one column or row of `part2`, in order. */
    method TryPair(a: (Direction, int, int), b: (Direction, int, int)) returns (pair: seq<int>)
      requires Valid()
      modifies this
      ensures Valid()
      ensures Tried(symbols, [a, b], pair)
    {
      var first := Try(a.0, a.1, a.2);
      var second := Try(b.0, b.1, b.2);
      pair := [first, second];
      assert StartAt([a, b], 0) == a && StartAt([a, b], 1) == b;
    }

    /** `part2`'s first loop: the strengths from the top and bottom of each column. */
    method TryColumns() returns (possibilities: seq<int>)
      requires Valid()
      modifies this
      ensures Valid()
      ensures Tried(symbols, ColumnStarts(width, height, width), possibilities)
    {
      possibilities := [];
      for col := 0 to width
        invariant Valid()
        invariant Tried(symbols, ColumnStarts(width, height, col), possibilities)
      {
        var pair := TryPair((Down, 0, col), (Up, height - 1, col));
        ColumnTried(symbols, width, height, col, possibilities, pair);
        possibilities := possibilities + pair;
      }
    }

    /** `part2`'s second loop: the strengths from the left and right of each row. */
    method TryRows() returns (possibilities: seq<int>)
      requires Valid()
      modifies this
      ensures Valid()
      ensures Tried(symbols, RowStarts(width, height, height), possibilities)
    {
      possibilities := [];
      for row := 0 to height
        invariant Valid()
        invariant Tried(symbols, RowStarts(width, height, row), possibilities)
      {
        var pair := TryPair((Right, row, 0), (Left, row, width - 1));
        RowTried(symbols, width, height, row, possibilities, pair);
        possibilities := possibilities + pair;
      }
    }

    /** `part2`: the greatest strength over all the edge starts. */
    method Part2() returns (best: int)
      requires Valid()
      modifies this
      ensures Valid()
      ensures best == Arithmetic.Max(Strengths(symbols, Starts(width, height)))
    {
      var columns := TryColumns();
      var rows := TryRows();
      TriedAppend(symbols, ColumnStarts(width, height, width), columns, RowStarts(width, height, height), rows);
      TriedStrengths(symbols, Starts(width, height), columns + rows);
      best := Arithmetic.Max(columns + rows);
    }
  }

  /** `parseInput`: the non-empty lines split into characters, or the dimension error `from2DArray` throws. */
  method ParseInput(lines: seq<string>) returns (r: Result<Contraption>)
    ensures r.Failure? <==> Text.NonEmpty(lines) == []
    ensures r.Failure? ==> r.error == "Invalid input dimensions"
    ensures r.Success? ==> fresh(r.value) && r.value.Valid() && r.value.queue == [] && r.value.lights == NoLights(r.value.symbols)
    ensures r.Success? ==> r.value.height == |Text.NonEmpty(lines)| && r.value.width == Grid.MaxWidth(Text.NonEmpty(lines))
    ensures r.Success? ==> forall i, j :: 0 <= i < r.value.height && 0 <= j < r.value.width ==>
      Grid.Lookup(r.value.symbols, i, j) == if j < |Text.NonEmpty(lines)[i]| then Some(Text.NonEmpty(lines)[i][j]) else None
  {
    var data := Text.NonEmpty(lines);
    var grid := Grid.From2DArray(data, (ch: char, row: int, col: int) => ch, (ch: char) => true, (ch: char) => [ch]);
    if grid.Failure? {
      return Failure(grid.error);
    }
    var g := grid.value;
    Grid.FilledLookup(g.rows, data, (ch: char, row: int, col: int) => ch, g.width);
    var contraption := new Contraption(g.rows, g.width, g.height);
    r := Success(contraption);
  }
}
