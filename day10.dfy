/**
 * Day 10: a grid of pipe tiles with one start tile 'S'. Every pipe links to the orthogonal
 * neighbours it opens toward and that open back; the start tile then becomes the pipe that
 * joins its first two links. A breadth-first walk from the start gives every loop tile its
 * distance, and a tile off the loop is enclosed when the loop pipes to its left cross it an
 * odd number of times.
 */
module Day10 {
  import opened Wrappers
  import Grid

  type Pos = (int, int)

  function Add(p: Pos, o: Pos): Pos
  {
    (p.0 + o.0, p.1 + o.1)
  }

  /** `validFor` of the validator for offset `o`: the tile `v` opens toward `o`. No validator: false. */
  predicate OpensToward(o: Pos, v: char)
  {
    if o == (-1, 0) then v in "S|LJ"
    else if o == (1, 0) then v in "S|F7"
    else if o == (0, -1) then v in "S-7J"
    else if o == (0, 1) then v in "S-FL"
    else false
  }

  /** `validNeighborPipes` of the validator for offset `o` includes the neighbour's tile `v`. */
  predicate Accepts(o: Pos, v: char)
  {
    if o == (-1, 0) then v in "S|F7"
    else if o == (1, 0) then v in "S|LJ"
    else if o == (0, -1) then v in "S-LF"
    else if o == (0, 1) then v in "S-J7"
    else false
  }

  /**
   * A neighbour is accepted exactly when it opens back toward this tile; only the four
   * orthogonal offsets have a validator; the start tile opens toward, and is accepted from,
   * every one of them.
   */
  lemma ValidatorsAgree(o: Pos, v: char)
    ensures Accepts(o, v) <==> OpensToward((-o.0, -o.1), v)
    ensures OpensToward(o, v) || Accepts(o, v) ==> o in Grid.OrthogonalOffsets()
    ensures o in Grid.OrthogonalOffsets() ==> OpensToward(o, 'S') && Accepts(o, 'S')
  {
  }

  type Tiles = map<Pos, char>

  /** The cells of rows `r..` in row-major order: the order of `grid.forEach`. */
  function CellsFrom(rows: seq<seq<char>>, r: nat): (ps: seq<Pos>)
    ensures forall p: Pos :: p in ps <==> r <= p.0 < |rows| && 0 <= p.1 < |rows[p.0]|
    decreases |rows| - r
  {
    if r >= |rows| then []
    else
      var row := seq(|rows[r]|, c requires 0 <= c < |rows[r]| => (r, c));
      assert forall p: Pos :: p in row <==> p.0 == r && 0 <= p.1 < |rows[r]| by {
        forall p: Pos | p.0 == r && 0 <= p.1 < |rows[r]|
          ensures p in row
        {
          assert row[p.1] == p;
        }
      }
      row + CellsFrom(rows, r + 1)
  }

  function Cells(rows: seq<seq<char>>): (ps: seq<Pos>)
    ensures forall p: Pos :: p in ps <==> 0 <= p.0 < |rows| && 0 <= p.1 < |rows[p.0]|
  {
    CellsFrom(rows, 0)
  }

  /** The grid `from2DArray` builds: one tile per input character, keyed by (row, column). */
  function TilesOf(rows: seq<seq<char>>): (t: Tiles)
    ensures forall p: Pos :: p in t <==> p in Cells(rows)
    ensures forall p :: p in t ==> t[p] == rows[p.0][p.1]
  {
    map p | p in Cells(rows) :: rows[p.0][p.1]
  }

  /** The neighbour at offset `o` exists, this tile opens toward it and it opens back. */
  predicate Qualifies(tiles: Tiles, p: Pos, v: char, o: Pos)
  {
    Add(p, o) in tiles && OpensToward(o, v) && Accepts(o, tiles[Add(p, o)])
  }

  /** The `filter` of `linkLoopNeighbors` over the offsets `os`, kept as offsets, in order. */
  function Qualifying(tiles: Tiles, p: Pos, v: char, os: seq<Pos>): (r: seq<Pos>)
    ensures forall o :: o in r <==> o in os && Qualifies(tiles, p, v, o)
    decreases |os|
  {
    if os == [] then []
    else (if Qualifies(tiles, p, v, os[0]) then [os[0]] else []) + Qualifying(tiles, p, v, os[1..])
  }

  /**
   * `calculateStartNodeValue` from the offsets of the start's links: the pipe joining the first
   * two of them.
   */
  function StartValue(neighbors: seq<Pos>): Result<char>
  {
    if |neighbors| < 2 then Failure("Start node has less than 2 neighbors")
    else
      var r1, c1, r2, c2 := neighbors[0].0, neighbors[0].1, neighbors[1].0, neighbors[1].1;
      if r1 == 0 && r2 == 0 then Success('-')
      else if c1 == 0 && c2 == 0 then Success('|')
      else if r1 == 0 then
        if c1 == -1 then (if r2 == -1 then Success('J') else Success('7'))
        else (if r2 == -1 then Success('L') else Success('F'))
      else if c1 == 0 then
        if r1 == -1 then (if c2 == -1 then Success('J') else Success('L'))
        else (if c2 == -1 then Success('7') else Success('F'))
      else Failure("Start node neighbors are not orthogonal")
  }

  /** For two different orthogonal links the start becomes the pipe opening toward exactly those two. */
  lemma StartValueOpens(d1: Pos, d2: Pos, rest: seq<Pos>, o: Pos)
    requires d1 in Grid.OrthogonalOffsets() && d2 in Grid.OrthogonalOffsets() && d1 != d2
    ensures StartValue([d1, d2] + rest).Success?
    ensures OpensToward(o, StartValue([d1, d2] + rest).value) <==> o == d1 || o == d2
  {
  }

  /** The tiles, with each start replaced once linked, and the links of every linked pipe. */
  datatype LinkState = LinkState(values: Tiles, links: map<Pos, seq<Pos>>)

  /** The offsets `p` is linked through, `[]` for an unlinked tile. */
  function LinksOf(links: map<Pos, seq<Pos>>, p: Pos): seq<Pos>
  {
    if p in links then links[p] else []
  }

  /**
   * `linkLoopNeighbors` on the tile at `p`: a non-pipe does nothing; a pipe pushes its
   * qualifying neighbours when there are at least two; a start then takes the value of the
   * pipe joining its links, or throws.
   */
  function LinkStep(tiles0: Tiles, st: LinkState, p: Pos): Result<LinkState>
    requires p in tiles0 && p in st.values
  {
    var initial := tiles0[p];
    if initial == '.' then Success(st)
    else
      var links := Pushed(st, p);
      if initial != 'S' then Success(LinkState(st.values, links))
      else
        match StartValue(LinksOf(links, p))
        case Failure(e) => Failure(e)
        case Success(v) => Success(LinkState(st.values[p := v], links))
  }

  /** The links after the pipe at `p` pushes its qualifying neighbours, if at least two qualify. */
  function Pushed(st: LinkState, p: Pos): (links: map<Pos, seq<Pos>>)
    requires p in st.values
    ensures forall q :: q != p ==> LinksOf(links, q) == LinksOf(st.links, q)
    ensures forall q :: q in links <==> q in st.links || (q == p && p in links)
  {
    var valid := Qualifying(st.values, p, st.values[p], Grid.OrthogonalOffsets());
    if |valid| >= 2 then st.links[p := LinksOf(st.links, p) + valid] else st.links
  }

  /** A link from `p` through `o`, judged on the tiles as read: both tiles open toward each other. */
  predicate Linkable(tiles0: Tiles, p: Pos, o: Pos)
  {
    && o in Grid.OrthogonalOffsets()
    && p in tiles0 && Add(p, o) in tiles0
    && OpensToward(o, tiles0[p]) && Accepts(o, tiles0[Add(p, o)])
  }

  /** Only starts change value, each to the pipe that its links determine. */
  ghost predicate StartsOk(tiles0: Tiles, st: LinkState)
  {
    && st.values.Keys == tiles0.Keys
    && (forall p :: p in tiles0 ==> st.values[p] == tiles0[p] || tiles0[p] == 'S')
    && (forall p :: p in tiles0 && tiles0[p] == 'S' && st.values[p] != 'S' ==>
          StartValue(LinksOf(st.links, p)) == Success(st.values[p]))
  }

  /** Every linked tile is a pipe with at least two links, each to a neighbour it opens toward and that opens back. */
  ghost predicate LinksOk(tiles0: Tiles, st: LinkState)
  {
    forall p :: p in st.links ==>
      && p in tiles0 && tiles0[p] != '.' && |st.links[p]| >= 2
      && forall o :: o in st.links[p] ==> Linkable(tiles0, p, o)
  }

  /** What linking keeps: the tiles' positions, the start values and the links. */
  ghost predicate LinkOk(tiles0: Tiles, st: LinkState)
  {
    StartsOk(tiles0, st) && LinksOk(tiles0, st)
  }

  /** The tile as read was either the tile as it is now or a start, which opens everywhere. */
  lemma QualifiesLinkable(tiles0: Tiles, st: LinkState, p: Pos, o: Pos)
    requires StartsOk(tiles0, st) && p in st.values
    requires o in Grid.OrthogonalOffsets() && Qualifies(st.values, p, st.values[p], o)
    ensures Linkable(tiles0, p, o)
  {
    ValidatorsAgree(o, 'S');
  }

  /** One `linkLoopNeighbors` call keeps the links well formed. */
  lemma LinksStep(tiles0: Tiles, st: LinkState, p: Pos)
    requires LinkOk(tiles0, st) && p in tiles0
    requires LinkStep(tiles0, st, p).Success?
    ensures LinksOk(tiles0, LinkStep(tiles0, st, p).value)
  {
    if tiles0[p] != '.' {
      var valid := Qualifying(st.values, p, st.values[p], Grid.OrthogonalOffsets());
      forall o | o in valid
        ensures Linkable(tiles0, p, o)
      {
        QualifiesLinkable(tiles0, st, p, o);
      }
      PushedOk(tiles0, st, p);
    }
  }

  /** Pushing at `p` keeps the links well formed. */
  lemma PushedOk(tiles0: Tiles, st: LinkState, p: Pos)
    requires LinksOk(tiles0, st) && p in tiles0 && p in st.values && tiles0[p] != '.'
    requires forall o :: o in Qualifying(st.values, p, st.values[p], Grid.OrthogonalOffsets()) ==> Linkable(tiles0, p, o)
    ensures LinksOk(tiles0, LinkState(st.values[p := st.values[p]], Pushed(st, p)))
  {
    assert st.values[p := st.values[p]] == st.values;
  }

  /** One `linkLoopNeighbors` call keeps the start values right. */
  lemma StartsStep(tiles0: Tiles, st: LinkState, p: Pos)
    requires LinkOk(tiles0, st) && p in tiles0
    requires LinkStep(tiles0, st, p).Success?
    ensures StartsOk(tiles0, LinkStep(tiles0, st, p).value)
  {
    if tiles0[p] == 'S' {
      var v := LinkStep(tiles0, st, p).value.values[p];
      ResolvedOk(tiles0, st, p, v);
    } else if tiles0[p] != '.' {
      PushedKeeps(tiles0, st, p);
    }
  }

  /** A pipe that is not a start keeps every value and every start's links. */
  lemma PushedKeeps(tiles0: Tiles, st: LinkState, p: Pos)
    requires StartsOk(tiles0, st) && p in tiles0 && tiles0[p] != 'S'
    ensures StartsOk(tiles0, LinkState(st.values, Pushed(st, p)))
  {
  }

  /** A start that takes the value `v` of its links keeps the start values right. */
  lemma ResolvedOk(tiles0: Tiles, st: LinkState, p: Pos, v: char)
    requires StartsOk(tiles0, st) && p in tiles0 && tiles0[p] == 'S'
    requires StartValue(LinksOf(Pushed(st, p), p)) == Success(v)
    ensures StartsOk(tiles0, LinkState(st.values[p := v], Pushed(st, p)))
  {
  }

  /** `grid.forEach((node) => node?.linkLoopNeighbors())` over the cells `ps`, in order. */
  function Linked(tiles0: Tiles, ps: seq<Pos>): (r: Result<LinkState>)
    requires forall p :: p in ps ==> p in tiles0
    ensures r.Success? ==> r.value.values.Keys == tiles0.Keys
    decreases |ps|
  {
    if ps == [] then Success(LinkState(tiles0, map[]))
    else
      match Linked(tiles0, ps[..|ps| - 1])
      case Failure(e) => Failure(e)
      case Success(st) => LinkStep(tiles0, st, ps[|ps| - 1])
  }

  /** However far linking gets, the linking invariant holds of what it has built. */
  lemma {:induction false} LinkedOk(tiles0: Tiles, ps: seq<Pos>)
    requires forall p :: p in ps ==> p in tiles0
    ensures Linked(tiles0, ps).Success? ==> LinkOk(tiles0, Linked(tiles0, ps).value)
    decreases |ps|
  {
    if ps != [] {
      var init := ps[..|ps| - 1];
      LinkedOk(tiles0, init);
      if Linked(tiles0, init).Success? {
        var st := Linked(tiles0, init).value;
        var p := ps[|ps| - 1];
        if LinkStep(tiles0, st, p).Success? {
          LinksStep(tiles0, st, p);
          StartsStep(tiles0, st, p);
        }
      }
    }
  }

  /** Once a start cannot be resolved, linking more cells throws the same error. */
  lemma {:induction false} LinkedFails(tiles0: Tiles, ps: seq<Pos>, i: nat)
    requires forall p :: p in ps ==> p in tiles0
    requires i <= |ps| && Linked(tiles0, ps[..i]).Failure?
    ensures Linked(tiles0, ps) == Linked(tiles0, ps[..i])
    decreases |ps| - i
  {
    if i < |ps| {
      assert ps[..i + 1][..i] == ps[..i];
      LinkedFails(tiles0, ps, i + 1);
    } else {
      assert ps[..i] == ps;
    }
  }

  /** The linking loop over the cells `ps`, throwing at the first start that cannot be resolved. */
  method LinkCells(tiles0: Tiles, ps: seq<Pos>) returns (r: Result<LinkState>)
    requires forall p :: p in ps ==> p in tiles0
    ensures r == Linked(tiles0, ps)
  {
    var values, links := tiles0, map[];
    var i := 0;
    while i < |ps|
      invariant 0 <= i <= |ps| && Linked(tiles0, ps[..i]) == Success(LinkState(values, links))
      invariant values.Keys == tiles0.Keys
      decreases |ps| - i
    {
      assert ps[..i + 1][..i] == ps[..i];
      var p := ps[i];
      ghost var next := LinkStep(tiles0, LinkState(values, links), p);
      if tiles0[p] != '.' {
        var valid := Qualifying(values, p, values[p], Grid.OrthogonalOffsets());
        if |valid| >= 2 {
          links := links[p := LinksOf(links, p) + valid];
        }
        if tiles0[p] == 'S' {
          var v := StartValue(LinksOf(links, p));
          if v.Failure? {
            assert next == Failure(v.error);
            LinkedFails(tiles0, ps, i + 1);
            return Failure(v.error);
          }
          values := values[p := v.value];
        }
      }
      assert next == Success(LinkState(values, links));
      i := i + 1;
    }
    assert ps[..i] == ps;
    return Success(LinkState(values, links));
  }

  /** `linkLoopNeighbors` on every cell of the grid the rows describe. */
  method LinkAll(rows: seq<seq<char>>) returns (r: Result<LinkState>)
    ensures r == Linked(TilesOf(rows), Cells(rows))
  {
    r := LinkCells(TilesOf(rows), Cells(rows));
  }

  /** `u` is linked to `v`: the offset from `u` to `v` is one of `u`'s links. */
  predicate Edge(links: map<Pos, seq<Pos>>, u: Pos, v: Pos)
  {
    (v.0 - u.0, v.1 - u.1) in LinksOf(links, u)
  }

  /** Every tile `u` links to already has a distance at most one more than `u`'s. */
  predicate Relaxed(links: map<Pos, seq<Pos>>, s: map<Pos, nat>, u: Pos)
  {
    u in s && forall o :: o in LinksOf(links, u) ==> Add(u, o) in s && s[Add(u, o)] <= s[u] + 1
  }

  /** Every distance is an initial one, or one more than (at least) the distance of a tile linking to it. */
  ghost predicate Witnessed(links: map<Pos, seq<Pos>>, s0: map<Pos, nat>, s: map<Pos, nat>)
  {
    forall p :: p in s ==>
      (p in s0 && s[p] == s0[p]) || exists u :: u in s && Edge(links, u, p) && s[u] + 1 <= s[p]
  }

  /** Distances never grow and none is lost: `stepsAway` only decreases. */
  predicate Decreased(s0: map<Pos, nat>, s: map<Pos, nat>)
  {
    forall p :: p in s0 ==> p in s && s[p] <= s0[p]
  }

  /**
   * The body of `queue.process`: every link of `u` whose tile has no distance, or a larger one
   * than one past `u`'s, gets that distance and is enqueued.
   */
  method RelaxNeighbors(links: map<Pos, seq<Pos>>, s: map<Pos, nat>, u: Pos) returns (s': map<Pos, nat>, added: seq<Pos>)
    requires u in s
    ensures Decreased(s, s') && s'[u] == s[u]
    ensures Relaxed(links, s', u)
    ensures forall q :: q in added ==> q in s'
    ensures forall p :: p in s' && (p !in s || s'[p] < s[p]) ==> p in added && s'[p] == s[u] + 1 && Edge(links, u, p)
  {
    var targets := LinksOf(links, u);
    s', added := s, [];
    var i := 0;
    while i < |targets|
      invariant 0 <= i <= |targets|
      invariant Decreased(s, s') && s'[u] == s[u]
      invariant forall j :: 0 <= j < i ==> Add(u, targets[j]) in s' && s'[Add(u, targets[j])] <= s[u] + 1
      invariant forall q :: q in added ==> q in s'
      invariant forall p :: p in s' && (p !in s || s'[p] < s[p]) ==> p in added && s'[p] == s[u] + 1 && Edge(links, u, p)
      decreases |targets| - i
    {
      var v := Add(u, targets[i]);
      assert (v.0 - u.0, v.1 - u.1) == targets[i];
      if v !in s' || s'[v] > s'[u] + 1 {
        s' := s'[v := s'[u] + 1];
        added := added + [v];
      }
      i := i + 1;
    }
  }

  /** The walk has not been cut short: every tile with a changed distance is relaxed or still queued. */
  ghost predicate Settled(links: map<Pos, seq<Pos>>, s0: map<Pos, nat>, start: Pos, s: map<Pos, nat>, queue: seq<Pos>)
  {
    forall u :: u in s ==> Relaxed(links, s, u) || u in queue || (u in s0 && u != start && s[u] == s0[u])
  }

  /**
   * The breadth-first walk of `parseInput` from `start`, with the distances `s0` the nodes were
   * built with. `fuel` bounds the number of nodes taken off the queue: `done` says the queue ran dry.
   */
  method Walk(links: map<Pos, seq<Pos>>, s0: map<Pos, nat>, start: Pos, fuel: nat) returns (s: map<Pos, nat>, done: bool)
    requires start in s0
    ensures Decreased(s0, s) && Witnessed(links, s0, s)
    ensures done ==> Settled(links, s0, start, s, [])
  {
    s := s0;
    var queue := [start];
    var n := fuel;
    while queue != [] && n > 0
      invariant Decreased(s0, s) && Witnessed(links, s0, s)
      invariant forall q :: q in queue ==> q in s
      invariant Settled(links, s0, start, s, queue)
      decreases n
    {
      var u := queue[0];
      var s', added := RelaxNeighbors(links, s, u);
      WitnessedStep(links, s0, s, s', u);
      SettledStep(links, s0, start, s, s', queue, added);
      s, queue := s', queue[1..] + added;
      n := n - 1;
    }
    done := queue == [];
  }

  /** Relaxing the links of `u` keeps every distance witnessed. */
  lemma WitnessedStep(links: map<Pos, seq<Pos>>, s0: map<Pos, nat>, s: map<Pos, nat>, s': map<Pos, nat>, u: Pos)
    requires Witnessed(links, s0, s) && Decreased(s0, s) && u in s
    requires Decreased(s, s') && s'[u] == s[u]
    requires forall p :: p in s' && (p !in s || s'[p] < s[p]) ==> s'[p] == s[u] + 1 && Edge(links, u, p)
    ensures Witnessed(links, s0, s') && Decreased(s0, s')
  {
    forall p | p in s'
      ensures (p in s0 && s'[p] == s0[p]) || exists w :: w in s' && Edge(links, w, p) && s'[w] + 1 <= s'[p]
    {
      if p !in s || s'[p] < s[p] {
        assert Edge(links, u, p) && s'[u] + 1 <= s'[p];
      } else if !(p in s0 && s[p] == s0[p]) {
        var w :| w in s && Edge(links, w, p) && s[w] + 1 <= s[p];
        assert w in s' && s'[w] + 1 <= s'[p];
      }
    }
  }

  /** Relaxing the links of the head of the queue keeps the walk settled. */
  lemma SettledStep(links: map<Pos, seq<Pos>>, s0: map<Pos, nat>, start: Pos, s: map<Pos, nat>, s': map<Pos, nat>, queue: seq<Pos>, added: seq<Pos>)
    requires queue != [] && queue[0] in s
    requires Settled(links, s0, start, s, queue) && Decreased(s0, s)
    requires Decreased(s, s') && s'[queue[0]] == s[queue[0]] && Relaxed(links, s', queue[0])
    requires forall p :: p in s' && (p !in s || s'[p] < s[p]) ==> p in added
    ensures Settled(links, s0, start, s', queue[1..] + added)
  {
    var u := queue[0];
    forall w | w in s'
      ensures Relaxed(links, s', w) || w in queue[1..] + added || (w in s0 && w != start && s'[w] == s0[w])
    {
      if w != u && w in s && s'[w] == s[w] {
        if Relaxed(links, s, w) {
          assert Relaxed(links, s', w);
        } else if w in queue {
          var k :| 0 <= k < |queue| && queue[k] == w;
          assert queue[1..][k - 1] == w;
        }
      }
    }
  }

  /** A sequence of tiles, each linked to the next. */
  predicate IsPath(links: map<Pos, seq<Pos>>, w: seq<Pos>)
  {
    |w| >= 1 && forall i :: 0 <= i < |w| - 1 ==> Edge(links, w[i], w[i + 1])
  }

  /** When the walk from a lone start runs dry, no path from the start is shorter than its end's distance. */
  lemma {:induction false} PathBound(links: map<Pos, seq<Pos>>, start: Pos, s: map<Pos, nat>, w: seq<Pos>)
    requires Decreased(map[start := 0], s) && Settled(links, map[start := 0], start, s, [])
    requires IsPath(links, w) && w[0] == start
    ensures w[|w| - 1] in s && s[w[|w| - 1]] <= |w| - 1
    decreases |w|
  {
    if |w| > 1 {
      var init := w[..|w| - 1];
      assert IsPath(links, init) by {
        forall i | 0 <= i < |init| - 1
          ensures Edge(links, init[i], init[i + 1])
        {
          assert Edge(links, w[i], w[i + 1]);
        }
      }
      PathBound(links, start, s, init);
      var u, v := w[|w| - 2], w[|w| - 1];
      assert Edge(links, u, v);
      assert Relaxed(links, s, u);
      assert Add(u, (v.0 - u.0, v.1 - u.1)) == v;
    }
  }

  /** Every distance the walk gives is the length of some path from the start. */
  lemma PathTo(links: map<Pos, seq<Pos>>, start: Pos, s: map<Pos, nat>, p: Pos) returns (w: seq<Pos>)
    requires Witnessed(links, map[start := 0], s) && p in s
    ensures IsPath(links, w) && w[0] == start && w[|w| - 1] == p && |w| - 1 <= s[p]
    decreases s[p]
  {
    if p == start && s[p] == 0 {
      w := [p];
    } else {
      var u :| u in s && Edge(links, u, p) && s[u] + 1 <= s[p];
      var wu := PathTo(links, start, s, u);
      w := wu + [p];
      forall i | 0 <= i < |w| - 1
        ensures Edge(links, w[i], w[i + 1])
      {
        if i < |wu| - 1 {
          assert w[i] == wu[i] && w[i + 1] == wu[i + 1];
        }
      }
    }
  }

  /** Some path from `start` to `p` takes `d` steps, and none takes fewer. */
  ghost predicate Shortest(links: map<Pos, seq<Pos>>, start: Pos, p: Pos, d: nat)
  {
    && (exists w :: IsPath(links, w) && w[0] == start && w[|w| - 1] == p && |w| - 1 == d)
    && (forall w :: IsPath(links, w) && w[0] == start && w[|w| - 1] == p ==> d <= |w| - 1)
  }

  /**
   * The walk from a lone start, run until the queue is empty, gives every tile it reaches its
   * shortest-path distance over the links, and reaches every tile some path leads to.
   */
  lemma WalkDistances(links: map<Pos, seq<Pos>>, start: Pos, s: map<Pos, nat>, p: Pos)
    requires Walked(links, map[start := 0], start, s) && p in s
    ensures Shortest(links, start, p, s[p])
  {
    var w := PathTo(links, start, s, p);
    PathBound(links, start, s, w);
    forall w' | IsPath(links, w') && w'[0] == start && w'[|w'| - 1] == p
      ensures s[p] <= |w'| - 1
    {
      PathBound(links, start, s, w');
    }
  }

  /** `part1`: the largest distance of a tile among `ps`, 0 when none has one. */
  method MaxSteps(ps: seq<Pos>, s: map<Pos, nat>) returns (m: nat)
    ensures forall p :: p in ps && p in s ==> s[p] <= m
    ensures m == 0 || exists p :: p in ps && p in s && s[p] == m
  {
    m := 0;
    for i := 0 to |ps|
      invariant forall j :: 0 <= j < i && ps[j] in s ==> s[ps[j]] <= m
      invariant m == 0 || exists j :: 0 <= j < i && ps[j] in s && s[ps[j]] == m
    {
      if ps[i] in s && s[ps[i]] > m {
        m := s[ps[i]];
      }
    }
  }

  /** `(-1) ** n`. */
  function NegOnePow(n: nat): int
  {
    if n == 0 then 1 else -NegOnePow(n - 1)
  }

  lemma {:induction false} NegOnePowParity(n: nat)
    ensures NegOnePow(n) == if n % 2 == 0 then 1 else -1
  {
    if n > 0 {
      NegOnePowParity(n - 1);
    }
  }

  /** A tally's count for `c`, 0 when absent. */
  function CountOf(m: map<char, nat>, c: char): nat
  {
    if c in m then m[c] else 0
  }

  function Smaller(a: nat, b: nat): nat
  {
    if a <= b then a else b
  }

  /**
   * `hasOddPolarity`: the bars, each F paired with a J and each L paired with a 7 cross the
   * row; the polarity `(-1) ** nBars` is negative.
   */
  predicate HasOddPolarity(m: map<char, nat>)
  {
    var nBars := CountOf(m, '|') + Smaller(CountOf(m, 'F'), CountOf(m, 'J')) + Smaller(CountOf(m, 'L'), CountOf(m, '7'));
    NegOnePow(nBars) < 0
  }

  /** The polarity is odd exactly when the crossings are odd in number. */
  lemma PolarityParity(m: map<char, nat>)
    ensures HasOddPolarity(m) <==>
      (CountOf(m, '|') + Smaller(CountOf(m, 'F'), CountOf(m, 'J')) + Smaller(CountOf(m, 'L'), CountOf(m, '7'))) % 2 == 1
  {
    NegOnePowParity(CountOf(m, '|') + Smaller(CountOf(m, 'F'), CountOf(m, 'J')) + Smaller(CountOf(m, 'L'), CountOf(m, '7')));
  }

  /** The tile at `(row, c)` is on the loop and not a '-'. */
  predicate Crossing(values: Tiles, s: map<Pos, nat>, row: int, c: int)
  {
    (row, c) in values && (row, c) in s && values[(row, c)] != '-'
  }

  /** `leftNodes`: the tally by value of the crossing tiles in columns `0..col` of `row`. */
  function LeftTally(values: Tiles, s: map<Pos, nat>, row: int, col: nat): map<char, nat>
  {
    if col == 0 then map[]
    else
      var m := LeftTally(values, s, row, col - 1);
      if Crossing(values, s, row, col - 1) then
        var v := values[(row, col - 1)];
        m[v := CountOf(m, v) + 1]
      else m
  }

  /** The columns before `col` of `row` whose tile is a crossing with value `c`. */
  function LeftOf(values: Tiles, s: map<Pos, nat>, row: int, col: nat, c: char): (cs: set<int>)
    ensures forall k :: k in cs <==> 0 <= k < col && Crossing(values, s, row, k) && values[(row, k)] == c
  {
    set k | 0 <= k < col && Crossing(values, s, row, k) && values[(row, k)] == c
  }

  /** The tally counts, for each value, the crossing tiles with that value to the left. */
  lemma {:induction false} LeftTallyCounts(values: Tiles, s: map<Pos, nat>, row: int, col: nat, c: char)
    ensures CountOf(LeftTally(values, s, row, col), c) == |LeftOf(values, s, row, col, c)|
  {
    if col > 0 {
      LeftTallyCounts(values, s, row, col - 1, c);
      var before := LeftOf(values, s, row, col - 1, c);
      if Crossing(values, s, row, col - 1) && values[(row, col - 1)] == c {
        assert LeftOf(values, s, row, col, c) == before + {col - 1};
      } else {
        assert LeftOf(values, s, row, col, c) == before;
      }
    }
  }

  /** `calculateOutside`: loop tiles are inside, edge tiles outside, the rest outside unless the crossings to the left have odd polarity. */
  predicate IsOutside(values: Tiles, s: map<Pos, nat>, width: int, height: int, p: Pos)
  {
    if p in s then false
    else if p.0 == 0 || p.1 == 0 || p.0 == height - 1 || p.1 == width - 1 then true
    else p.1 >= 0 && !HasOddPolarity(LeftTally(values, s, p.0, p.1))
  }

  /** An interior tile off the loop is outside exactly when it sees an even number of crossings to its left. */
  lemma OutsideParity(values: Tiles, s: map<Pos, nat>, width: int, height: int, p: Pos)
    requires p !in s && 0 < p.0 < height - 1 && 0 < p.1 < width - 1
    ensures IsOutside(values, s, width, height, p) <==>
      (|LeftOf(values, s, p.0, p.1, '|')|
       + Smaller(|LeftOf(values, s, p.0, p.1, 'F')|, |LeftOf(values, s, p.0, p.1, 'J')|)
       + Smaller(|LeftOf(values, s, p.0, p.1, 'L')|, |LeftOf(values, s, p.0, p.1, '7')|)) % 2 == 0
  {
    var m := LeftTally(values, s, p.0, p.1);
    PolarityParity(m);
    LeftTallyCounts(values, s, p.0, p.1, '|');
    LeftTallyCounts(values, s, p.0, p.1, 'F');
    LeftTallyCounts(values, s, p.0, p.1, 'J');
    LeftTallyCounts(values, s, p.0, p.1, 'L');
    LeftTallyCounts(values, s, p.0, p.1, '7');
  }

  /** The loop of `calculateOutside` gathering `leftNodes`. */
  method TallyLeft(values: Tiles, s: map<Pos, nat>, row: int, col: nat) returns (m: map<char, nat>)
    ensures m == LeftTally(values, s, row, col)
  {
    m := map[];
    for iCol := 0 to col
      invariant m == LeftTally(values, s, row, iCol)
    {
      if (row, iCol) in values && (row, iCol) in s && values[(row, iCol)] != '-' {
        var v := values[(row, iCol)];
        m := m[v := CountOf(m, v) + 1];
      }
    }
  }

  /** `calculateOutside` on the tile at `p`. */
  method CalculateOutside(values: Tiles, s: map<Pos, nat>, width: int, height: int, p: Pos) returns (outside: bool)
    ensures outside == IsOutside(values, s, width, height, p)
  {
    if p in s {
      return false;
    }
    if p.0 == 0 || p.1 == 0 || p.0 == height - 1 || p.1 == width - 1 {
      return true;
    }
    if p.1 < 0 {
      return false;
    }
    var leftNodes := TallyLeft(values, s, p.0, p.1);
    outside := !HasOddPolarity(leftNodes);
  }

  /** Every start tile begins zero steps away; every other tile is not yet reached. */
  function Starts(tiles0: Tiles): (s0: map<Pos, nat>)
    ensures forall p :: p in s0 <==> p in tiles0 && tiles0[p] == 'S'
    ensures forall p :: p in s0 ==> s0[p] == 0
  {
    map p | p in tiles0 && tiles0[p] == 'S' :: 0
  }

  /** No tile before index `k` of `ps` is a start. */
  predicate NoStartBefore(tiles0: Tiles, ps: seq<Pos>, k: int)
  {
    forall j :: 0 <= j < k && j < |ps| && ps[j] in tiles0 ==> tiles0[ps[j]] != 'S'
  }

  /** `grid.find((node) => node?.isStart)`: the first start among `ps`. */
  function FirstStart(tiles0: Tiles, ps: seq<Pos>): (r: Option<Pos>)
    ensures r.None? <==> forall p :: p in ps && p in tiles0 ==> tiles0[p] != 'S'
    ensures r.Some? ==> r.value in ps && r.value in tiles0 && tiles0[r.value] == 'S'
    ensures r.Some? ==> exists k :: 0 <= k < |ps| && ps[k] == r.value && NoStartBefore(tiles0, ps, k)
  {
    if ps == [] then None
    else if ps[0] in tiles0 && tiles0[ps[0]] == 'S' then Some(ps[0])
    else
      var r := FirstStart(tiles0, ps[1..]);
      if r.Some? then
        var k :| 0 <= k < |ps[1..]| && ps[1..][k] == r.value && NoStartBefore(tiles0, ps[1..], k);
        assert ps[k + 1] == r.value && NoStartBefore(tiles0, ps, k + 1);
        r
      else r
  }

  /** The lines of the input that are not empty: the rows of the grid. */
  function Rows(lines: seq<string>): (rows: seq<string>)
    ensures forall l :: l in rows <==> l in lines && l != ""
  {
    if lines == [] then []
    else (if lines[0] != "" then [lines[0]] else []) + Rows(lines[1..])
  }

  /** The parsed grid: tiles as linked, each tile's links, the distances and which tiles are outside. */
  datatype Network = Network(rows: seq<string>, values: Tiles, links: map<Pos, seq<Pos>>, start: Pos,
                             steps: map<Pos, nat>, outside: map<Pos, bool>)

  /** The outcome of `parseInput`: the grid, one of its errors, or a walk that ran out of fuel. */
  datatype Parsed = Parsed(net: Network) | Failed(error: string) | OutOfFuel

  /** `grid.forEach((node) => node?.calculateOutside())` over the cells `ps`. */
  method OutsideAll(values: Tiles, s: map<Pos, nat>, width: int, height: int, ps: seq<Pos>) returns (outside: map<Pos, bool>)
    ensures forall p :: p in outside <==> p in ps
    ensures forall p :: p in ps ==> outside[p] == IsOutside(values, s, width, height, p)
  {
    outside := map[];
    for i := 0 to |ps|
      invariant forall p :: p in outside <==> p in ps[..i]
      invariant forall p :: p in ps[..i] ==> outside[p] == IsOutside(values, s, width, height, p)
    {
      var o := CalculateOutside(values, s, width, height, ps[i]);
      outside := outside[ps[i] := o];
    }
    assert ps[..|ps|] == ps;
  }

  /** The walk from `start` over `links` has run dry, starting from the distances `s0`. */
  ghost predicate Walked(links: map<Pos, seq<Pos>>, s0: map<Pos, nat>, start: Pos, s: map<Pos, nat>)
  {
    Decreased(s0, s) && Witnessed(links, s0, s) && Settled(links, s0, start, s, [])
  }

  /** What a parsed grid satisfies: linked as the rows say, walked from its first start to the end, outside-ness as `calculateOutside` decides. */
  ghost predicate NetworkOk(net: Network)
  {
    var tiles0 := TilesOf(net.rows);
    && Linked(tiles0, Cells(net.rows)) == Success(LinkState(net.values, net.links))
    && FirstStart(tiles0, Cells(net.rows)) == Some(net.start)
    && Walked(net.links, Starts(tiles0), net.start, net.steps)
    && (forall p :: p in net.outside <==> p in Cells(net.rows))
    && (forall p :: p in Cells(net.rows) ==>
          net.outside[p] == IsOutside(net.values, net.steps, Grid.MaxWidth(net.rows), |net.rows|, p))
  }

  /** `parseInput`, with the walk bounded by `fuel` nodes taken off the queue. */
  method ParseInput(lines: seq<string>, fuel: nat) returns (r: Parsed)
    ensures r == Failed("Invalid input dimensions") <==> Rows(lines) == []
    ensures r == Failed("No start node found") <==>
      Rows(lines) != [] && FirstStart(TilesOf(Rows(lines)), Cells(Rows(lines))).None?
    ensures r.Failed? && Rows(lines) != [] && FirstStart(TilesOf(Rows(lines)), Cells(Rows(lines))).Some? ==>
      Linked(TilesOf(Rows(lines)), Cells(Rows(lines))) == Failure(r.error)
    ensures r.Parsed? ==> r.net.rows == Rows(lines) && NetworkOk(r.net)
  {
    var rows := Rows(lines);
    if rows == [] {
      return Failed("Invalid input dimensions");
    }
    assert rows[0] in rows;
    var tiles0 := TilesOf(rows);
    var ps := Cells(rows);
    var start := FirstStart(tiles0, ps);
    if start.None? {
      return Failed("No start node found");
    }
    var linked := LinkCells(tiles0, ps);
    if linked.Failure? {
      LinkErrors(tiles0, ps);
      return Failed(linked.error);
    }
    var st := linked.value;
    var steps, done := Walk(st.links, Starts(tiles0), start.value, fuel);
    if !done {
      return OutOfFuel;
    }
    var outside := OutsideAll(st.values, steps, Grid.MaxWidth(rows), |rows|, ps);
    return Parsed(Network(rows, st.values, st.links, start.value, steps, outside));
  }

  /** Linking only ever throws one of the two errors of `calculateStartNodeValue`. */
  lemma {:induction false} LinkErrors(tiles0: Tiles, ps: seq<Pos>)
    requires forall p :: p in ps ==> p in tiles0
    ensures Linked(tiles0, ps).Failure? ==>
      Linked(tiles0, ps).error in {"Start node has less than 2 neighbors", "Start node neighbors are not orthogonal"}
    decreases |ps|
  {
    if ps != [] {
      LinkErrors(tiles0, ps[..|ps| - 1]);
      var prev := Linked(tiles0, ps[..|ps| - 1]);
      if prev.Success? {
        StepErrors(tiles0, prev.value, ps[|ps| - 1]);
      }
    }
  }

  /** A single `linkLoopNeighbors` call throws only what `calculateStartNodeValue` throws. */
  lemma StepErrors(tiles0: Tiles, st: LinkState, p: Pos)
    requires p in tiles0 && p in st.values
    ensures LinkStep(tiles0, st, p).Failure? ==>
      LinkStep(tiles0, st, p).error in {"Start node has less than 2 neighbors", "Start node neighbors are not orthogonal"}
  {
    if tiles0[p] == 'S' {
      StartValueErrors(LinksOf(Pushed(st, p), p));
    }
  }

  lemma StartValueErrors(neighbors: seq<Pos>)
    ensures StartValue(neighbors).Failure? ==>
      StartValue(neighbors).error in {"Start node has less than 2 neighbors", "Start node neighbors are not orthogonal"}
  {
  }

  /** `part1`: the farthest loop tile from the start. */
  method Part1(net: Network) returns (m: nat)
    ensures forall p :: p in Cells(net.rows) && p in net.steps ==> net.steps[p] <= m
    ensures m == 0 || exists p :: p in Cells(net.rows) && p in net.steps && net.steps[p] == m
  {
    m := MaxSteps(Cells(net.rows), net.steps);
  }

  /** `isEnclosed`: neither on the loop nor outside. */
  predicate Enclosed(net: Network, p: Pos)
  {
    p !in net.steps && p in net.outside && !net.outside[p]
  }

  /** The cells among `ps` that are enclosed, in order. */
  function EnclosedAmong(net: Network, ps: seq<Pos>): (r: seq<Pos>)
    ensures forall p :: p in r <==> p in ps && Enclosed(net, p)
    ensures |r| <= |ps|
  {
    if ps == [] then []
    else
      var r := EnclosedAmong(net, ps[..|ps| - 1]);
      if Enclosed(net, ps[|ps| - 1]) then r + [ps[|ps| - 1]] else r
  }

  /** `part2`: the number of enclosed tiles. */
  method Part2(net: Network) returns (n: nat)
    ensures n == |EnclosedAmong(net, Cells(net.rows))|
  {
    var ps := Cells(net.rows);
    n := 0;
    for i := 0 to |ps|
      invariant n == |EnclosedAmong(net, ps[..i])|
    {
      assert ps[..i + 1][..i] == ps[..i];
      if Enclosed(net, ps[i]) {
        n := n + 1;
      }
    }
    assert ps[..|ps|] == ps;
  }

  /**
   * In a parsed grid every tile is exactly one of: on the loop, outside, enclosed; loop tiles are
   * never outside and tiles on the border off the loop always are.
   */
  lemma Partition(net: Network, p: Pos)
    requires NetworkOk(net) && p in Cells(net.rows)
    ensures p in net.steps ==> !net.outside[p] && !Enclosed(net, p)
    ensures p !in net.steps ==> (net.outside[p] <==> !Enclosed(net, p))
    ensures p !in net.steps && (p.0 == 0 || p.1 == 0 || p.0 == |net.rows| - 1 || p.1 == Grid.MaxWidth(net.rows) - 1) ==>
      net.outside[p]
  {
  }

  /** The links of a parsed grid are well formed. */
  lemma ParsedLinks(net: Network)
    requires NetworkOk(net)
    ensures LinksOk(TilesOf(net.rows), LinkState(net.values, net.links))
  {
    LinkedOk(TilesOf(net.rows), Cells(net.rows));
  }

  /**
   * With a single start tile, the distances of a parsed grid are exactly the shortest-path
   * distances from the start over the links.
   */
  lemma ParsedDistances(net: Network, p: Pos)
    requires NetworkOk(net) && p in net.steps
    requires forall q :: q in TilesOf(net.rows) && TilesOf(net.rows)[q] == 'S' ==> q == net.start
    ensures Shortest(net.links, net.start, p, net.steps[p])
  {
    var tiles0 := TilesOf(net.rows);
    assert FirstStart(tiles0, Cells(net.rows)) == Some(net.start);
    assert net.start in tiles0 && tiles0[net.start] == 'S';
    assert Walked(net.links, Starts(tiles0), net.start, net.steps);
    LoneStart(tiles0, net.start);
    WalkDistances(net.links, net.start, net.steps, p);
  }

  lemma LoneStart(tiles0: Tiles, start: Pos)
    requires start in tiles0 && tiles0[start] == 'S'
    requires forall q :: q in tiles0 && tiles0[q] == 'S' ==> q == start
    ensures Starts(tiles0) == map[start := 0]
  {
  }
}
