/**
 * Puzzle 25: a wiring diagram of named components. `buildGraph` links every component to
 * the ones its line names, in both directions, and records each link as an `Edge` keyed by
 * the two names sorted and joined by '-'. Part 1 cuts three candidate edges at a time and
 * measures, by a breadth-first search over link names, how much of the graph the first
 * component still reaches; when that is less than the whole graph, the answer is the product
 * of the two sides.
 */
module Day25 {
  import opened Wrappers
  import opened Worklist
  import opened Queue
  import opened CustomSet

  /** A diagram line: the name before the colon and the names after it, in order. */
  datatype Line = Line(name: string, linked: seq<string>)

  /** An `Edge`: its two components, by name, and the id they give it. */
  datatype Edge = Edge(id: string, vertex1: string, vertex2: string)

  /**
   * What `buildGraph` returns: the graph's component names in insertion order, each
   * component's `links` set in insertion order, and the `edges` set by id.
   */
  datatype Network = Network(order: seq<string>, links: map<string, seq<string>>, edges: map<string, Edge>)

  /** What part 1 finds: the product of the two sides, no splitting cut, or a search cut short. */
  datatype Outcome = Answer(value: int) | NoCut | OutOfFuel

  // Edge ids.

  /** The default `sort` order on strings: character by character, a prefix first. */
  predicate AtMost(a: string, b: string)
    decreases |a|
  {
    |a| == 0 || (|b| > 0 && (a[0] < b[0] || (a[0] == b[0] && AtMost(a[1..], b[1..]))))
  }

  lemma {:induction false} AtMostTotal(a: string, b: string)
    ensures AtMost(a, b) || AtMost(b, a)
    decreases |a|
  {
    if |a| > 0 && |b| > 0 && a[0] == b[0] {
      AtMostTotal(a[1..], b[1..]);
    }
  }

  lemma {:induction false} AtMostAntisymmetric(a: string, b: string)
    requires AtMost(a, b) && AtMost(b, a)
    ensures a == b
    decreases |a|
  {
    if |a| > 0 {
      AtMostAntisymmetric(a[1..], b[1..]);
      assert a == [a[0]] + a[1..] && b == [b[0]] + b[1..];
    }
  }

  /** `[vertex1.name, vertex2.name].sort().join('-')`. */
  function EdgeId(a: string, b: string): string
  {
    if AtMost(a, b) then a + "-" + b else b + "-" + a
  }

  /** The id is the two names in sorted order joined by '-', whichever way round they come. */
  lemma EdgeIdSymmetric(a: string, b: string)
    ensures EdgeId(a, b) == EdgeId(b, a)
    ensures (AtMost(a, b) && EdgeId(a, b) == a + "-" + b) || (AtMost(b, a) && EdgeId(a, b) == b + "-" + a)
  {
    AtMostTotal(a, b);
    if AtMost(a, b) && AtMost(b, a) {
      AtMostAntisymmetric(a, b);
    }
  }

  /** For names without a '-', the id determines the pair of names. */
  lemma EdgeIdDeterminesPair(a: string, b: string, c: string, d: string)
    requires '-' !in a && '-' !in b && '-' !in c && '-' !in d
    requires EdgeId(a, b) == EdgeId(c, d)
    ensures (a == c && b == d) || (a == d && b == c)
  {
    EdgeIdSymmetric(a, b);
    EdgeIdSymmetric(c, d);
    var lo1, hi1 := if AtMost(a, b) then a else b, if AtMost(a, b) then b else a;
    var lo2, hi2 := if AtMost(c, d) then c else d, if AtMost(c, d) then d else c;
    JoinedSplits(lo1, hi1, lo2, hi2);
  }

  lemma JoinedSplits(a: string, b: string, c: string, d: string)
    requires '-' !in a && '-' !in b && '-' !in c && '-' !in d
    requires a + "-" + b == c + "-" + d
    ensures a == c && b == d
  {
    var s := a + "-" + b;
    DashAfter(a, b);
    DashAfter(c, d);
    assert a == s[..|a|] && c == s[..|c|];
    assert b == s[|a| + 1..] && d == s[|c| + 1..];
  }

  /** The index of the first '-', or the length when there is none. */
  function DashAt(s: string): nat
  {
    if s == [] || s[0] == '-' then 0 else 1 + DashAt(s[1..])
  }

  lemma {:induction false} DashAfter(c: string, d: string)
    requires '-' !in c
    ensures DashAt(c + "-" + d) == |c|
  {
    if c != [] {
      assert (c + "-" + d)[1..] == c[1..] + "-" + d;
      DashAfter(c[1..], d);
    }
  }

  // The graph.

  /** A component's links; `graph.get` misses a name the graph does not hold, which has none. */
  function LinksOf(links: map<string, seq<string>>, name: string): seq<string>
  {
    if name in links then links[name] else []
  }

  /** `Set.add`: appended unless already present. */
  function AddNew(s: seq<string>, x: string): (r: seq<string>)
    ensures forall y :: y in r <==> y in s || y == x
    ensures Distinct(s) ==> Distinct(r)
  {
    if x in s then s else s + [x]
  }

  /** Every link is mirrored by one back. */
  ghost predicate Symmetric(links: map<string, seq<string>>)
  {
    forall x, y :: y in LinksOf(links, x) ==> x in LinksOf(links, y)
  }

  /**
   * The `graph` custom set: one component per name, each name once in the insertion order,
   * link sets without repeats, and links mirrored.
   */
  ghost predicate Shaped(net: Network)
  {
    && Distinct(net.order)
    && (forall x :: x in net.order <==> x in net.links)
    && (forall x :: x in net.links ==> Distinct(net.links[x]))
    && Symmetric(net.links)
  }

  /** Both vertices of `e` link to each other. */
  predicate Joined(links: map<string, seq<string>>, e: Edge)
  {
    e.vertex2 in LinksOf(links, e.vertex1) && e.vertex1 in LinksOf(links, e.vertex2)
  }

  /** A shaped graph whose edges sit under their own ids and join linked components. */
  ghost predicate Valid(net: Network)
  {
    Shaped(net) && forall k :: k in net.edges ==> net.edges[k].id == k && Joined(net.links, net.edges[k])
  }

  function Empty(): Network
  {
    Network([], map[], map[])
  }

  /** `graph.get(name) || new Component(...)` followed by `graph.add(component)`. */
  function WithComponent(net: Network, name: string): (r: Network)
    ensures name in r.links
  {
    if name in net.links then net else Network(net.order + [name], net.links[name := []], net.edges)
  }

  /**
   * One link of a line: the component links to `t` and `t` (found, or made and added) back
   * to it; the edge between them is added unless its id is already there.
   */
  function Linked(net: Network, name: string, t: string): (r: Network)
    requires name in net.links
    ensures name in r.links
  {
    var first := net.links[name := AddNew(net.links[name], t)];
    var both := first[t := AddNew(LinksOf(first, t), name)];
    var e := Edge(EdgeId(name, t), name, t);
    Network(if t in net.links then net.order else net.order + [t], both,
            if e.id in net.edges then net.edges else net.edges[e.id := e])
  }

  /** The links `ts` of a line, in order. */
  function LinkedAll(net: Network, name: string, ts: seq<string>): (r: Network)
    requires name in net.links
    ensures name in r.links
  {
    if ts == [] then net else Linked(LinkedAll(net, name, ts[..|ts| - 1]), name, ts[|ts| - 1])
  }

  /** The `forEach` body of `buildGraph` for one line. */
  function WithLine(net: Network, line: Line): Network
  {
    LinkedAll(WithComponent(net, line.name), line.name, line.linked)
  }

  /** `buildGraph` of the lines, in order. */
  function Built(lines: seq<Line>): Network
  {
    if lines == [] then Empty() else WithLine(Built(lines[..|lines| - 1]), lines[|lines| - 1])
  }

  /** `breakLink(other)` on component `name`: the link goes both ways, when `other` is in the graph. */
  function Broken(net: Network, name: string, other: string): Network
    requires name in net.links
  {
    var first := net.links[name := Without(net.links[name], other)];
    Network(net.order, if other in first then first[other := Without(first[other], name)] else first, net.edges)
  }

  /** `testGraph.get(edge.vertex1.name)?.breakLink(edge.vertex2.name)`. */
  function Cut(net: Network, e: Edge): (r: Network)
    ensures r.order == net.order && r.links.Keys == net.links.Keys
  {
    if e.vertex1 in net.links then Broken(net, e.vertex1, e.vertex2) else net
  }

  /** `neighbors`: the components the links name, skipping (with a warning) a name the graph does not hold. */
  function Neighbors(links: map<string, seq<string>>, name: string): (r: seq<string>)
    ensures forall y :: y in r <==> y in LinksOf(links, name) && y in links
  {
    Present(LinksOf(links, name), links)
  }

  function Present(s: seq<string>, links: map<string, seq<string>>): (r: seq<string>)
    ensures forall y :: y in r <==> y in s && y in links
  {
    if s == [] then [] else (if s[0] in links then [s[0]] else []) + Present(s[1..], links)
  }

  /** In a mirrored graph no link is missing from it, so `neighbors` is every link, in order. */
  lemma NeighborsAreLinks(links: map<string, seq<string>>, name: string)
    requires Symmetric(links)
    ensures Neighbors(links, name) == LinksOf(links, name)
  {
    forall y | y in LinksOf(links, name)
      ensures y in links
    {
      assert name in LinksOf(links, y);
    }
    PresentAll(LinksOf(links, name), links);
  }

  lemma {:induction false} PresentAll(s: seq<string>, links: map<string, seq<string>>)
    requires forall y :: y in s ==> y in links
    ensures Present(s, links) == s
  {
    if s != [] {
      PresentAll(s[1..], links);
      assert s == [s[0]] + s[1..];
    }
  }

  // What building does.

  /** A link of a line: exactly the pair `name`–`t` is added, in both directions, and nothing is lost. */
  lemma LinkedAt(net: Network, name: string, t: string, x: string, y: string)
    requires name in net.links
    ensures var r := Linked(net, name, t);
      && (y in LinksOf(r.links, x) <==> y in LinksOf(net.links, x) || (x == name && y == t) || (x == t && y == name))
      && (x in r.links <==> x in net.links || x == t)
  {
  }

  lemma LinkedExact(net: Network, name: string, t: string)
    requires name in net.links
    ensures var r := Linked(net, name, t);
      && (forall x, y :: y in LinksOf(r.links, x) <==> y in LinksOf(net.links, x) || (x == name && y == t) || (x == t && y == name))
      && (forall x :: x in r.links <==> x in net.links || x == t)
  {
    forall x, y
      ensures var r := Linked(net, name, t);
        y in LinksOf(r.links, x) <==> y in LinksOf(net.links, x) || (x == name && y == t) || (x == t && y == name)
    {
      LinkedAt(net, name, t, x, y);
    }
    forall x
      ensures x in Linked(net, name, t).links <==> x in net.links || x == t
    {
      LinkedAt(net, name, t, x, x);
    }
  }

  /** A link of a line keeps the earlier order and edges, and records the edge between the two names. */
  lemma LinkedKeeps(net: Network, name: string, t: string)
    requires name in net.links
    ensures var r := Linked(net, name, t);
      && net.order <= r.order
      && (forall k :: k in net.edges ==> k in r.edges && r.edges[k] == net.edges[k])
      && EdgeId(name, t) in r.edges
  {
  }

  /** A link of a line keeps the graph valid. */
  lemma LinkedValid(net: Network, name: string, t: string)
    requires Valid(net) && name in net.links
    ensures Valid(Linked(net, name, t))
  {
    LinkedShaped(net, name, t);
    LinkedEdges(net, name, t);
  }

  lemma LinkedShaped(net: Network, name: string, t: string)
    requires Shaped(net) && name in net.links
    ensures Shaped(Linked(net, name, t))
  {
    var r := Linked(net, name, t);
    LinkedExact(net, name, t);
    if t !in net.links {
      DistinctAppend(net.order, t);
    }
    forall x | x in r.links
      ensures Distinct(r.links[x])
    {
      if x != name && x != t {
        assert r.links[x] == net.links[x];
      }
    }
  }

  lemma LinkedEdges(net: Network, name: string, t: string)
    requires Valid(net) && name in net.links
    ensures var r := Linked(net, name, t);
      forall k :: k in r.edges ==> r.edges[k].id == k && Joined(r.links, r.edges[k])
  {
    var r := Linked(net, name, t);
    forall k | k in r.edges
      ensures r.edges[k].id == k && Joined(r.links, r.edges[k])
    {
      var e := r.edges[k];
      if k in net.edges {
        assert e == net.edges[k] && Joined(net.links, e);
      }
      LinkedAt(net, name, t, e.vertex1, e.vertex2);
      LinkedAt(net, name, t, e.vertex2, e.vertex1);
    }
  }

  /** The links of a line: each name is linked to the line's component and back, and nothing is lost. */
  lemma {:induction false} LinkedAllAt(net: Network, name: string, ts: seq<string>, x: string, y: string)
    requires name in net.links
    ensures var r := LinkedAll(net, name, ts);
      && (y in LinksOf(r.links, x) <==> y in LinksOf(net.links, x) || (x == name && y in ts) || (x in ts && y == name))
      && (x in r.links <==> x in net.links || x in ts)
    decreases |ts|
  {
    if ts != [] {
      var init, t := ts[..|ts| - 1], ts[|ts| - 1];
      assert ts == init + [t];
      var mid := LinkedAll(net, name, init);
      LinkedAllAt(net, name, init, x, y);
      LinkedAt(mid, name, t, x, y);
      assert y in ts <==> y in init || y == t;
      assert x in ts <==> x in init || x == t;
    }
  }

  /** The links of a line keep the earlier order and edges, and record an edge for each name linked. */
  lemma {:induction false} LinkedAllKeeps(net: Network, name: string, ts: seq<string>)
    requires name in net.links
    ensures var r := LinkedAll(net, name, ts);
      && net.order <= r.order
      && (forall k :: k in net.edges ==> k in r.edges && r.edges[k] == net.edges[k])
      && (forall t :: t in ts ==> EdgeId(name, t) in r.edges)
    decreases |ts|
  {
    if ts != [] {
      var init, t := ts[..|ts| - 1], ts[|ts| - 1];
      assert ts == init + [t];
      var mid := LinkedAll(net, name, init);
      LinkedAllKeeps(net, name, init);
      LinkedKeeps(mid, name, t);
      assert mid.order <= Linked(mid, name, t).order;
      assert net.order == mid.order[..|net.order|];
    }
  }

  lemma {:induction false} LinkedAllValid(net: Network, name: string, ts: seq<string>)
    requires Valid(net) && name in net.links
    ensures Valid(LinkedAll(net, name, ts))
    decreases |ts|
  {
    if ts != [] {
      var init := ts[..|ts| - 1];
      LinkedAllValid(net, name, init);
      LinkedValid(LinkedAll(net, name, init), name, ts[|ts| - 1]);
    }
  }

  /** Finding or adding the line's component keeps the graph valid and changes no link. */
  lemma WithComponentValid(net: Network, name: string)
    requires Valid(net)
    ensures Valid(WithComponent(net, name))
  {
    if name !in net.links {
      var r := WithComponent(net, name);
      DistinctAppend(net.order, name);
      forall x
        ensures LinksOf(r.links, x) == LinksOf(net.links, x)
      {
      }
      assert Symmetric(r.links);
      forall k | k in r.edges
        ensures Joined(r.links, r.edges[k])
      {
        assert Joined(net.links, net.edges[k]);
      }
    }
  }

  lemma DistinctAppend(s: seq<string>, x: string)
    requires Distinct(s) && x !in s
    ensures Distinct(s + [x])
  {
    var r := s + [x];
    forall i, j | 0 <= i < j < |r|
      ensures r[i] != r[j]
    {
      if j == |s| {
        assert r[i] == s[i];
      }
    }
  }

  /** Some line links `x` to `y`, in one direction or the other. */
  predicate Joins(line: Line, x: string, y: string)
  {
    (line.name == x && y in line.linked) || (line.name == y && x in line.linked)
  }

  predicate Mentions(lines: seq<Line>, x: string, y: string)
  {
    exists i :: 0 <= i < |lines| && Joins(lines[i], x, y)
  }

  /** Some line names `x`, before or after its colon. */
  predicate Names(line: Line, x: string)
  {
    line.name == x || x in line.linked
  }

  predicate Named(lines: seq<Line>, x: string)
  {
    exists i :: 0 <= i < |lines| && Names(lines[i], x)
  }

  lemma MentionsLast(lines: seq<Line>, x: string, y: string)
    requires lines != []
    ensures var init, last := lines[..|lines| - 1], lines[|lines| - 1];
      && (Mentions(lines, x, y) <==> Mentions(init, x, y) || Joins(last, x, y))
      && (Named(lines, x) <==> Named(init, x) || Names(last, x))
  {
    var init, last := lines[..|lines| - 1], lines[|lines| - 1];
    if Mentions(lines, x, y) {
      var i :| 0 <= i < |lines| && Joins(lines[i], x, y);
      if i < |init| {
        assert init[i] == lines[i];
      }
    }
    if Mentions(init, x, y) {
      var i :| 0 <= i < |init| && Joins(init[i], x, y);
      assert lines[i] == init[i];
    }
    if Named(lines, x) {
      var i :| 0 <= i < |lines| && Names(lines[i], x);
      if i < |init| {
        assert init[i] == lines[i];
      }
    }
    if Named(init, x) {
      var i :| 0 <= i < |init| && Names(init[i], x);
      assert lines[i] == init[i];
    }
  }

  /** One line links its component to each name after its colon and each of those back to it, and loses nothing. */
  lemma WithLineAt(net: Network, line: Line, x: string, y: string)
    ensures var r := WithLine(net, line);
      && (y in LinksOf(r.links, x) <==> y in LinksOf(net.links, x) || Joins(line, x, y))
      && (x in r.links <==> x in net.links || Names(line, x))
  {
    var mid := WithComponent(net, line.name);
    assert LinksOf(mid.links, x) == LinksOf(net.links, x);
    LinkedAllAt(mid, line.name, line.linked, x, y);
  }

  lemma WithLineValid(net: Network, line: Line)
    requires Valid(net)
    ensures Valid(WithLine(net, line))
  {
    WithComponentValid(net, line.name);
    LinkedAllValid(WithComponent(net, line.name), line.name, line.linked);
  }

  /** `buildGraph` gives a valid graph. */
  lemma {:induction false} BuiltValid(lines: seq<Line>)
    ensures Valid(Built(lines))
    decreases |lines|
  {
    if lines != [] {
      BuiltValid(lines[..|lines| - 1]);
      WithLineValid(Built(lines[..|lines| - 1]), lines[|lines| - 1]);
    }
  }

  lemma {:induction false} BuiltAt(lines: seq<Line>, x: string, y: string)
    ensures var net := Built(lines);
      && (x in net.links <==> Named(lines, x))
      && (y in LinksOf(net.links, x) <==> Mentions(lines, x, y))
    decreases |lines|
  {
    if lines != [] {
      var init, last := lines[..|lines| - 1], lines[|lines| - 1];
      BuiltAt(init, x, y);
      MentionsLast(lines, x, y);
      WithLineAt(Built(init), last, x, y);
    }
  }

  /**
   * `buildGraph` gives one component per name any line mentions, and links `x` to `y` exactly
   * when some line joins them, either way round: linking is symmetric, and a component met again
   * is the first one, with its earlier links kept.
   */
  lemma BuiltExact(lines: seq<Line>)
    ensures var net := Built(lines);
      && (forall x :: x in net.links <==> Named(lines, x))
      && (forall x, y :: y in LinksOf(net.links, x) <==> Mentions(lines, x, y))
  {
    forall x, y
      ensures y in LinksOf(Built(lines).links, x) <==> Mentions(lines, x, y)
    {
      BuiltAt(lines, x, y);
    }
    forall x
      ensures x in Built(lines).links <==> Named(lines, x)
    {
      BuiltAt(lines, x, x);
    }
  }

  /** Every link a line names is recorded as an edge under its id, joining its linked vertices. */
  lemma BuiltEdges(lines: seq<Line>, i: nat, j: nat)
    requires i < |lines| && j < |lines[i].linked|
    ensures var net, line := Built(lines), lines[i];
      EdgeId(line.name, line.linked[j]) in net.edges && Joined(net.links, net.edges[EdgeId(line.name, line.linked[j])])
  {
    BuiltHasEdges(lines);
    BuiltValid(lines);
  }

  lemma {:induction false} BuiltHasEdges(lines: seq<Line>)
    ensures forall i, t :: 0 <= i < |lines| && t in lines[i].linked ==> EdgeId(lines[i].name, t) in Built(lines).edges
    decreases |lines|
  {
    if lines != [] {
      var init, last := lines[..|lines| - 1], lines[|lines| - 1];
      BuiltHasEdges(init);
      var mid := WithComponent(Built(init), last.name);
      LinkedAllKeeps(mid, last.name, last.linked);
      forall i, t | 0 <= i < |init| && t in lines[i].linked
        ensures EdgeId(lines[i].name, t) in Built(lines).edges
      {
        assert lines[i] == init[i];
      }
    }
  }

  // Breaking links.

  /** `breakLink` removes exactly the link between the two names, in both directions. */
  lemma BrokenExact(net: Network, name: string, other: string)
    requires name in net.links
    ensures var r := Broken(net, name, other);
      && r.order == net.order && r.links.Keys == net.links.Keys && r.edges == net.edges
      && (forall x, y :: y in LinksOf(r.links, x) <==>
            y in LinksOf(net.links, x) && !(x == name && y == other) && !(x == other && y == name))
  {
  }

  /** Breaking a link keeps the graph shaped: names, distinct link sets and mirrored links. */
  lemma BrokenShaped(net: Network, name: string, other: string)
    requires Shaped(net) && name in net.links
    ensures Shaped(Broken(net, name, other))
  {
    var r := Broken(net, name, other);
    BrokenExact(net, name, other);
    forall x | x in r.links
      ensures Distinct(r.links[x])
    {
      WithoutKeepsDistinct(net.links[x], other);
      WithoutKeepsDistinct(net.links[x], name);
      if x == name && x == other {
        WithoutKeepsDistinct(Without(net.links[x], other), name);
      }
    }
  }

  lemma CutShaped(net: Network, e: Edge)
    requires Shaped(net)
    ensures Shaped(Cut(net, e))
  {
    if e.vertex1 in net.links {
      BrokenShaped(net, e.vertex1, e.vertex2);
    }
  }

  // `getConnectedComponents`.

  /** Strings are truthy unless empty: `process` drops an empty name unvisited. */
  predicate Truthy(name: string)
  {
    name != ""
  }

  /** The links of `s` not in `seen`, in order. */
  function Unseen(s: seq<string>, seen: set<string>): (r: seq<string>)
    ensures forall y :: y in r <==> y in s && y !in seen
  {
    if s == [] then [] else (if s[0] in seen then [] else [s[0]]) + Unseen(s[1..], seen)
  }

  /** The callback: the name joins the set, and its component's links not in the set are queued. */
  function Visit(links: map<string, seq<string>>): (set<string>, string) -> (set<string>, seq<string>)
  {
    (seen: set<string>, name: string) => (seen + {name}, Unseen(LinksOf(links, name), seen + {name}))
  }

  /** The set `getConnectedComponents` returns within `fuel` shifts, or None when they run out. */
  function Reached(links: map<string, seq<string>>, name: string, fuel: nat): Option<set<string>>
  {
    var d := DrainFifo(LinksOf(links, name), {}, Visit(links), Truthy, fuel);
    if d.pending == [] then Some(d.state) else None
  }

  /** No truthy link of a member of `s` leads out of `s`. */
  ghost predicate Closed(links: map<string, seq<string>>, s: set<string>)
  {
    forall x, y :: x in s && y in LinksOf(links, x) && Truthy(y) ==> y in s
  }

  /** Every truthy link of a seen name is seen or still queued. */
  ghost predicate Covered(links: map<string, seq<string>>, pending: seq<string>, seen: set<string>)
  {
    forall x, y :: x in seen && y in LinksOf(links, x) && Truthy(y) ==> y in seen || y in pending
  }

  /** A drain that empties the queue ends closed, holding what it started with and every truthy queued name. */
  lemma {:induction false} DrainCloses(links: map<string, seq<string>>, pending: seq<string>, seen: set<string>, fuel: nat)
    requires Covered(links, pending, seen)
    ensures var d := DrainFifo(pending, seen, Visit(links), Truthy, fuel);
      d.pending == [] ==> Closed(links, d.state) && seen <= d.state && forall y :: y in pending && Truthy(y) ==> y in d.state
    decreases fuel
  {
    if pending != [] && fuel > 0 {
      var x := Front(pending);
      if Truthy(x) {
        var step := Visit(links)(seen, x);
        assert step == (seen + {x}, Unseen(LinksOf(links, x), seen + {x}));
        var rest := Behind(pending) + step.1;
        VisitCovers(links, pending, seen);
        DrainCloses(links, rest, step.0, fuel - 1);
        assert pending == [x] + Behind(pending);
      } else {
        assert pending == [x] + Behind(pending);
        DrainCloses(links, Behind(pending), seen, fuel - 1);
      }
    }
  }

  /** Visiting the front name keeps every truthy link of a seen name seen or queued. */
  lemma VisitCovers(links: map<string, seq<string>>, pending: seq<string>, seen: set<string>)
    requires pending != [] && Covered(links, pending, seen)
    ensures var x := Front(pending);
      Covered(links, Behind(pending) + Unseen(LinksOf(links, x), seen + {x}), seen + {x})
  {
    var x := Front(pending);
    var now := seen + {x};
    var rest := Behind(pending) + Unseen(LinksOf(links, x), now);
    forall z, y | z in now && y in LinksOf(links, z) && Truthy(y)
      ensures y in now || y in rest
    {
      if z != x && y !in now {
        assert pending == [x] + Behind(pending);
        assert y in Behind(pending);
      }
    }
  }

  /** A drain never leaves a closed set that holds what it started with and the truthy queued names. */
  lemma {:induction false} DrainWithin(links: map<string, seq<string>>, pending: seq<string>, seen: set<string>, t: set<string>, fuel: nat)
    requires Closed(links, t) && seen <= t && forall y :: y in pending && Truthy(y) ==> y in t
    ensures DrainFifo(pending, seen, Visit(links), Truthy, fuel).state <= t
    decreases fuel
  {
    if pending != [] && fuel > 0 {
      var x := Front(pending);
      if Truthy(x) {
        var step := Visit(links)(seen, x);
        DrainWithin(links, Behind(pending) + step.1, step.0, t, fuel - 1);
      } else {
        DrainWithin(links, Behind(pending), seen, t, fuel - 1);
      }
    }
  }

  /**
   * The connected components are the least set holding the component's truthy links and closed
   * under truthy links: exactly the names reachable from it through one link or more.
   */
  lemma ReachedExactly(links: map<string, seq<string>>, name: string, fuel: nat, t: set<string>)
    ensures var r := Reached(links, name, fuel);
      r.Some? ==> Closed(links, r.value) && forall y :: y in LinksOf(links, name) && Truthy(y) ==> y in r.value
    ensures var r := Reached(links, name, fuel);
      r.Some? && Closed(links, t) && (forall y :: y in LinksOf(links, name) && Truthy(y) ==> y in t) ==> r.value <= t
  {
    DrainCloses(links, LinksOf(links, name), {}, fuel);
    if Closed(links, t) && (forall y :: y in LinksOf(links, name) && Truthy(y) ==> y in t) {
      DrainWithin(links, LinksOf(links, name), {}, t, fuel);
    }
  }

  /** In a mirrored graph a truthy component with a truthy link is among its own connected components. */
  lemma ReachedHasSelf(links: map<string, seq<string>>, name: string, fuel: nat, y: string)
    requires Symmetric(links) && Truthy(name) && y in LinksOf(links, name) && Truthy(y)
    ensures var r := Reached(links, name, fuel); r.Some? ==> name in r.value
  {
    ReachedExactly(links, name, fuel, {});
    assert name in LinksOf(links, y);
  }

  /** In a mirrored graph every connected component is a component of the graph. */
  lemma ReachedInGraph(links: map<string, seq<string>>, name: string, fuel: nat)
    requires Symmetric(links)
    ensures var r := Reached(links, name, fuel); r.Some? ==> r.value <= links.Keys
  {
    assert Closed(links, links.Keys) by {
      forall x, y | x in links.Keys && y in LinksOf(links, x) && Truthy(y)
        ensures y in links.Keys
      {
        assert x in LinksOf(links, y);
      }
    }
    forall y | y in LinksOf(links, name)
      ensures y in links.Keys
    {
      assert name in LinksOf(links, y);
    }
    ReachedExactly(links, name, fuel, links.Keys);
  }

  // Part 1's search over the candidate edges.

  /** The connected components of `nodes[0]` in a fresh graph with the three edges cut, in order. */
  function CutReach(net: Network, e1: Edge, e2: Edge, e3: Edge, fuel: nat): Option<set<string>>
  {
    var cut := Cut(Cut(Cut(net, e1), e2), e3);
    // An empty graph has no `nodes[0]`; candidates drawn from its edges rule that out.
    if cut.order == [] then None else Reached(cut.links, cut.order[0], fuel)
  }

  /** `networkSize * (nComponents - networkSize)`. */
  function Sides(size: nat, total: nat): int
  {
    size * (total - size)
  }

  /** The innermost loop, over `edge3` from index `k` of the candidates. */
  function SearchK(net: Network, cands: seq<Edge>, fuel: nat, i: nat, j: nat, k: nat): Outcome
    requires i < |cands| && 1 <= j < |cands| && 2 <= k <= |cands|
    decreases |cands| - i, |cands| - j + 1, |cands| - k + 1
  {
    if k == |cands| then SearchJ(net, cands, fuel, i, j + 1)
    else if cands[i] == cands[k] || cands[j] == cands[k] then SearchK(net, cands, fuel, i, j, k + 1)
    else
      match CutReach(net, cands[i], cands[j], cands[k], fuel)
      case None => OutOfFuel
      case Some(s) =>
        if |s| < |net.order| then Answer(Sides(|s|, |net.order|))
        else SearchK(net, cands, fuel, i, j, k + 1)
  }

  /** The middle loop, over `edge2` from index `j`. */
  function SearchJ(net: Network, cands: seq<Edge>, fuel: nat, i: nat, j: nat): Outcome
    requires i < |cands| && 1 <= j <= |cands|
    decreases |cands| - i, |cands| - j + 1, |cands| + 2
  {
    if j == |cands| then SearchI(net, cands, fuel, i + 1)
    else if cands[i] == cands[j] then SearchJ(net, cands, fuel, i, j + 1)
    else SearchK(net, cands, fuel, i, j, 2)
  }

  /** The outer loop, over `edge1` from index `i`. */
  function SearchI(net: Network, cands: seq<Edge>, fuel: nat, i: nat): Outcome
    requires i <= |cands|
    decreases |cands| - i + 1, 0, 0
  {
    if i == |cands| then NoCut else SearchJ(net, cands, fuel, i, 1)
  }

  /** Indices the three loops visit. */
  predicate Tried(cands: seq<Edge>, a: int, b: int, c: int)
  {
    0 <= a < |cands| && 1 <= b < |cands| && 2 <= c < |cands|
  }

  /** `(a, b, c)` is `(i, j, k)` or comes after it in the loops' order. */
  predicate After(a: int, b: int, c: int, i: int, j: int, k: int)
  {
    a > i || (a == i && (b > j || (b == j && c >= k)))
  }

  /** Cutting the three edges leaves `nodes[0]` reaching fewer names than the graph holds, and `value` is the product of the sides. */
  predicate Splits(net: Network, e1: Edge, e2: Edge, e3: Edge, fuel: nat, value: int)
  {
    var r := CutReach(net, e1, e2, e3, fuel);
    r.Some? && |r.value| < |net.order| && value == Sides(|r.value|, |net.order|)
  }

  /** The triple is skipped as repeating an edge, or cutting it leaves every name reached. */
  predicate Holds(net: Network, e1: Edge, e2: Edge, e3: Edge, fuel: nat)
  {
    e1 == e2 || e1 == e3 || e2 == e3 ||
    (var r := CutReach(net, e1, e2, e3, fuel); r.Some? && |r.value| >= |net.order|)
  }

  /** An answer from the innermost loop comes from a triple of the loops that splits the graph. */
  lemma {:induction false} SearchKAnswer(net: Network, cands: seq<Edge>, fuel: nat, i: nat, j: nat, k: nat)
    requires i < |cands| && 1 <= j < |cands| && 2 <= k <= |cands|
    ensures var r := SearchK(net, cands, fuel, i, j, k);
      r.Answer? ==> exists a, b, c :: Tried(cands, a, b, c) && Splits(net, cands[a], cands[b], cands[c], fuel, r.value)
    decreases |cands| - i, |cands| - j + 1, |cands| - k + 1
  {
    if k == |cands| {
      SearchJAnswer(net, cands, fuel, i, j + 1);
    } else if cands[i] == cands[k] || cands[j] == cands[k] {
      SearchKAnswer(net, cands, fuel, i, j, k + 1);
    } else {
      var r := CutReach(net, cands[i], cands[j], cands[k], fuel);
      if r.Some? {
        if |r.value| < |net.order| {
          assert Tried(cands, i, j, k) && Splits(net, cands[i], cands[j], cands[k], fuel, SearchK(net, cands, fuel, i, j, k).value);
        } else {
          SearchKAnswer(net, cands, fuel, i, j, k + 1);
        }
      }
    }
  }

  lemma {:induction false} SearchJAnswer(net: Network, cands: seq<Edge>, fuel: nat, i: nat, j: nat)
    requires i < |cands| && 1 <= j <= |cands|
    ensures var r := SearchJ(net, cands, fuel, i, j);
      r.Answer? ==> exists a, b, c :: Tried(cands, a, b, c) && Splits(net, cands[a], cands[b], cands[c], fuel, r.value)
    decreases |cands| - i, |cands| - j + 1, |cands| + 2
  {
    if j == |cands| {
      SearchIAnswer(net, cands, fuel, i + 1);
    } else if cands[i] == cands[j] {
      SearchJAnswer(net, cands, fuel, i, j + 1);
    } else {
      SearchKAnswer(net, cands, fuel, i, j, 2);
    }
  }

  /** An answer from the loops comes from a triple they try that splits the graph. */
  lemma {:induction false} SearchIAnswer(net: Network, cands: seq<Edge>, fuel: nat, i: nat)
    requires i <= |cands|
    ensures var r := SearchI(net, cands, fuel, i);
      r.Answer? ==> exists a, b, c :: Tried(cands, a, b, c) && Splits(net, cands[a], cands[b], cands[c], fuel, r.value)
    decreases |cands| - i + 1, 0, 0
  {
    if i < |cands| {
      SearchJAnswer(net, cands, fuel, i, 1);
    }
  }

  /** No cut from the innermost loop on: every later triple repeats an edge or leaves the graph whole. */
  lemma {:induction false} SearchKNoCut(net: Network, cands: seq<Edge>, fuel: nat, i: nat, j: nat, k: nat)
    requires i < |cands| && 1 <= j < |cands| && 2 <= k <= |cands|
    requires SearchK(net, cands, fuel, i, j, k) == NoCut
    ensures forall a, b, c :: Tried(cands, a, b, c) && After(a, b, c, i, j, k) ==> Holds(net, cands[a], cands[b], cands[c], fuel)
    decreases |cands| - i, |cands| - j + 1, |cands| - k + 1
  {
    if k == |cands| {
      SearchJNoCut(net, cands, fuel, i, j + 1);
      assert forall a, b, c :: Tried(cands, a, b, c) && After(a, b, c, i, j, k) ==> After(a, b, c, i, j + 1, 0);
    } else {
      if !(cands[i] == cands[k] || cands[j] == cands[k]) {
        var r := CutReach(net, cands[i], cands[j], cands[k], fuel);
        assert r.Some? && |r.value| >= |net.order|;
      }
      assert Holds(net, cands[i], cands[j], cands[k], fuel);
      SearchKNoCut(net, cands, fuel, i, j, k + 1);
      forall a, b, c | Tried(cands, a, b, c) && After(a, b, c, i, j, k)
        ensures Holds(net, cands[a], cands[b], cands[c], fuel)
      {
        if a != i || b != j || c != k {
          assert After(a, b, c, i, j, k + 1);
        }
      }
    }
  }

  lemma {:induction false} SearchJNoCut(net: Network, cands: seq<Edge>, fuel: nat, i: nat, j: nat)
    requires i < |cands| && 1 <= j <= |cands|
    requires SearchJ(net, cands, fuel, i, j) == NoCut
    ensures forall a, b, c :: Tried(cands, a, b, c) && After(a, b, c, i, j, 0) ==> Holds(net, cands[a], cands[b], cands[c], fuel)
    decreases |cands| - i, |cands| - j + 1, |cands| + 2
  {
    if j == |cands| {
      SearchINoCut(net, cands, fuel, i + 1);
      assert forall a, b, c :: Tried(cands, a, b, c) && After(a, b, c, i, j, 0) ==> a >= i + 1;
    } else if cands[i] == cands[j] {
      SearchJNoCut(net, cands, fuel, i, j + 1);
      forall a, b, c | Tried(cands, a, b, c) && After(a, b, c, i, j, 0)
        ensures Holds(net, cands[a], cands[b], cands[c], fuel)
      {
        if a != i || b != j {
          assert After(a, b, c, i, j + 1, 0);
        }
      }
    } else {
      SearchKNoCut(net, cands, fuel, i, j, 2);
      assert forall a, b, c :: Tried(cands, a, b, c) && After(a, b, c, i, j, 0) ==> After(a, b, c, i, j, 2);
    }
  }

  /** No cut from the loops: every triple they try repeats an edge or leaves the graph whole. */
  lemma {:induction false} SearchINoCut(net: Network, cands: seq<Edge>, fuel: nat, i: nat)
    requires i <= |cands|
    requires SearchI(net, cands, fuel, i) == NoCut
    ensures forall a, b, c :: Tried(cands, a, b, c) && a >= i ==> Holds(net, cands[a], cands[b], cands[c], fuel)
    decreases |cands| - i + 1, 0, 0
  {
    if i < |cands| {
      SearchJNoCut(net, cands, fuel, i, 1);
      assert forall a, b, c :: Tried(cands, a, b, c) && a >= i ==> After(a, b, c, i, 1, 0);
    }
  }

  lemma SubsetSmaller(a: set<string>, b: set<string>)
    requires a <= b
    ensures |a| <= |b|
    ensures |a| < |b| <==> exists x :: x in b && x !in a
  {
    assert b == a + (b - a);
    if exists x :: x in b && x !in a {
      var x :| x in b && x !in a;
      assert x in b - a;
    } else {
      assert b - a == {};
    }
  }

  /** A cut splits the graph exactly when some component is left out of what `nodes[0]` reaches. */
  lemma CutSplits(net: Network, e1: Edge, e2: Edge, e3: Edge, fuel: nat)
    requires Shaped(net)
    ensures var r := CutReach(net, e1, e2, e3, fuel);
      r.Some? ==> |r.value| <= |net.order| && (|r.value| < |net.order| <==> exists x :: x in net.order && x !in r.value)
  {
    var cut := Cut(Cut(Cut(net, e1), e2), e3);
    CutShaped(net, e1);
    CutShaped(Cut(net, e1), e2);
    CutShaped(Cut(Cut(net, e1), e2), e3);
    if cut.order != [] {
      ReachedInGraph(cut.links, cut.order[0], fuel);
    }
    DistinctCardinality(net.order);
    assert cut.links.Keys == set x | x in net.order;
    var r := CutReach(net, e1, e2, e3, fuel);
    if r.Some? {
      SubsetSmaller(r.value, cut.links.Keys);
    }
  }

  // The classes.

  /** The graph `buildGraph` builds, with its components' link sets; components are identified by name. */
  class Graph {
    var order: seq<string>
    var links: map<string, seq<string>>
    var edges: map<string, Edge>

    function Current(): Network
      reads this
    {
      Network(order, links, edges)
    }

    /** `buildGraph`: each line in turn. */
    constructor (lines: seq<Line>)
      ensures Current() == Built(lines)
    {
      order, links, edges := [], map[], map[];
      new;
      for i := 0 to |lines|
        invariant Current() == Built(lines[..i])
      {
        AddLine(lines[i]);
        assert lines[..i + 1][..i] == lines[..i];
      }
      assert lines[..|lines|] == lines;
    }

    /** One line: its component, found or made and added, then each of its links in order. */
    method AddLine(line: Line)
      modifies this
      ensures Current() == WithLine(old(Current()), line)
    {
      if line.name !in links {
        order, links := order + [line.name], links[line.name := []];
      }
      ghost var start := Current();
      for i := 0 to |line.linked|
        invariant line.name in links
        invariant Current() == LinkedAll(start, line.name, line.linked[..i])
      {
        AddLink(line.name, line.linked[i]);
        assert line.linked[..i + 1][..i] == line.linked[..i];
      }
      assert line.linked[..|line.linked|] == line.linked;
    }

    /** The body of `links.forEach`: link both ways, add the neighbour, then add the edge. */
    method AddLink(name: string, t: string)
      requires name in links
      modifies this
      ensures Current() == Linked(old(Current()), name, t)
    {
      var known := t in links;
      Link(name, t);
      if !known {
        // The new `Component`: it holds only the link made next when `graph.add` adds it.
        order, links := order + [t], links[t := []];
      }
      Link(t, name);
      var e := Edge(EdgeId(name, t), name, t);
      if e.id !in edges {
        edges := edges[e.id := e];
      }
    }

    /** `link`: the name joins the component's link set. */
    method Link(name: string, other: string)
      requires name in links
      modifies this
      ensures links == old(links)[name := AddNew(old(links)[name], other)]
      ensures order == old(order) && edges == old(edges)
    {
      links := links[name := AddNew(links[name], other)];
    }

    /** `breakLink`: the link goes from the component, and back from the other one when the graph holds it. */
    method BreakLink(name: string, other: string)
      requires name in links
      modifies this
      ensures Current() == Broken(old(Current()), name, other)
    {
      links := links[name := Without(links[name], other)];
      if other in links {
        links := links[other := Without(links[other], name)];
      }
    }

    /** `testGraph.get(edge.vertex1.name)?.breakLink(edge.vertex2.name)`. */
    method BreakEdge(e: Edge)
      modifies this
      ensures Current() == Cut(old(Current()), e)
    {
      if e.vertex1 in links {
        BreakLink(e.vertex1, e.vertex2);
      }
    }

    /**
     * `getConnectedComponents` of component `name`, within `fuel` shifts of the queue: the least
     * set holding its truthy links and closed under truthy links, or None when the shifts run out.
     */
    method ConnectedComponents(name: string, fuel: nat) returns (reached: Option<set<string>>)
      ensures reached == Reached(links, name, fuel)
      ensures reached.Some? ==> Closed(links, reached.value)
      ensures reached.Some? ==> forall y :: y in LinksOf(links, name) && Truthy(y) ==> y in reached.value
    {
      var queue := new Queue<string>(Truthy);
      var mine := LinksOf(links, name);
      for i := 0 to |mine|
        invariant queue.queue == mine[..i] && queue.truthy == Truthy
      {
        queue.Enqueue(mine[i]);
        assert mine[..i + 1] == mine[..i] + [mine[i]];
      }
      assert mine[..|mine|] == mine;
      var seen, _ := queue.Process(Visit(links), {}, fuel);
      ReachedExactly(links, name, fuel, {});
      if queue.queue != [] {
        return None;
      }
      return Some(seen);
    }
  }

  /** The body of the innermost loop: a fresh graph, the three edges cut, and the search from `nodes[0]`. */
  method TryCut(lines: seq<Line>, e1: Edge, e2: Edge, e3: Edge, fuel: nat) returns (reached: Option<set<string>>)
    ensures reached == CutReach(Built(lines), e1, e2, e3, fuel)
  {
    var test := new Graph(lines);
    test.BreakEdge(e1);
    test.BreakEdge(e2);
    test.BreakEdge(e3);
    if test.order == [] {
      return None;
    }
    reached := test.ConnectedComponents(test.order[0], fuel);
  }

  /**
   * Part 1 after the sampling: `ranked` holds the edge ids by traversal count; the three loops
   * cut each triple of distinct candidate edges in a fresh graph and stop at the first that
   * leaves `nodes[0]` short of the whole graph, answering the product of the two sides.
   */
  method Part1(lines: seq<Line>, ranked: seq<string>, fuel: nat) returns (answer: Outcome)
    requires forall i :: 0 <= i < |ranked| ==> ranked[i] in Built(lines).edges
    ensures var net := Built(lines);
      answer == SearchI(net, Lookup(ranked, net.edges), fuel, 0)
    ensures var net, cands := Built(lines), Lookup(ranked, Built(lines).edges);
      answer.Answer? ==> exists a, b, c :: Tried(cands, a, b, c) && Splits(net, cands[a], cands[b], cands[c], fuel, answer.value)
    ensures var net, cands := Built(lines), Lookup(ranked, Built(lines).edges);
      answer == NoCut ==> forall a, b, c :: Tried(cands, a, b, c) ==> Holds(net, cands[a], cands[b], cands[c], fuel)
  {
    var graph := new Graph(lines);
    var cands := Lookup(ranked, graph.edges);
    answer := TryTriples(lines, cands, |graph.order|, fuel);
    SearchIAnswer(graph.Current(), cands, fuel, 0);
    if answer == NoCut {
      SearchINoCut(graph.Current(), cands, fuel, 0);
    }
  }

  /** The three loops over the candidate edges, with `nComponents` from the first graph. */
  method TryTriples(lines: seq<Line>, cands: seq<Edge>, n: nat, fuel: nat) returns (answer: Outcome)
    requires n == |Built(lines).order|
    ensures answer == SearchI(Built(lines), cands, fuel, 0)
  {
    ghost var net := Built(lines);
    for i := 0 to |cands|
      invariant SearchI(net, cands, fuel, 0) == SearchI(net, cands, fuel, i)
    {
      for j := 1 to |cands|
        invariant SearchI(net, cands, fuel, 0) == SearchJ(net, cands, fuel, i, j)
      {
        if cands[i] == cands[j] {
          continue;
        }
        for k := 2 to |cands|
          invariant SearchI(net, cands, fuel, 0) == SearchK(net, cands, fuel, i, j, k)
        {
          if cands[i] == cands[k] || cands[j] == cands[k] {
            continue;
          }
          var reached := TryCut(lines, cands[i], cands[j], cands[k], fuel);
          if reached.None? {
            assert SearchK(net, cands, fuel, i, j, k) == OutOfFuel;
            return OutOfFuel;
          }
          var size := |reached.value|;
          if size < n {
            assert SearchK(net, cands, fuel, i, j, k) == Answer(Sides(size, n));
            return Answer(Sides(size, n));
          }
        }
      }
    }
    return NoCut;
  }
}
