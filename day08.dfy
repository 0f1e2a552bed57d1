/**
 * Day 8: a network of nodes, each with a left and a right link, walked by repeating a string
 * of 'L'/'R' instructions. Part 1 counts the steps from AAA to ZZZ; part 2 follows every node
 * ending in 'A' at once and records, per walker, the cycle its (instruction, node) states fall
 * into and where on that cycle it stands on a node ending in 'Z'.
 */
module Day08 {
  import opened Wrappers
  import Decimal
  import CustomSet

  datatype Node = Node(id: string, left: string, right: string)

  /** The nodes, keyed by id: the `itemMap` of the `Graph` custom set. */
  type Graph = map<string, Node>

  predicate IsStart(id: string)
  {
    |id| > 0 && id[|id| - 1] == 'A'
  }

  predicate IsEnd(id: string)
  {
    |id| > 0 && id[|id| - 1] == 'Z'
  }

  /** Every node is stored under its own id. */
  predicate Keyed(graph: Graph)
  {
    forall k :: k in graph ==> graph[k].id == k
  }

  /** `node.go(direction)`: follow the link, or stay when the link or the direction is unknown. */
  function Go(graph: Graph, node: Node, direction: Option<char>): (r: Node)
    ensures r == node || r in graph.Values
  {
    match direction
    case Some('L') => if node.left in graph then graph[node.left] else node
    case Some('R') => if node.right in graph then graph[node.right] else node
    case _ => node
  }

  /** A walk that starts on a node of the graph stays on nodes of the graph. */
  lemma GoStaysInGraph(graph: Graph, node: Node, direction: Option<char>)
    requires node in graph.Values
    ensures Go(graph, node, direction) in graph.Values
    ensures direction != Some('L') && direction != Some('R') ==> Go(graph, node, direction) == node
  {
  }

  /** The node a line describes: its first three words, missing ones read as `''`. */
  function LineNode(words: seq<string>): Node
  {
    Node(if |words| > 0 then words[0] else "", if |words| > 1 then words[1] else "",
      if |words| > 2 then words[2] else "")
  }

  /** The graph built by adding the nodes in order: the first node with an id is the one kept. */
  function FirstDefs(nodes: seq<Node>): (g: Graph)
    ensures Keyed(g) && forall k :: k in g <==> exists i :: 0 <= i < |nodes| && nodes[i].id == k
    decreases |nodes|
  {
    if nodes == [] then map[]
    else
      var g := FirstDefs(nodes[..|nodes| - 1]);
      var n := nodes[|nodes| - 1];
      assert forall i :: 0 <= i < |nodes| - 1 ==> nodes[..|nodes| - 1][i] == nodes[i];
      if n.id in g then g else g[n.id := n]
  }

  /** Every id is bound to its first definition; later lines with the same id are ignored. */
  lemma {:induction false} FirstDefsKeepsFirst(nodes: seq<Node>, i: nat)
    requires i < |nodes| && forall j :: 0 <= j < i ==> nodes[j].id != nodes[i].id
    ensures FirstDefs(nodes)[nodes[i].id] == nodes[i]
    decreases |nodes|
  {
    var init := nodes[..|nodes| - 1];
    if i < |init| {
      FirstDefsKeepsFirst(init, i);
    } else {
      assert forall j :: 0 <= j < |init| ==> init[j].id != nodes[i].id;
    }
  }

  /**
   * `parseInput`: the first non-empty line holds the instructions and every further non-empty
   * line, given as its words, adds a node to the graph.
   */
  method ParseInput(instructionLine: string, lines: seq<seq<string>>)
    returns (instructions: string, graph: CustomSet.CustomSet<Node, string>)
    ensures fresh(graph) && graph.Valid() && instructions == instructionLine
    ensures graph.items == FirstDefs(seq(|lines|, i requires 0 <= i < |lines| => LineNode(lines[i])))
  {
    var nodes := seq(|lines|, i requires 0 <= i < |lines| => LineNode(lines[i]));
    graph := new CustomSet.CustomSet<Node, string>((n: Node) => n.id);
    var i := 0;
    while i < |lines|
      invariant 0 <= i <= |lines| && graph.Valid() && graph.getKey == (n: Node) => n.id
      invariant graph.items == FirstDefs(nodes[..i])
      decreases |lines| - i
    {
      assert nodes[..i + 1][..i] == nodes[..i];
      graph.Add(LineNode(lines[i]));
      i := i + 1;
    }
    assert nodes[..i] == nodes;
    instructions := instructionLine;
  }

  /** `instructions[iInstruction]`, `undefined` past the end. */
  function Direction(instructions: string, i: nat): Option<char>
  {
    if i < |instructions| then Some(instructions[i]) else None
  }

  /**
   * `(iInstruction + 1) % instructions.length`. With no instructions the source index becomes
   * NaN and no direction is ever read; the index then stays where it is.
   */
  function NextIndex(instructions: string, i: nat): (j: nat)
    ensures |instructions| > 0 ==> j < |instructions|
  {
    if |instructions| == 0 then i else (i + 1) % |instructions|
  }

  datatype Position = Position(node: Node, index: nat)

  /** Where a walk from `p` stands after `n` steps. */
  function Walk(graph: Graph, instructions: string, p: Position, n: nat): Position
    decreases n
  {
    if n == 0 then p
    else
      var q := Walk(graph, instructions, p, n - 1);
      Position(Go(graph, q.node, Direction(instructions, q.index)), NextIndex(instructions, q.index))
  }

  /** Every step the instruction index advances by one, wrapping around at the end. */
  lemma {:induction false} WalkIndex(graph: Graph, instructions: string, node: Node, n: nat)
    requires |instructions| > 0
    ensures Walk(graph, instructions, Position(node, 0), n).index == n % |instructions|
    decreases n
  {
    if n > 0 {
      WalkIndex(graph, instructions, node, n - 1);
      ModSucc(n - 1, |instructions|);
    }
  }

  lemma ModSucc(a: nat, m: nat)
    requires m > 0
    ensures (a % m + 1) % m == (a + 1) % m
  {
    var q, r := a / m, a % m;
    if r + 1 < m {
      ModUnique(a + 1, m, q, r + 1);
    } else {
      ModUnique(a + 1, m, q + 1, 0);
    }
  }

  /** The quotient and remainder of a division are the only ones that fit. */
  lemma ModUnique(a: int, m: int, q: int, r: int)
    requires m > 0 && 0 <= r < m && a == q * m + r
    ensures a % m == r
  {
    var q0, r0 := a / m, a % m;
    assert (q0 - q) * m == r - r0;
    MulBound(q0 - q, m);
  }

  /** A non-zero multiple of `m` is at least `m` away from 0. */
  lemma {:induction false} MulBound(d: int, m: int)
    requires m > 0
    ensures d >= 1 ==> d * m >= m
    ensures d <= -1 ==> d * m <= -m
    decreases if d < 0 then -d else d
  {
    if d > 1 {
      MulBound(d - 1, m);
      assert d * m == (d - 1) * m + m;
    } else if d < -1 {
      MulBound(d + 1, m);
      assert d * m == (d + 1) * m - m;
    }
  }

  /**
   * `part1`: the number of steps from AAA to ZZZ, or 0 when either is missing. The source loops
   * forever when ZZZ is never reached; here the walk gives up after `fuel` steps with `None`.
   */
  method Part1(instructions: string, graph: Graph, fuel: nat) returns (r: Option<nat>)
    ensures "AAA" !in graph || "ZZZ" !in graph ==> r == Some(0)
    ensures "AAA" in graph && "ZZZ" in graph && r.Some? ==>
      var start := Position(graph["AAA"], 0);
      Walk(graph, instructions, start, r.value).node == graph["ZZZ"]
      && forall m :: 0 <= m < r.value ==> Walk(graph, instructions, start, m).node != graph["ZZZ"]
    ensures "AAA" in graph && "ZZZ" in graph && r.None? ==>
      forall m :: 0 <= m <= fuel ==> Walk(graph, instructions, Position(graph["AAA"], 0), m).node != graph["ZZZ"]
  {
    if "AAA" !in graph || "ZZZ" !in graph {
      return Some(0);
    }
    var start := Position(graph["AAA"], 0);
    var currentNode := graph["AAA"];
    var endNode := graph["ZZZ"];
    var nSteps := 0;
    var iInstruction := 0;
    while currentNode != endNode
      invariant nSteps <= fuel
      invariant Walk(graph, instructions, start, nSteps) == Position(currentNode, iInstruction)
      invariant forall m :: 0 <= m < nSteps ==> Walk(graph, instructions, start, m).node != endNode
      decreases fuel - nSteps
    {
      if nSteps == fuel {
        return None;
      }
      var direction := Direction(instructions, iInstruction);
      currentNode := Go(graph, currentNode, direction);
      nSteps := nSteps + 1;
      iInstruction := NextIndex(instructions, iInstruction);
    }
    return Some(nSteps);
  }

  /** `getStateKey`: the instruction index and the node id joined by ':'. */
  function StateKey(iInstruction: nat, id: string): string
  {
    Decimal.NatToString(iInstruction) + [':'] + id
  }

  /** Different states have different keys, so the key identifies the state. */
  lemma StateKeyInjective(i1: nat, id1: string, i2: nat, id2: string)
    ensures StateKey(i1, id1) == StateKey(i2, id2) ==> i1 == i2 && id1 == id2
  {
    Decimal.DigitsOfNatToString(i1);
    Decimal.DigitsOfNatToString(i2);
    Decimal.JoinInjective(Decimal.NatToString(i1), id1, Decimal.NatToString(i2), id2, ':');
    Decimal.NatToStringInjective(i1, i2);
  }

  /** A `CycleDefinition`; `endOffset` is absent until the walker is seen on an end node. */
  datatype Cycle = Cycle(cycleStart: int, cycleLength: int, endOffset: Option<int>)

  /** JavaScript's `%`: the remainder takes the sign of the dividend. */
  function TruncRem(a: int, b: int): (r: int)
    requires b != 0
    ensures a >= 0 ==> 0 <= r < if b > 0 then b else -b
  {
    var m := if b > 0 then b else -b;
    if a >= 0 then a % m else -((-a) % m)
  }

  /** For a positive divisor the JavaScript remainder is 0 exactly when the divisor divides. */
  lemma TruncRemZero(a: int, b: int)
    requires b > 0
    ensures TruncRem(a, b) == 0 <==> a % b == 0
  {
    if a < 0 {
      if (-a) % b == 0 {
        ModUnique(a, b, -((-a) / b), 0);
      }
      if a % b == 0 {
        ModUnique(-a, b, -(a / b), 0);
      }
    }
  }

  /** One walker: its node, the step at which it was last in each state, and its cycle so far. */
  datatype Walker = Walker(node: Node, stepsToState: map<(nat, string), int>, cycle: Option<Cycle>)

  /**
   * The `currentNodes.map` callback for one walker at step `nSteps`: move, and if the new state
   * was seen before, either record the cycle (first time) or refresh its end offset when
   * leaving an end node.
   */
  function Advance(graph: Graph, direction: Option<char>, iInstruction: nat, nSteps: int, w: Walker): Walker
    requires forall k :: k in w.stepsToState ==> w.stepsToState[k] <= nSteps
    requires w.cycle.Some? ==> w.cycle.value.cycleLength >= 1
  {
    var nextNode := Go(graph, w.node, direction);
    var key := (iInstruction, nextNode.id);
    var cycle :=
      if key !in w.stepsToState then w.cycle
      else if w.cycle.Some? then
        var c := w.cycle.value;
        if IsEnd(w.node.id) then Some(c.(endOffset := Some(TruncRem(nSteps - c.cycleStart - c.cycleLength, c.cycleLength))))
        else w.cycle
      else
        var cycleLength := nSteps + 1 - w.stepsToState[key];
        var cycleStart := nSteps - cycleLength;
        Some(Cycle(cycleStart, cycleLength, if IsEnd(w.node.id) then Some(nSteps - cycleStart - cycleLength) else None));
    Walker(nextNode, w.stepsToState[key := nSteps + 1], cycle)
  }

  /** A walker's recorded steps are all in the past and its cycle, if any, is non-empty. */
  predicate WalkerOk(w: Walker, nSteps: int)
  {
    (forall k :: k in w.stepsToState ==> w.stepsToState[k] <= nSteps)
    && (w.cycle.Some? ==> w.cycle.value.cycleLength >= 1)
  }

  /**
   * One step keeps the walker well formed, records its new state at the next step, and never
   * changes where a cycle once found starts or how long it is.
   */
  lemma AdvanceKeeps(graph: Graph, direction: Option<char>, iInstruction: nat, nSteps: int, w: Walker)
    requires WalkerOk(w, nSteps)
    ensures var w' := Advance(graph, direction, iInstruction, nSteps, w);
      WalkerOk(w', nSteps + 1)
      && w'.node == Go(graph, w.node, direction)
      && w'.stepsToState[(iInstruction, w'.node.id)] == nSteps + 1
      && (w.cycle.Some? ==>
            w'.cycle.Some?
            && w'.cycle.value.cycleStart == w.cycle.value.cycleStart
            && w'.cycle.value.cycleLength == w.cycle.value.cycleLength)
  {
  }

  /** A cycle found for the first time closes on a state seen `cycleLength` steps earlier. */
  lemma FirstCycle(graph: Graph, direction: Option<char>, iInstruction: nat, nSteps: int, w: Walker)
    requires WalkerOk(w, nSteps) && w.cycle.None?
    ensures var w' := Advance(graph, direction, iInstruction, nSteps, w);
      var key := (iInstruction, w'.node.id);
      (w'.cycle.Some? <==> key in w.stepsToState)
      && (w'.cycle.Some? ==>
        w'.cycle.value.cycleLength == nSteps + 1 - w.stepsToState[key]
        && w'.cycle.value.cycleStart + w'.cycle.value.cycleLength == nSteps
        && (w'.cycle.value.endOffset.Some? <==> IsEnd(w.node.id)))
  {
  }

  /** Every walker still lacks a cycle or an end offset: the `while` condition of `part2`. */
  predicate Incomplete(walkers: seq<Walker>)
  {
    exists k :: 0 <= k < |walkers| && (walkers[k].cycle.None? || walkers[k].cycle.value.endOffset.None?)
  }

  datatype Search = Search(walkers: seq<Walker>, nSteps: nat, iInstruction: nat)

  predicate SearchOk(s: Search)
  {
    forall k :: 0 <= k < |s.walkers| ==> WalkerOk(s.walkers[k], s.nSteps)
  }

  /** One round of the `while` loop: every walker advances, then the step and index move on. */
  function Round(graph: Graph, instructions: string, s: Search): (r: Search)
    requires SearchOk(s)
    ensures SearchOk(r) && |r.walkers| == |s.walkers|
  {
    var direction := Direction(instructions, s.iInstruction);
    var walkers := seq(|s.walkers|, k requires 0 <= k < |s.walkers| =>
      Advance(graph, direction, s.iInstruction, s.nSteps, s.walkers[k]));
    assert forall k :: 0 <= k < |walkers| ==> WalkerOk(walkers[k], s.nSteps + 1) by {
      forall k | 0 <= k < |walkers| ensures WalkerOk(walkers[k], s.nSteps + 1) {
        AdvanceKeeps(graph, direction, s.iInstruction, s.nSteps, s.walkers[k]);
      }
    }
    Search(walkers, s.nSteps + 1, NextIndex(instructions, s.iInstruction))
  }

  /** The search after `n` rounds. */
  function Rounds(graph: Graph, instructions: string, s: Search, n: nat): (r: Search)
    requires SearchOk(s)
    ensures SearchOk(r) && |r.walkers| == |s.walkers|
    decreases n
  {
    if n == 0 then s else Round(graph, instructions, Rounds(graph, instructions, s, n - 1))
  }

  /** The nodes whose ids end in 'A', in the graph's order. */
  function StartNodes(nodes: seq<Node>): (r: seq<Node>)
    ensures forall k :: 0 <= k < |r| ==> IsStart(r[k].id) && r[k] in nodes
    decreases |nodes|
  {
    if nodes == [] then []
    else (if IsStart(nodes[0].id) then [nodes[0]] else []) + StartNodes(nodes[1..])
  }

  /** Each walker starts having been in its first state at step 0, with no cycle. */
  function Start(nodes: seq<Node>): (s: Search)
    ensures SearchOk(s)
  {
    var starts := StartNodes(nodes);
    Search(seq(|starts|, k requires 0 <= k < |starts| => Walker(starts[k], map[(0, starts[k].id) := 0], None)), 0, 0)
  }

  /** The error `validateCycleAssumptions` throws for one cycle, if any. */
  function Check(c: Option<Cycle>): Option<string>
  {
    if c.None? then Some("Expected cycle to be defined")
    else if c.value.endOffset.None? then Some("Expected cycle to be complete")
    else if c.value.cycleLength == 0 || TruncRem(c.value.cycleStart + c.value.endOffset.value, c.value.cycleLength) != 0 then
      Some("Cycle assumptions invalid")
    else None
  }

  /** A cycle is complete and lands on an end node a whole number of cycles after step 0. */
  predicate Assumed(c: Option<Cycle>)
  {
    c.Some? && c.value.endOffset.Some? && c.value.cycleLength > 0
    && (c.value.cycleStart + c.value.endOffset.value) % c.value.cycleLength == 0
  }

  /** For cycles of positive length, passing the checks means meeting the assumption. */
  lemma CheckPasses(c: Option<Cycle>)
    requires c.Some? ==> c.value.cycleLength >= 0
    ensures Check(c).None? <==> Assumed(c)
  {
    if c.Some? && c.value.endOffset.Some? && c.value.cycleLength > 0 {
      TruncRemZero(c.value.cycleStart + c.value.endOffset.value, c.value.cycleLength);
    }
  }

  /** `validateCycleAssumptions`, as the error it throws or the cycles in order. */
  function Validate(walkers: seq<Walker>): Result<seq<Cycle>>
    decreases |walkers|
  {
    if walkers == [] then Success([])
    else if Check(walkers[0].cycle).Some? then Failure(Check(walkers[0].cycle).value)
    else
      match Validate(walkers[1..])
      case Failure(e) => Failure(e)
      case Success(rest) => Success([walkers[0].cycle.value] + rest)
  }

  /** Validation succeeds exactly when every cycle passes, and then keeps them all in order. */
  lemma {:induction false} ValidateExactly(walkers: seq<Walker>)
    ensures Validate(walkers).Success? <==> forall k :: 0 <= k < |walkers| ==> Check(walkers[k].cycle).None?
    ensures Validate(walkers).Success? ==>
      var cycles := Validate(walkers).value;
      |cycles| == |walkers| && forall k :: 0 <= k < |cycles| ==> Some(cycles[k]) == walkers[k].cycle
    decreases |walkers|
  {
    if walkers != [] {
      ValidateExactly(walkers[1..]);
      assert forall k :: 1 <= k < |walkers| ==> walkers[1..][k - 1] == walkers[k];
      if Validate(walkers).Success? {
        var cycles := Validate(walkers).value;
        assert forall k :: 1 <= k < |cycles| ==> cycles[k] == Validate(walkers[1..]).value[k - 1];
      }
    }
  }

  /** The cycles of the first `i` walkers, all of which pass the checks. */
  function CycleValues(walkers: seq<Walker>, i: nat): (r: seq<Cycle>)
    requires i <= |walkers| && forall k :: 0 <= k < i ==> Check(walkers[k].cycle).None?
    ensures |r| == i
  {
    seq(i, k requires 0 <= k < i && Check(walkers[k].cycle).None? => walkers[k].cycle.value)
  }

  function Prefixed(p: seq<Cycle>, r: Result<seq<Cycle>>): Result<seq<Cycle>>
  {
    match r
    case Failure(e) => Failure(e)
    case Success(rest) => Success(p + rest)
  }

  /** Once the first `i` cycles have passed, validation is theirs followed by the rest's. */
  lemma {:induction false} ValidatePrefix(walkers: seq<Walker>, i: nat)
    requires i <= |walkers| && forall k :: 0 <= k < i ==> Check(walkers[k].cycle).None?
    ensures Validate(walkers) == Prefixed(CycleValues(walkers, i), Validate(walkers[i..]))
    decreases i
  {
    if i == 0 {
      assert walkers[0..] == walkers;
      match Validate(walkers)
      case Failure(e) =>
      case Success(rest) => assert [] + rest == rest;
    } else {
      ValidatePrefix(walkers, i - 1);
      var c := walkers[i - 1].cycle.value;
      assert walkers[i - 1..][1..] == walkers[i..];
      assert Validate(walkers[i - 1..]) == Prefixed([c], Validate(walkers[i..]));
      assert CycleValues(walkers, i) == CycleValues(walkers, i - 1) + [c];
      match Validate(walkers[i..])
      case Failure(e) =>
      case Success(rest) =>
        assert CycleValues(walkers, i - 1) + ([c] + rest) == CycleValues(walkers, i) + rest;
    }
  }

  /** The loop of `validateCycleAssumptions`, throwing at the first cycle that fails a check. */
  method ValidateCycleAssumptions(walkers: seq<Walker>) returns (r: Result<seq<Cycle>>)
    ensures r == Validate(walkers)
  {
    var validCycles: seq<Cycle> := [];
    var i := 0;
    while i < |walkers|
      invariant 0 <= i <= |walkers| && forall k :: 0 <= k < i ==> Check(walkers[k].cycle).None?
      invariant validCycles == CycleValues(walkers, i)
      decreases |walkers| - i
    {
      var cycle := walkers[i].cycle;
      ValidatePrefix(walkers, i);
      if cycle.None? {
        return Failure("Expected cycle to be defined");
      }
      if cycle.value.endOffset.None? {
        return Failure("Expected cycle to be complete");
      }
      var c := cycle.value;
      if c.cycleLength == 0 || TruncRem(c.cycleStart + c.endOffset.value, c.cycleLength) != 0 {
        return Failure("Cycle assumptions invalid");
      }
      assert CycleValues(walkers, i + 1) == validCycles + [c];
      validCycles := validCycles + [c];
      i := i + 1;
    }
    ValidatePrefix(walkers, i);
    assert walkers[i..] == [];
    assert validCycles + [] == validCycles;
    return Success(validCycles);
  }

  /** The cycle lengths that `part2` combines with `lcm`. */
  function Lengths(cycles: seq<Cycle>): (r: seq<int>)
    ensures |r| == |cycles| && forall k :: 0 <= k < |cycles| ==> r[k] == cycles[k].cycleLength
  {
    seq(|cycles|, k requires 0 <= k < |cycles| => cycles[k].cycleLength)
  }

  /** The search first stops after `n` rounds. */
  predicate Stopped(graph: Graph, instructions: string, nodes: seq<Node>, n: nat)
  {
    !Incomplete(Rounds(graph, instructions, Start(nodes), n).walkers) && Running(graph, instructions, Start(nodes), n)
  }

  /** Every one of the first `n` rounds began with some walker's cycle incomplete. */
  predicate Running(graph: Graph, instructions: string, start: Search, n: nat)
    requires SearchOk(start)
  {
    forall m :: 0 <= m < n ==> Incomplete(Rounds(graph, instructions, start, m).walkers)
  }

  /** The validated cycle lengths, or the validation error. */
  /** What `part2` hands to `lcm`: the cycle lengths, or the validation error. */
  function Finish(walkers: seq<Walker>): Result<seq<int>>
  {
    match Validate(walkers)
    case Failure(e) => Failure(e)
    case Success(cycles) => Success(Lengths(cycles))
  }

  /**
   * For walkers of a search, `part2` gets past validation exactly when every cycle meets the
   * assumption, and then gets one positive length per walker, its cycle's.
   */
  lemma FinishExactly(s: Search)
    requires SearchOk(s)
    ensures Finish(s.walkers).Success? <==> forall k :: 0 <= k < |s.walkers| ==> Assumed(s.walkers[k].cycle)
    ensures Finish(s.walkers).Success? ==>
      var lengths := Finish(s.walkers).value;
      |lengths| == |s.walkers|
      && forall k :: 0 <= k < |lengths| ==> lengths[k] >= 1 && lengths[k] == s.walkers[k].cycle.value.cycleLength
  {
    ValidateExactly(s.walkers);
    forall k | 0 <= k < |s.walkers|
      ensures Check(s.walkers[k].cycle).None? <==> Assumed(s.walkers[k].cycle)
    {
      assert WalkerOk(s.walkers[k], s.nSteps);
      CheckPasses(s.walkers[k].cycle);
    }
  }

  /**
   * `part2` up to the `lcm` fold: the walkers advance round by round until every one has a
   * complete cycle, then the cycles are validated. The source loops forever when some walker
   * never completes; here the search gives up after `fuel` rounds with `None`.
   */
  method Part2(instructions: string, graph: Graph, nodes: seq<Node>, fuel: nat) returns (r: Option<Result<seq<int>>>)
    ensures r.None? ==> Running(graph, instructions, Start(nodes), fuel + 1)
    ensures r.Some? ==>
      exists n :: 0 <= n <= fuel && Stopped(graph, instructions, nodes, n)
        && r.value == Finish(Rounds(graph, instructions, Start(nodes), n).walkers)
  {
    var found, rounds := SearchCycles(instructions, graph, nodes, fuel);
    if found.None? {
      return None;
    }
    var cycles := ValidateCycleAssumptions(found.value.walkers);
    match cycles
    case Failure(e) =>
      r := Some(Failure(e));
    case Success(cs) =>
      r := Some(Success(Lengths(cs)));
  }

  /** The `while` loop of `part2`: rounds of walking until every walker's cycle is complete. */
  method SearchCycles(instructions: string, graph: Graph, nodes: seq<Node>, fuel: nat) returns (found: Option<Search>, rounds: nat)
    ensures found.None? ==> Running(graph, instructions, Start(nodes), fuel + 1)
    ensures found.Some? ==>
      && rounds <= fuel && Stopped(graph, instructions, nodes, rounds)
      && found.value == Rounds(graph, instructions, Start(nodes), rounds)
  {
    var start := Start(nodes);
    var s := start;
    rounds := 0;
    while Incomplete(s.walkers)
      invariant rounds <= fuel && s == Rounds(graph, instructions, start, rounds)
      invariant Running(graph, instructions, start, rounds)
      decreases fuel - rounds
    {
      if rounds == fuel {
        assert Running(graph, instructions, start, rounds + 1);
        return None, rounds;
      }
      assert Running(graph, instructions, start, rounds + 1);
      s := AdvanceAll(graph, instructions, s);
      rounds := rounds + 1;
    }
    return Some(s), rounds;
  }

  method AdvanceAll(graph: Graph, instructions: string, s: Search) returns (s': Search)
    requires SearchOk(s)
    ensures s' == Round(graph, instructions, s)
  {
    var direction := Direction(instructions, s.iInstruction);
    var walkers := s.walkers;
    var iNode := 0;
    while iNode < |walkers|
      invariant 0 <= iNode <= |walkers| && |walkers| == |s.walkers|
      invariant forall k :: 0 <= k < iNode ==> walkers[k] == Advance(graph, direction, s.iInstruction, s.nSteps, s.walkers[k])
      invariant forall k :: iNode <= k < |walkers| ==> walkers[k] == s.walkers[k]
      decreases |walkers| - iNode
    {
      walkers := walkers[iNode := Advance(graph, direction, s.iInstruction, s.nSteps, walkers[iNode])];
      iNode := iNode + 1;
    }
    s' := Search(walkers, s.nSteps + 1, NextIndex(instructions, s.iInstruction));
  }
}
