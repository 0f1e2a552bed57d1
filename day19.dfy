/**
 * Day 19: parts rated on four categories (x, m, a, s) walk through named workflows of
 * comparison rules until one sends them to 'A' (accepted) or 'R' (rejected). Part 1 adds
 * up the ratings of the accepted parts; part 2 splits the whole rating space [1, 4000]^4
 * along the rules into boxes and adds up the sizes of the accepted ones.
 */
module Day19 {
  import opened Wrappers
  import opened Stack
  import opened Worklist
  import Arithmetic

  // Parsing.

  datatype Operator = Greater | Less

  /**
   * A rule `property operator targetValue:destination`. The property is not checked, so a
   * rule on anything but x, m, a or s never holds in part 1.
   */
  datatype Rule = Rule(property: string, operator: Operator, targetValue: int, destination: string)

  datatype Workflow = Workflow(name: string, rules: seq<Rule>, catchAll: string)

  /** A part's ratings: `Object.fromEntries` of the ratings listed, so a missing one is absent. */
  datatype Part = Part(x: Option<int>, m: Option<int>, a: Option<int>, s: Option<int>)

  /** The groups the rule's regular expression captures, all empty (and 0) when it does not match. */
  datatype RuleText = RuleText(property: string, operator: string, targetValue: nat, destination: string)

  /** A workflow line: its name, its rules and its last, catch-all destination. */
  datatype WorkflowText = WorkflowText(name: string, rules: seq<RuleText>, catchAll: string)

  datatype Input = Input(workflows: seq<Workflow>, dictionary: map<string, Workflow>, initial: Workflow, parts: seq<Part>)

  function ParseRule(t: RuleText): (r: Result<Rule>)
    ensures r.Success? <==> t.operator == ">" || t.operator == "<"
    ensures r.Success? ==> r.value == Rule(t.property, if t.operator == ">" then Greater else Less, t.targetValue, t.destination)
    ensures r.Failure? ==> r.error == "Unknown operator: " + t.operator
  {
    if t.operator == ">" then Success(Rule(t.property, Greater, t.targetValue, t.destination))
    else if t.operator == "<" then Success(Rule(t.property, Less, t.targetValue, t.destination))
    else Failure("Unknown operator: " + t.operator)
  }

  function ParseWorkflow(t: WorkflowText): (r: Result<Workflow>)
    ensures r.Success? ==> r.value.name == t.name && r.value.catchAll == t.catchAll && |r.value.rules| == |t.rules|
  {
    match MapAll(t.rules, ParseRule)
    case Failure(e) => Failure(e)
    case Success(rules) => Success(Workflow(t.name, rules, t.catchAll))
  }

  predicate IsPartProperty(name: string)
  {
    name == "x" || name == "m" || name == "a" || name == "s"
  }

  /** One entry of `Object.fromEntries`: a later rating for the same category replaces an earlier one. */
  function WithRating(p: Part, name: string, value: int): Part
    requires IsPartProperty(name)
  {
    if name == "x" then p.(x := Some(value))
    else if name == "m" then p.(m := Some(value))
    else if name == "a" then p.(a := Some(value))
    else p.(s := Some(value))
  }

  /** `part?.[property]`. */
  function Rating(p: Part, name: string): Option<int>
  {
    if name == "x" then p.x else if name == "m" then p.m else if name == "a" then p.a else if name == "s" then p.s else None
  }

  /** A rating line: every name must be a category. */
  function ParsePart(entries: seq<(string, nat)>): (r: Result<Part>)
    ensures r.Success? <==> forall i :: 0 <= i < |entries| ==> IsPartProperty(entries[i].0)
    ensures r.Failure? ==> exists i :: 0 <= i < |entries| && !IsPartProperty(entries[i].0) && r.error == "Unknown property: " + entries[i].0
    decreases |entries|
  {
    if entries == [] then Success(Part(None, None, None, None))
    else
      var last := entries[|entries| - 1];
      match ParsePart(entries[..|entries| - 1])
      case Failure(e) =>
        assert forall i :: 0 <= i < |entries| - 1 ==> entries[..|entries| - 1][i] == entries[i];
        Failure(e)
      case Success(p) =>
        assert forall i :: 0 <= i < |entries| - 1 ==> entries[..|entries| - 1][i] == entries[i];
        if IsPartProperty(last.0) then Success(WithRating(p, last.0, last.1))
        else Failure("Unknown property: " + last.0)
  }

  /** A parsed part has a rating for exactly the categories listed, and each keeps the last value listed for it. */
  lemma {:induction false} PartRatings(entries: seq<(string, nat)>, name: string)
    requires ParsePart(entries).Success? && IsPartProperty(name)
    ensures Rating(ParsePart(entries).value, name).Some? <==> exists i :: 0 <= i < |entries| && entries[i].0 == name
    ensures forall i :: 0 <= i < |entries| && entries[i].0 == name && (forall j :: i < j < |entries| ==> entries[j].0 != name) ==>
      Rating(ParsePart(entries).value, name) == Some(entries[i].1 as int)
    decreases |entries|
  {
    if entries != [] {
      var init := entries[..|entries| - 1];
      assert forall i :: 0 <= i < |entries| - 1 ==> init[i] == entries[i];
      PartRatings(init, name);
    }
  }

  /** `Object.fromEntries` of the workflows by name: a later workflow of the same name replaces an earlier one. */
  function Dictionary(ws: seq<Workflow>): (d: map<string, Workflow>)
    ensures forall name :: name in d ==> d[name].name == name
  {
    if ws == [] then map[]
    else Dictionary(ws[..|ws| - 1])[ws[|ws| - 1].name := ws[|ws| - 1]]
  }

  /** The dictionary holds exactly the names of the workflows, each mapped to the last workflow of that name. */
  lemma {:induction false} DictionaryLastWins(ws: seq<Workflow>, name: string)
    ensures name in Dictionary(ws) <==> exists i :: 0 <= i < |ws| && ws[i].name == name
    ensures forall i :: 0 <= i < |ws| && ws[i].name == name && (forall j :: i < j < |ws| ==> ws[j].name != name) ==>
      name in Dictionary(ws) && Dictionary(ws)[name] == ws[i]
    decreases |ws|
  {
    if ws != [] {
      var init := ws[..|ws| - 1];
      assert forall i :: 0 <= i < |ws| - 1 ==> init[i] == ws[i];
      DictionaryLastWins(init, name);
    }
  }

  /**
   * `parseInput`: the workflows are parsed first, then the ratings, and a missing "in"
   * workflow fails last.
   */
  function ParseInput(workflows: seq<WorkflowText>, ratings: seq<seq<(string, nat)>>): (r: Result<Input>)
    ensures r.Success? ==> "in" in r.value.dictionary && r.value.initial == r.value.dictionary["in"] && |r.value.parts| == |ratings|
    ensures r.Success? ==> r.value.dictionary == Dictionary(r.value.workflows) && |r.value.workflows| == |workflows|
    ensures r.Success? <==> (MapAll(workflows, ParseWorkflow).Success? && MapAll(ratings, ParsePart).Success?
                             && "in" in Dictionary(MapAll(workflows, ParseWorkflow).value))
    ensures (MapAll(workflows, ParseWorkflow).Success? && MapAll(ratings, ParsePart).Success?
             && "in" !in Dictionary(MapAll(workflows, ParseWorkflow).value)) ==> r == Failure("No initial workflow found")
  {
    match MapAll(workflows, ParseWorkflow)
    case Failure(e) => Failure(e)
    case Success(ws) =>
      match MapAll(ratings, ParsePart)
      case Failure(e) => Failure(e)
      case Success(parts) =>
        var d := Dictionary(ws);
        if "in" !in d then Failure("No initial workflow found")
        else Success(Input(ws, d, d["in"], parts))
  }

  // Part 1: the workflow walk.

  predicate Holds(rule: Rule, p: Part)
  {
    match Rating(p, rule.property)
    case None => false
    case Some(v) => if rule.operator == Greater then v > rule.targetValue else v < rule.targetValue
  }

  /** Where a walk ends; `Undecided` when the workflow budget runs out (the source then loops on). */
  datatype Outcome = Accept | Reject | Undecided

  /** The walk from rule `i` of workflow `w`, allowed `fuel` more workflows. */
  function WalkFrom(d: map<string, Workflow>, p: Part, w: Workflow, i: nat, fuel: nat): Outcome
    decreases fuel, if i < |w.rules| then |w.rules| - i + 1 else 1
  {
    if i < |w.rules| then
      if Holds(w.rules[i], p) then Go(d, p, w.rules[i].destination, fuel) else WalkFrom(d, p, w, i + 1, fuel)
    else Go(d, p, w.catchAll, fuel)
  }

  /** Following a destination: 'A' accepts, 'R' rejects, an unknown workflow ends the loop with `false`. */
  function Go(d: map<string, Workflow>, p: Part, destination: string, fuel: nat): (r: Outcome)
    ensures destination == "A" ==> r == Accept
    ensures destination == "R" ==> r == Reject
    ensures destination != "A" && destination != "R" && destination !in d ==> r == Reject
    decreases fuel, 0
  {
    if destination == "A" then Accept
    else if destination == "R" then Reject
    else if destination !in d then Reject
    else if fuel == 0 then Undecided
    else WalkFrom(d, p, d[destination], 0, fuel - 1)
  }

  /** `rules.find(rule => rule.isTrue(part))`. */
  function Find(rules: seq<Rule>, p: Part): (r: Option<nat>)
    ensures r.Some? ==> r.value < |rules| && Holds(rules[r.value], p) && forall j :: 0 <= j < r.value ==> !Holds(rules[j], p)
    ensures r.None? ==> forall j :: 0 <= j < |rules| ==> !Holds(rules[j], p)
  {
    if rules == [] then None
    else if Holds(rules[0], p) then Some(0)
    else match Find(rules[1..], p)
      case None => None
      case Some(k) => Some(k + 1)
  }

  /** The first rule that holds decides, and the catch-all when none does. */
  lemma {:induction false} FirstRuleDecides(d: map<string, Workflow>, p: Part, w: Workflow, i: nat, fuel: nat)
    requires i <= |w.rules|
    ensures var f := Find(w.rules[i..], p);
      WalkFrom(d, p, w, i, fuel) == Go(d, p, if f.Some? then w.rules[i + f.value].destination else w.catchAll, fuel)
    decreases |w.rules| - i
  {
    if i < |w.rules| {
      if !Holds(w.rules[i], p) {
        FirstRuleDecides(d, p, w, i + 1, fuel);
        assert w.rules[i..][1..] == w.rules[i + 1..];
      }
    }
  }

  /** A walk that ends does so the same way with a larger budget. */
  lemma {:induction false} WalkMonotone(d: map<string, Workflow>, p: Part, w: Workflow, i: nat, fuel: nat, more: nat)
    requires WalkFrom(d, p, w, i, fuel) != Undecided && fuel <= more
    ensures WalkFrom(d, p, w, i, more) == WalkFrom(d, p, w, i, fuel)
    decreases fuel, if i < |w.rules| then |w.rules| - i + 1 else 1
  {
    if i < |w.rules| {
      if Holds(w.rules[i], p) {
        GoMonotone(d, p, w.rules[i].destination, fuel, more);
      } else {
        WalkMonotone(d, p, w, i + 1, fuel, more);
      }
    } else {
      GoMonotone(d, p, w.catchAll, fuel, more);
    }
  }

  lemma {:induction false} GoMonotone(d: map<string, Workflow>, p: Part, destination: string, fuel: nat, more: nat)
    requires Go(d, p, destination, fuel) != Undecided && fuel <= more
    ensures Go(d, p, destination, more) == Go(d, p, destination, fuel)
    decreases fuel, 0
  {
    if destination != "A" && destination != "R" && destination in d {
      WalkMonotone(d, p, d[destination], 0, fuel - 1, more - 1);
    }
  }

  /**
   * The `while (workflow)` loop of `part1`'s filter: find the first rule that holds, follow
   * its destination or the catch-all, and stop at 'A', 'R' or an unknown workflow.
   */
  method Accepts(d: map<string, Workflow>, initial: Workflow, p: Part, fuel: nat) returns (o: Outcome)
    ensures o == WalkFrom(d, p, initial, 0, fuel)
  {
    var workflow, left := initial, fuel;
    while true
      invariant WalkFrom(d, p, workflow, 0, left) == WalkFrom(d, p, initial, 0, fuel)
      decreases left
    {
      var matching := Find(workflow.rules, p);
      var destination := if matching.Some? then workflow.rules[matching.value].destination else workflow.catchAll;
      FirstRuleDecides(d, p, workflow, 0, left);
      assert workflow.rules[0..] == workflow.rules;
      if destination == "A" {
        return Accept;
      } else if destination == "R" {
        return Reject;
      } else if destination !in d {
        return Reject;
      } else if left == 0 {
        return Undecided;
      }
      workflow, left := d[destination], left - 1;
    }
  }

  /** `sum(Object.values(part))`: the ratings the part has. */
  function RatingSum(p: Part): int
  {
    (if p.x.Some? then p.x.value else 0) + (if p.m.Some? then p.m.value else 0)
    + (if p.a.Some? then p.a.value else 0) + (if p.s.Some? then p.s.value else 0)
  }

  /** The total of the accepted parts' ratings, or `None` when some walk runs out of budget. */
  function AcceptedTotal(d: map<string, Workflow>, initial: Workflow, parts: seq<Part>, fuel: nat): Option<int>
  {
    if parts == [] then Some(0)
    else
      match AcceptedTotal(d, initial, parts[..|parts| - 1], fuel)
      case None => None
      case Some(total) =>
        var o := WalkFrom(d, parts[|parts| - 1], initial, 0, fuel);
        if o == Undecided then None
        else Some(total + if o == Accept then RatingSum(parts[|parts| - 1]) else 0)
  }

  /** The answer does not depend on the budget, once it is large enough for every part. */
  lemma {:induction false} AcceptedTotalMonotone(d: map<string, Workflow>, initial: Workflow, parts: seq<Part>, fuel: nat, more: nat)
    requires AcceptedTotal(d, initial, parts, fuel).Some? && fuel <= more
    ensures AcceptedTotal(d, initial, parts, more) == AcceptedTotal(d, initial, parts, fuel)
  {
    if parts != [] {
      AcceptedTotalMonotone(d, initial, parts[..|parts| - 1], fuel, more);
      WalkMonotone(d, parts[|parts| - 1], initial, 0, fuel, more);
    }
  }

  /** A part whose walk runs out of budget leaves the whole answer undecided. */
  lemma {:induction false} UndecidedPropagates(d: map<string, Workflow>, initial: Workflow, parts: seq<Part>, i: nat, fuel: nat)
    requires i <= |parts| && AcceptedTotal(d, initial, parts[..i], fuel).None?
    ensures AcceptedTotal(d, initial, parts, fuel).None?
    decreases |parts| - i
  {
    if i < |parts| {
      assert parts[..i + 1][..i] == parts[..i];
      UndecidedPropagates(d, initial, parts, i + 1, fuel);
    } else {
      assert parts[..i] == parts;
    }
  }

  /** `part1`: the filter over the parts, then the sum of the kept parts' ratings. */
  method Part1(input: Input, fuel: nat) returns (total: Option<int>)
    ensures total == AcceptedTotal(input.dictionary, input.initial, input.parts, fuel)
  {
    var sum := 0;
    for i := 0 to |input.parts|
      invariant AcceptedTotal(input.dictionary, input.initial, input.parts[..i], fuel) == Some(sum)
    {
      assert input.parts[..i + 1][..i] == input.parts[..i];
      var o := Accepts(input.dictionary, input.initial, input.parts[i], fuel);
      if o == Undecided {
        UndecidedPropagates(input.dictionary, input.initial, input.parts, i + 1, fuel);
        return None;
      }
      if o == Accept {
        sum := sum + RatingSum(input.parts[i]);
      }
    }
    assert input.parts[..|input.parts|] == input.parts;
    return Some(sum);
  }

  // Part 2: splitting the rating space.

  /** A closed range `[lo, hi]` of ratings. */
  datatype Range = Range(lo: int, hi: int)

  /** `Record<PartProperty, Range>`. */
  datatype Ranges = Ranges(x: Range, m: Range, a: Range, s: Range)

  /** A stack entry: the box still to route, from rule `ruleIndex` of `workflow`. */
  datatype Item = Item(ranges: Ranges, workflow: Workflow, ruleIndex: nat)

  const MinRating := 1
  const MaxRating := 4000

  /** `isValidRange`: non-empty and within [1, 4000]. */
  predicate IsValidRange(r: Range)
  {
    r.lo >= MinRating && r.hi <= MaxRating && r.lo <= r.hi
  }

  predicate IsValidBox(rs: Ranges)
  {
    IsValidRange(rs.x) && IsValidRange(rs.m) && IsValidRange(rs.a) && IsValidRange(rs.s)
  }

  function RangeOf(rs: Ranges, name: string): Range
    requires IsPartProperty(name)
  {
    if name == "x" then rs.x else if name == "m" then rs.m else if name == "a" then rs.a else rs.s
  }

  /** `{ ...partRanges, [property]: r }`. */
  function WithRange(rs: Ranges, name: string, r: Range): Ranges
    requires IsPartProperty(name)
  {
    if name == "x" then rs.(x := r) else if name == "m" then rs.(m := r) else if name == "a" then rs.(a := r) else rs.(s := r)
  }

  predicate Compare(op: Operator, v: int, target: int)
  {
    if op == Greater then v > target else v < target
  }

  predicate InPiece(piece: Option<Range>, v: int)
  {
    piece.Some? && piece.value.lo <= v <= piece.value.hi
  }

  /** The pieces of a range where a rule holds and where it does not; either may be missing. */
  datatype Pieces = Pieces(trueRange: Option<Range>, falseRange: Option<Range>)

  /**
   * The split of a range by a comparison with `target`: a range that contains the target is
   * cut next to it, one wholly below or above goes to one side. Each piece lies within the
   * range, and a rating of the range lies in the true piece exactly when the comparison
   * holds and in the false piece exactly when it does not, so the pieces are disjoint and
   * together cover the range.
   */
  function Split(r: Range, op: Operator, target: int): (p: Pieces)
    ensures forall v :: InPiece(p.trueRange, v) ==> r.lo <= v <= r.hi
    ensures forall v :: InPiece(p.falseRange, v) ==> r.lo <= v <= r.hi
    ensures forall v :: r.lo <= v <= r.hi ==> (InPiece(p.trueRange, v) <==> Compare(op, v, target))
    ensures forall v :: r.lo <= v <= r.hi ==> (InPiece(p.falseRange, v) <==> !Compare(op, v, target))
    ensures r.lo <= target <= r.hi ==> p == if op == Greater then Pieces(Some(Range(target + 1, r.hi)), Some(Range(r.lo, target)))
                                             else Pieces(Some(Range(r.lo, target - 1)), Some(Range(target, r.hi)))
  {
    if r.lo <= target && r.hi >= target then
      if op == Greater then Pieces(Some(Range(target + 1, r.hi)), Some(Range(r.lo, target)))
      else Pieces(Some(Range(r.lo, target - 1)), Some(Range(target, r.hi)))
    else if r.hi < target then
      if op == Greater then Pieces(None, Some(r)) else Pieces(Some(r), None)
    else if r.lo > target then
      if op == Greater then Pieces(Some(r), None) else Pieces(None, Some(r))
    else Pieces(None, None)
  }

  /** A piece is kept only when it is a valid range. */
  function Keep(piece: Option<Range>): (kept: Option<Range>)
    ensures kept.Some? <==> piece.Some? && IsValidRange(piece.value)
    ensures kept.Some? ==> kept == piece
  {
    if piece.Some? && IsValidRange(piece.value) then piece else None
  }

  /** A box sent to `destination`: accepted at 'A', dropped at 'R' or an unknown workflow, else pushed. */
  function Route(d: map<string, Workflow>, rs: Ranges, destination: string): (seq<Ranges>, seq<Item>)
  {
    if destination == "A" then ([rs], [])
    else if destination == "R" then ([], [])
    else if destination in d then ([], [Item(rs, d[destination], 0)])
    else ([], [])
  }

  /**
   * The callback `stack.process` runs on one item: past the last rule the box follows the
   * catch-all; otherwise the box is split by the rule, the kept true piece follows the
   * rule's destination and the kept false piece is pushed for the next rule. The state is
   * `validPartRanges`.
   */
  function VisitItem(d: map<string, Workflow>, accepted: seq<Ranges>, item: Item): (seq<Ranges>, seq<Item>)
  {
    var w := item.workflow;
    if item.ruleIndex >= |w.rules| then
      var routed := Route(d, item.ranges, w.catchAll);
      (accepted + routed.0, routed.1)
    else
      var rule := w.rules[item.ruleIndex];
      if !IsPartProperty(rule.property) then (accepted, [])
      else
        var pieces := Split(RangeOf(item.ranges, rule.property), rule.operator, rule.targetValue);
        var routed := if Keep(pieces.trueRange).Some? then Route(d, WithRange(item.ranges, rule.property, pieces.trueRange.value), rule.destination) else ([], []);
        var rest := if Keep(pieces.falseRange).Some? then [Item(WithRange(item.ranges, rule.property, pieces.falseRange.value), w, item.ruleIndex + 1)] else [];
        (accepted + routed.0, routed.1 + rest)
  }

  function Visitor(d: map<string, Workflow>): (seq<Ranges>, Item) -> (seq<Ranges>, seq<Item>)
  {
    (accepted, item) => VisitItem(d, accepted, item)
  }

  /** Every stack entry is an object, so every one is truthy. */
  predicate Truthy(item: Item)
  {
    true
  }

  function Full(): Range
  {
    Range(MinRating, MaxRating)
  }

  function Start(initial: Workflow): Item
  {
    Item(Ranges(Full(), Full(), Full(), Full()), initial, 0)
  }

  /** The accepted boxes once the stack drains, or `None` when `fuel` pops do not empty it. */
  function AcceptedBoxes(d: map<string, Workflow>, initial: Workflow, fuel: nat): Option<seq<Ranges>>
  {
    var drain := DrainLifo([Start(initial)], [], Visitor(d), Truthy, fuel);
    if drain.pending == [] then Some(drain.state) else None
  }

  function Width(r: Range): int
  {
    r.hi - r.lo + 1
  }

  /** The number of rating combinations in a box. */
  function Volume(rs: Ranges): (v: int)
    ensures IsValidBox(rs) ==> v >= 1
  {
    Width(rs.x) * Width(rs.m) * Width(rs.a) * Width(rs.s)
  }

  /** The final `reduce`: the boxes' volumes added up. */
  function TotalVolume(boxes: seq<Ranges>): (total: int)
    ensures (forall i :: 0 <= i < |boxes| ==> IsValidBox(boxes[i])) ==> total >= |boxes|
  {
    if boxes == [] then 0 else TotalVolume(boxes[..|boxes| - 1]) + Volume(boxes[|boxes| - 1])
  }

  /** Every rule names one of the four categories (otherwise `partRanges[property]` is undefined and reading it throws). */
  predicate WellFormed(d: map<string, Workflow>, initial: Workflow)
  {
    (forall i :: 0 <= i < |initial.rules| ==> IsPartProperty(initial.rules[i].property))
    && forall name :: name in d ==> forall i :: 0 <= i < |d[name].rules| ==> IsPartProperty(d[name].rules[i].property)
  }

  /** `part2`: drains the stack from the full box at "in" and adds up the accepted boxes' volumes. */
  method Part2(d: map<string, Workflow>, initial: Workflow, fuel: nat) returns (total: Option<int>)
    requires WellFormed(d, initial)
    ensures var boxes := AcceptedBoxes(d, initial, fuel);
      total == if boxes.Some? then Some(TotalVolume(boxes.value)) else None
  {
    var stack := new Stack<Item>(Truthy);
    stack.Push(Start(initial));
    var validPartRanges, _ := stack.Process(Visitor(d), [], fuel);
    if stack.stack != [] {
      return None;
    }
    return Some(TotalVolume(validPartRanges));
  }

  // Soundness of part 2: every combination in an accepted box is accepted by part 1's walk.

  predicate InRange(r: Range, v: Option<int>)
  {
    v.Some? && r.lo <= v.value <= r.hi
  }

  predicate InBox(rs: Ranges, p: Part)
  {
    InRange(rs.x, p.x) && InRange(rs.m, p.m) && InRange(rs.a, p.a) && InRange(rs.s, p.s)
  }

  /** The walk from rule `i` of `w` accepts `p` for some budget. */
  ghost predicate AcceptsFrom(d: map<string, Workflow>, p: Part, w: Workflow, i: nat)
  {
    exists fuel: nat :: WalkFrom(d, p, w, i, fuel) == Accept
  }

  /** Every combination of the box is accepted from the initial workflow. */
  ghost predicate GoodBox(d: map<string, Workflow>, initial: Workflow, rs: Ranges)
  {
    IsValidBox(rs) && forall p :: InBox(rs, p) ==> AcceptsFrom(d, p, initial, 0)
  }

  /** A valid box whose combinations, when accepted from the item's rule, are accepted from the start. */
  ghost predicate Sound(d: map<string, Workflow>, initial: Workflow, item: Item)
  {
    IsValidBox(item.ranges)
    && forall p :: InBox(item.ranges, p) && AcceptsFrom(d, p, item.workflow, item.ruleIndex) ==> AcceptsFrom(d, p, initial, 0)
  }

  ghost predicate AllGood(d: map<string, Workflow>, initial: Workflow, boxes: seq<Ranges>)
  {
    forall i :: 0 <= i < |boxes| ==> GoodBox(d, initial, boxes[i])
  }

  ghost predicate AllSound(d: map<string, Workflow>, initial: Workflow, items: seq<Item>)
  {
    forall i :: 0 <= i < |items| ==> Sound(d, initial, items[i])
  }

  lemma AllGoodAppend(d: map<string, Workflow>, initial: Workflow, a: seq<Ranges>, b: seq<Ranges>)
    requires AllGood(d, initial, a) && AllGood(d, initial, b)
    ensures AllGood(d, initial, a + b)
  {
    assert forall i :: |a| <= i < |a + b| ==> (a + b)[i] == b[i - |a|];
  }

  lemma AllSoundAppend(d: map<string, Workflow>, initial: Workflow, a: seq<Item>, b: seq<Item>)
    requires AllSound(d, initial, a) && AllSound(d, initial, b)
    ensures AllSound(d, initial, a + b)
  {
    assert forall i :: |a| <= i < |a + b| ==> (a + b)[i] == b[i - |a|];
  }

  /** A box sent to a destination from which every accepted combination is accepted from the start routes soundly. */
  lemma RouteSound(d: map<string, Workflow>, initial: Workflow, rs: Ranges, destination: string)
    requires IsValidBox(rs)
    requires forall p, fuel: nat :: InBox(rs, p) && Go(d, p, destination, fuel) == Accept ==> AcceptsFrom(d, p, initial, 0)
    ensures var routed := Route(d, rs, destination);
      AllGood(d, initial, routed.0) && AllSound(d, initial, routed.1)
  {
    if destination == "A" {
      forall p | InBox(rs, p)
        ensures AcceptsFrom(d, p, initial, 0)
      {
        assert Go(d, p, destination, 0) == Accept;
      }
    } else if destination != "R" && destination in d {
      var next := Item(rs, d[destination], 0);
      forall p | InBox(rs, p) && AcceptsFrom(d, p, next.workflow, 0)
        ensures AcceptsFrom(d, p, initial, 0)
      {
        var fuel: nat :| WalkFrom(d, p, next.workflow, 0, fuel) == Accept;
        assert Go(d, p, destination, fuel + 1) == Accept;
      }
      assert Sound(d, initial, next);
    }
  }

  /** A kept piece of a box's range gives a box inside the original one. */
  lemma PieceInBox(rs: Ranges, name: string, piece: Range, p: Part)
    requires IsPartProperty(name) && InBox(WithRange(rs, name, piece), p)
    requires forall v :: InPiece(Some(piece), v) ==> RangeOf(rs, name).lo <= v <= RangeOf(rs, name).hi
    ensures InBox(rs, p) && Rating(p, name).Some? && InPiece(Some(piece), Rating(p, name).value)
  {
    assert InRange(RangeOf(WithRange(rs, name, piece), name), Rating(p, name));
    assert InPiece(Some(piece), Rating(p, name).value);
  }

  /** One visit keeps every accepted box good and every stack entry sound. */
  lemma VisitSound(d: map<string, Workflow>, initial: Workflow, accepted: seq<Ranges>, item: Item)
    requires AllGood(d, initial, accepted) && Sound(d, initial, item)
    ensures var step := VisitItem(d, accepted, item);
      AllGood(d, initial, step.0) && AllSound(d, initial, step.1)
  {
    var w, i := item.workflow, item.ruleIndex;
    if i >= |w.rules| {
      forall p, fuel: nat | InBox(item.ranges, p) && Go(d, p, w.catchAll, fuel) == Accept
        ensures AcceptsFrom(d, p, initial, 0)
      {
        assert WalkFrom(d, p, w, i, fuel) == Accept;
      }
      RouteSound(d, initial, item.ranges, w.catchAll);
      AllGoodAppend(d, initial, accepted, Route(d, item.ranges, w.catchAll).0);
    } else {
      var rule := w.rules[i];
      if IsPartProperty(rule.property) {
        var name := rule.property;
        var pieces := Split(RangeOf(item.ranges, name), rule.operator, rule.targetValue);
        var routed: (seq<Ranges>, seq<Item>) := ([], []);
        if Keep(pieces.trueRange).Some? {
          var box := WithRange(item.ranges, name, pieces.trueRange.value);
          forall p, fuel: nat | InBox(box, p) && Go(d, p, rule.destination, fuel) == Accept
            ensures AcceptsFrom(d, p, initial, 0)
          {
            PieceInBox(item.ranges, name, pieces.trueRange.value, p);
            assert Holds(rule, p);
            assert WalkFrom(d, p, w, i, fuel) == Accept;
          }
          RouteSound(d, initial, box, rule.destination);
          routed := Route(d, box, rule.destination);
        }
        var rest: seq<Item> := [];
        if Keep(pieces.falseRange).Some? {
          var next := Item(WithRange(item.ranges, name, pieces.falseRange.value), w, i + 1);
          forall p | InBox(next.ranges, p) && AcceptsFrom(d, p, w, i + 1)
            ensures AcceptsFrom(d, p, initial, 0)
          {
            PieceInBox(item.ranges, name, pieces.falseRange.value, p);
            assert !Holds(rule, p);
            var fuel: nat :| WalkFrom(d, p, w, i + 1, fuel) == Accept;
            assert WalkFrom(d, p, w, i, fuel) == Accept;
          }
          assert Sound(d, initial, next);
          rest := [next];
        }
        assert VisitItem(d, accepted, item) == (accepted + routed.0, routed.1 + rest);
        AllGoodAppend(d, initial, accepted, routed.0);
        AllSoundAppend(d, initial, routed.1, rest);
      }
    }
  }

  /** Draining sound entries keeps every accepted box good. */
  lemma {:induction false} DrainSound(d: map<string, Workflow>, initial: Workflow, pending: seq<Item>, accepted: seq<Ranges>,
                                      truthy: Item -> bool, fuel: nat)
    requires AllGood(d, initial, accepted) && AllSound(d, initial, pending)
    ensures AllGood(d, initial, DrainLifo(pending, accepted, Visitor(d), truthy, fuel).state)
    decreases fuel
  {
    if pending != [] && fuel > 0 {
      var item, below := Last(pending), Init(pending);
      assert AllSound(d, initial, below) by {
        assert forall i :: 0 <= i < |below| ==> below[i] == pending[i];
      }
      if truthy(item) {
        var step := Visitor(d)(accepted, item);
        assert step == VisitItem(d, accepted, item);
        VisitSound(d, initial, accepted, item);
        AllSoundAppend(d, initial, below, step.1);
        DrainSound(d, initial, below + step.1, step.0, truthy, fuel - 1);
      } else {
        DrainSound(d, initial, below, accepted, truthy, fuel - 1);
      }
    }
  }

  /**
   * Part 2 is sound: every box it counts is valid and every combination in it is accepted
   * by the walk of part 1 for some budget.
   */
  lemma AcceptedBoxesSound(d: map<string, Workflow>, initial: Workflow, fuel: nat)
    requires AcceptedBoxes(d, initial, fuel).Some?
    ensures AllGood(d, initial, AcceptedBoxes(d, initial, fuel).value)
  {
    var start := Start(initial);
    forall p | InBox(start.ranges, p) && AcceptsFrom(d, p, initial, 0)
      ensures AcceptsFrom(d, p, initial, 0)
    {
    }
    assert Sound(d, initial, start);
    DrainSound(d, initial, [start], [], Truthy, fuel);
  }
}
