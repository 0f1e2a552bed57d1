/** `Stack<T>`: an array pushed and popped at the same end. */
module Stack {
  import opened Worklist

  function Last<T>(s: seq<T>): T requires s != [] { s[|s| - 1] }

  function Init<T>(s: seq<T>): seq<T> requires s != [] { s[..|s| - 1] }

  /**
   * A LIFO drain bounded by `fuel` pops: the top item is popped; a falsy item is dropped,
   * a truthy one is handed to the callback, whose items are pushed on top.
   */
  function DrainLifo<S, T>(pending: seq<T>, state: S, visit: (S, T) -> (S, seq<T>), truthy: T -> bool, fuel: nat): Drain<S, T>
    decreases fuel
  {
    if pending == [] || fuel == 0 then Drain(state, [], [], [], pending)
    else
      var item := Last(pending);
      var below := Init(pending);
      if !truthy(item) then
        Prepend([item], [], [], DrainLifo(below, state, visit, truthy, fuel - 1))
      else
        var step := visit(state, item);
        Prepend([item], [item], step.1, DrainLifo(below + step.1, step.0, visit, truthy, fuel - 1))
  }

  /**
   * Last in, first out: when the items on top of the stack (with everything they lead the
   * callback to push) drain completely, they are all handled before anything beneath them.
   */
  lemma {:induction false} LifoTopFirst<S, T>(below: seq<T>, top: seq<T>, state: S, visit: (S, T) -> (S, seq<T>), truthy: T -> bool, fuel: nat)
    requires DrainLifo(top, state, visit, truthy, fuel).pending == []
    ensures var d := DrainLifo(top, state, visit, truthy, fuel);
      |d.taken| <= fuel
      && DrainLifo(below + top, state, visit, truthy, fuel)
         == Prepend(d.taken, d.visited, d.added, DrainLifo(below, d.state, visit, truthy, fuel - |d.taken|))
    decreases fuel
  {
    if top == [] {
      assert below + top == below;
    } else {
      var item := top[|top| - 1];
      var rest := top[..|top| - 1];
      LastInitAppend(below, top);
      if !truthy(item) {
        LifoTopFirst(below, rest, state, visit, truthy, fuel - 1);
        var d := DrainLifo(rest, state, visit, truthy, fuel - 1);
        PrependTwice([item], [], [], d.taken, d.visited, d.added, DrainLifo(below, d.state, visit, truthy, fuel - 1 - |d.taken|));
      } else {
        var step := visit(state, item);
        assert below + rest + step.1 == below + (rest + step.1);
        LifoTopFirst(below, rest + step.1, step.0, visit, truthy, fuel - 1);
        var d := DrainLifo(rest + step.1, step.0, visit, truthy, fuel - 1);
        PrependTwice([item], [item], step.1, d.taken, d.visited, d.added, DrainLifo(below, d.state, visit, truthy, fuel - 1 - |d.taken|));
      }
    }
  }

  lemma LastInitAppend<T>(below: seq<T>, top: seq<T>)
    requires top != []
    ensures below + top != [] && Last(below + top) == Last(top) && Init(below + top) == below + Init(top)
  {
    assert (below + top)[..|below + top| - 1] == below + Init(top);
  }

  lemma InitLast<T>(s: seq<T>)
    requires s != []
    ensures s == Init(s) + [Last(s)]
  {
  }

  /** Every LIFO drain conserves its items. */
  lemma {:induction false} LifoConserves<S, T>(pending: seq<T>, state: S, visit: (S, T) -> (S, seq<T>), truthy: T -> bool, fuel: nat)
    ensures Conserved(pending, state, visit, truthy, fuel)
    decreases fuel, 1
  {
    if pending != [] && fuel > 0 {
      if truthy(Last(pending)) {
        ConservedAfterVisit(pending, state, visit, truthy, fuel);
      } else {
        ConservedAfterDrop(pending, state, visit, truthy, fuel);
      }
    }
  }

  /** Nothing is lost: the items taken and those still pending are the initial items and the pushed ones. */
  ghost predicate Conserved<S, T>(pending: seq<T>, state: S, visit: (S, T) -> (S, seq<T>), truthy: T -> bool, fuel: nat)
  {
    var d := DrainLifo(pending, state, visit, truthy, fuel);
    multiset(d.taken) + multiset(d.pending) == multiset(pending) + multiset(d.added)
  }

  /** Popping a truthy item and pushing what the callback returns keeps the balance. */
  lemma {:induction false} ConservedAfterVisit<S, T>(pending: seq<T>, state: S, visit: (S, T) -> (S, seq<T>), truthy: T -> bool, fuel: nat)
    requires pending != [] && fuel > 0 && truthy(Last(pending))
    ensures Conserved(pending, state, visit, truthy, fuel)
    decreases fuel, 0
  {
    var item, below, step := Last(pending), Init(pending), visit(state, Last(pending));
    LifoConserves(below + step.1, step.0, visit, truthy, fuel - 1);
    Regroup(item, below, step.1, [item], DrainLifo(below + step.1, step.0, visit, truthy, fuel - 1));
    InitLast(pending);
  }

  /** One pop of `item` off `below + [item]`, with `pushed` pushed, keeps the multiset balance. */
  lemma Regroup<S, T>(item: T, below: seq<T>, pushed: seq<T>, seen: seq<T>, d: Drain<S, T>)
    requires multiset(d.taken) + multiset(d.pending) == multiset(below + pushed) + multiset(d.added)
    ensures var e := Prepend([item], seen, pushed, d);
      multiset(e.taken) + multiset(e.pending) == multiset(below + [item]) + multiset(e.added)
  {
    calc {
      multiset([item] + d.taken) + multiset(d.pending);
      multiset{item} + (multiset(d.taken) + multiset(d.pending));
      multiset{item} + (multiset(below + pushed) + multiset(d.added));
      multiset{item} + multiset(below) + (multiset(pushed) + multiset(d.added));
      multiset(below + [item]) + multiset(pushed + d.added);
    }
  }

  /** Popping a falsy item keeps the balance. */
  lemma {:induction false} ConservedAfterDrop<S, T>(pending: seq<T>, state: S, visit: (S, T) -> (S, seq<T>), truthy: T -> bool, fuel: nat)
    requires pending != [] && fuel > 0 && !truthy(Last(pending))
    ensures Conserved(pending, state, visit, truthy, fuel)
    decreases fuel, 0
  {
    var item, below := Last(pending), Init(pending);
    LifoConserves(below, state, visit, truthy, fuel - 1);
    RegroupDropped(item, below, DrainLifo(below, state, visit, truthy, fuel - 1));
    InitLast(pending);
  }

  /** One pop of a falsy `item` off `below + [item]` keeps the multiset balance. */
  lemma RegroupDropped<S, T>(item: T, below: seq<T>, d: Drain<S, T>)
    requires multiset(d.taken) + multiset(d.pending) == multiset(below) + multiset(d.added)
    ensures var e := Prepend([item], [], [], d);
      multiset(e.taken) + multiset(e.pending) == multiset(below + [item]) + multiset(e.added)
  {
    assert [] + d.added == d.added;
    calc {
      multiset([item] + d.taken) + multiset(d.pending);
      multiset{item} + (multiset(d.taken) + multiset(d.pending));
      multiset{item} + (multiset(below) + multiset(d.added));
      multiset(below + [item]) + multiset(d.added);
    }
  }

  /** Exactly the truthy items popped reach the callback; a drain stops only when empty or out of pops. */
  lemma {:induction false} LifoVisitsTruthy<S, T>(pending: seq<T>, state: S, visit: (S, T) -> (S, seq<T>), truthy: T -> bool, fuel: nat)
    ensures var d := DrainLifo(pending, state, visit, truthy, fuel);
      d.visited == Filter(truthy, d.taken) && (d.pending == [] || |d.taken| == fuel)
    decreases fuel
  {
    if pending != [] && fuel > 0 {
      var item := Last(pending);
      var below := Init(pending);
      var next := if truthy(item) then visit(state, item).0 else state;
      var rest := if truthy(item) then below + visit(state, item).1 else below;
      var d := DrainLifo(rest, next, visit, truthy, fuel - 1);
      LifoVisitsTruthy(rest, next, visit, truthy, fuel - 1);
      assert ([item] + d.taken)[1..] == d.taken;
    }
  }

  /** With a callback that pushes nothing, a drain with enough pops visits the truthy items top first. */
  lemma {:induction false} LifoWithoutAdds<S, T>(pending: seq<T>, state: S, visit: (S, T) -> (S, seq<T>), truthy: T -> bool, fuel: nat)
    requires forall s, x :: visit(s, x).1 == []
    requires fuel >= |pending|
    ensures DrainLifo(pending, state, visit, truthy, fuel).visited == Filter(truthy, Reverse(pending))
    ensures DrainLifo(pending, state, visit, truthy, fuel).pending == []
    decreases fuel
  {
    if pending != [] {
      var item := pending[|pending| - 1];
      var below := pending[..|pending| - 1];
      assert visit(state, item).1 == [];
      assert below + [] == below;
      assert Reverse(pending)[1..] == Reverse(below);
      LifoWithoutAdds(below, if truthy(item) then visit(state, item).0 else state, visit, truthy, fuel - 1);
    }
  }

  /** One pop of a truthy item, moved from the drain still to come into the part already done. */
  lemma LifoVisitStep<S, T>(taken: seq<T>, visited: seq<T>, added: seq<T>, pending: seq<T>, state: S,
                            visit: (S, T) -> (S, seq<T>), truthy: T -> bool, fuel: nat)
    requires pending != [] && fuel > 0 && truthy(Last(pending))
    ensures var item, step := Last(pending), visit(state, Last(pending));
      Prepend(taken, visited, added, DrainLifo(pending, state, visit, truthy, fuel))
      == Prepend(taken + [item], visited + [item], added + step.1, DrainLifo(Init(pending) + step.1, step.0, visit, truthy, fuel - 1))
  {
    var item, step := Last(pending), visit(state, Last(pending));
    PrependTwice(taken, visited, added, [item], [item], step.1, DrainLifo(Init(pending) + step.1, step.0, visit, truthy, fuel - 1));
  }

  /** One pop of a falsy item, moved from the drain still to come into the part already done. */
  lemma LifoDropStep<S, T>(taken: seq<T>, visited: seq<T>, added: seq<T>, pending: seq<T>, state: S,
                           visit: (S, T) -> (S, seq<T>), truthy: T -> bool, fuel: nat)
    requires pending != [] && fuel > 0 && !truthy(Last(pending))
    ensures Prepend(taken, visited, added, DrainLifo(pending, state, visit, truthy, fuel))
      == Prepend(taken + [Last(pending)], visited, added, DrainLifo(Init(pending), state, visit, truthy, fuel - 1))
  {
    PrependTwice(taken, visited, added, [Last(pending)], [], [], DrainLifo(Init(pending), state, visit, truthy, fuel - 1));
    assert visited + [] == visited && added + [] == added;
  }

  class Stack<T> {
    var stack: seq<T>
    /** JavaScript truthiness of the item type: falsy items are dropped unvisited. */
    const truthy: T -> bool

    constructor (truthy: T -> bool)
      ensures stack == [] && this.truthy == truthy
    {
      stack := [];
      this.truthy := truthy;
    }

    method Push(item: T)
      modifies this
      ensures stack == old(stack) + [item]
    {
      stack := stack + [item];
    }

    /** `stack.pop()` on a non-empty stack: the top item, removed. */
    method Pop() returns (item: T)
      requires stack != []
      modifies this
      ensures item == Last(old(stack)) && stack == Init(old(stack))
    {
      item := Last(stack);
      stack := Init(stack);
    }

    /** `process(fn)`, bounded by `fuel` pops; returns the callback's final state and the items it saw. */
    method Process<S>(visit: (S, T) -> (S, seq<T>), state: S, fuel: nat) returns (final: S, visited: seq<T>)
      modifies this
      ensures var d := DrainLifo(old(stack), state, visit, truthy, fuel);
        final == d.state && visited == d.visited && stack == d.pending
    {
      final, visited := state, [];
      ghost var taken, added := [], [];
      var pending, steps := stack, 0;
      while pending != [] && steps < fuel
        invariant steps <= fuel
        invariant DrainLifo(old(stack), state, visit, truthy, fuel)
          == Prepend(taken, visited, added, DrainLifo(pending, final, visit, truthy, fuel - steps))
        decreases fuel - steps
      {
        var item := Last(pending);
        if truthy(item) {
          var step := visit(final, item);
          LifoVisitStep(taken, visited, added, pending, final, visit, truthy, fuel - steps);
          final := step.0;
          visited, added := visited + [item], added + step.1;
          pending := Init(pending) + step.1;
        } else {
          LifoDropStep(taken, visited, added, pending, final, visit, truthy, fuel - steps);
          pending := Init(pending);
        }
        taken := taken + [item];
        steps := steps + 1;
      }
      stack := pending;
    }
  }
}
