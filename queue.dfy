/** `Queue<T>`: an array pushed at the back by `enqueue` and shifted from the front by `process`. */
module Queue {
  import opened Worklist

  function Front<T>(s: seq<T>): T requires s != [] { s[0] }

  function Behind<T>(s: seq<T>): seq<T> requires s != [] { s[1..] }

  /**
   * A FIFO drain bounded by `fuel` shifts: the front item is shifted; a falsy item is
   * dropped, a truthy one is handed to the callback, whose items join the back.
   */
  function DrainFifo<S, T>(pending: seq<T>, state: S, visit: (S, T) -> (S, seq<T>), truthy: T -> bool, fuel: nat): Drain<S, T>
    decreases fuel
  {
    if pending == [] || fuel == 0 then Drain(state, [], [], [], pending)
    else
      var item := Front(pending);
      if !truthy(item) then
        Prepend([item], [], [], DrainFifo(Behind(pending), state, visit, truthy, fuel - 1))
      else
        var step := visit(state, item);
        Prepend([item], [item], step.1, DrainFifo(Behind(pending) + step.1, step.0, visit, truthy, fuel - 1))
  }

  /**
   * First in, first out: the items taken, followed by those still pending, are the initial
   * items followed by everything the callback enqueued.
   */
  lemma {:induction false} FifoOrder<S, T>(pending: seq<T>, state: S, visit: (S, T) -> (S, seq<T>), truthy: T -> bool, fuel: nat)
    ensures var d := DrainFifo(pending, state, visit, truthy, fuel);
      d.taken + d.pending == pending + d.added
    decreases fuel
  {
    if pending != [] && fuel > 0 {
      var item := pending[0];
      assert pending == [item] + pending[1..];
      if !truthy(item) {
        var rest := DrainFifo(pending[1..], state, visit, truthy, fuel - 1);
        FifoOrder(pending[1..], state, visit, truthy, fuel - 1);
        assert [item] + rest.taken + rest.pending == [item] + (rest.taken + rest.pending);
      } else {
        var step := visit(state, item);
        var rest := DrainFifo(pending[1..] + step.1, step.0, visit, truthy, fuel - 1);
        FifoOrder(pending[1..] + step.1, step.0, visit, truthy, fuel - 1);
        assert [item] + rest.taken + rest.pending == [item] + (rest.taken + rest.pending);
        assert pending + (step.1 + rest.added) == [item] + (pending[1..] + step.1) + rest.added;
      }
    }
  }

  /** Exactly the truthy items taken reach the callback, and a drain stops only when the queue is empty or the shift bound is used up. */
  lemma {:induction false} FifoVisitsTruthy<S, T>(pending: seq<T>, state: S, visit: (S, T) -> (S, seq<T>), truthy: T -> bool, fuel: nat)
    ensures var d := DrainFifo(pending, state, visit, truthy, fuel);
      d.visited == Filter(truthy, d.taken) && (d.pending == [] || |d.taken| == fuel)
    decreases fuel
  {
    if pending != [] && fuel > 0 {
      var item := pending[0];
      var next := if truthy(item) then visit(state, item).0 else state;
      var rest := if truthy(item) then pending[1..] + visit(state, item).1 else pending[1..];
      var d := DrainFifo(rest, next, visit, truthy, fuel - 1);
      FifoVisitsTruthy(rest, next, visit, truthy, fuel - 1);
      assert ([item] + d.taken)[1..] == d.taken;
    }
  }

  /** With a callback that enqueues nothing, a drain with enough shifts visits the truthy items in order. */
  lemma {:induction false} FifoWithoutAdds<S, T>(pending: seq<T>, state: S, visit: (S, T) -> (S, seq<T>), truthy: T -> bool, fuel: nat)
    requires forall s, x :: visit(s, x).1 == []
    requires fuel >= |pending|
    ensures DrainFifo(pending, state, visit, truthy, fuel).visited == Filter(truthy, pending)
    ensures DrainFifo(pending, state, visit, truthy, fuel).pending == []
    decreases fuel
  {
    if pending != [] {
      var item := pending[0];
      assert visit(state, item).1 == [];
      assert pending[1..] + [] == pending[1..];
      FifoWithoutAdds(pending[1..], if truthy(item) then visit(state, item).0 else state, visit, truthy, fuel - 1);
    }
  }

  /** One shift of a truthy item, moved from the drain still to come into the part already done. */
  lemma FifoVisitStep<S, T>(taken: seq<T>, visited: seq<T>, added: seq<T>, pending: seq<T>, state: S,
                            visit: (S, T) -> (S, seq<T>), truthy: T -> bool, fuel: nat)
    requires pending != [] && fuel > 0 && truthy(Front(pending))
    ensures var item, step := Front(pending), visit(state, Front(pending));
      Prepend(taken, visited, added, DrainFifo(pending, state, visit, truthy, fuel))
      == Prepend(taken + [item], visited + [item], added + step.1, DrainFifo(Behind(pending) + step.1, step.0, visit, truthy, fuel - 1))
  {
    var item, step := Front(pending), visit(state, Front(pending));
    PrependTwice(taken, visited, added, [item], [item], step.1, DrainFifo(Behind(pending) + step.1, step.0, visit, truthy, fuel - 1));
  }

  /** One shift of a falsy item, moved from the drain still to come into the part already done. */
  lemma FifoDropStep<S, T>(taken: seq<T>, visited: seq<T>, added: seq<T>, pending: seq<T>, state: S,
                           visit: (S, T) -> (S, seq<T>), truthy: T -> bool, fuel: nat)
    requires pending != [] && fuel > 0 && !truthy(Front(pending))
    ensures Prepend(taken, visited, added, DrainFifo(pending, state, visit, truthy, fuel))
      == Prepend(taken + [Front(pending)], visited, added, DrainFifo(Behind(pending), state, visit, truthy, fuel - 1))
  {
    PrependTwice(taken, visited, added, [Front(pending)], [], [], DrainFifo(Behind(pending), state, visit, truthy, fuel - 1));
    assert visited + [] == visited && added + [] == added;
  }

  class Queue<T> {
    var queue: seq<T>
    /** JavaScript truthiness of the item type: falsy items are dropped unvisited. */
    const truthy: T -> bool

    constructor (truthy: T -> bool)
      ensures queue == [] && this.truthy == truthy
    {
      queue := [];
      this.truthy := truthy;
    }

    method Enqueue(item: T)
      modifies this
      ensures queue == old(queue) + [item]
      ensures Length() == old(Length()) + 1
    {
      queue := queue + [item];
    }

    function Length(): nat
      reads this
    {
      |queue|
    }

    /** `process(fn)`, bounded by `fuel` shifts; returns the callback's final state and the items it saw. */
    method Process<S>(visit: (S, T) -> (S, seq<T>), state: S, fuel: nat) returns (final: S, visited: seq<T>)
      modifies this
      ensures var d := DrainFifo(old(queue), state, visit, truthy, fuel);
        final == d.state && visited == d.visited && queue == d.pending
    {
      final, visited := state, [];
      ghost var taken, added := [], [];
      var pending, steps := queue, 0;
      while pending != [] && steps < fuel
        invariant steps <= fuel
        invariant DrainFifo(old(queue), state, visit, truthy, fuel)
          == Prepend(taken, visited, added, DrainFifo(pending, final, visit, truthy, fuel - steps))
        decreases fuel - steps
      {
        var item := Front(pending);
        if truthy(item) {
          var step := visit(final, item);
          FifoVisitStep(taken, visited, added, pending, final, visit, truthy, fuel - steps);
          final := step.0;
          visited, added := visited + [item], added + step.1;
          pending := Behind(pending) + step.1;
        } else {
          FifoDropStep(taken, visited, added, pending, final, visit, truthy, fuel - steps);
          pending := Behind(pending);
        }
        taken := taken + [item];
        steps := steps + 1;
      }
      queue := pending;
    }
  }
}
