/** `CyclicQueue<T>`: the same FIFO drain as `Queue`, without `length`. */
module CyclicQueue {
  import opened Worklist
  import opened Queue

  class CyclicQueue<T> {
    var queue: seq<T>
    /** JavaScript truthiness of the item type: falsy items are dropped unvisited. */
    const truthy: T -> bool

    constructor (truthy: T -> bool)
      ensures queue == [] && this.truthy == truthy
    {
      queue := [];
      this.truthy := truthy;
    }

    method Enqueue(item: T)
      modifies this
      ensures queue == old(queue) + [item]
    {
      queue := queue + [item];
    }

    /** `process(fn)`, bounded by `fuel` shifts; returns the callback's final state and the items it saw. */
    method Process<S>(visit: (S, T) -> (S, seq<T>), state: S, fuel: nat) returns (final: S, visited: seq<T>)
      modifies this
      ensures var d := DrainFifo(old(queue), state, visit, truthy, fuel);
        final == d.state && visited == d.visited && queue == d.pending
    {
      final, visited := state, [];
      ghost var taken, added := [], [];
      var pending, steps := queue, 0;
      while pending != [] && steps < fuel
        invariant steps <= fuel
        invariant DrainFifo(old(queue), state, visit, truthy, fuel)
          == Prepend(taken, visited, added, DrainFifo(pending, final, visit, truthy, fuel - steps))
        decreases fuel - steps
      {
        var item := Front(pending);
        if truthy(item) {
          var step := visit(final, item);
          FifoVisitStep(taken, visited, added, pending, final, visit, truthy, fuel - steps);
          final := step.0;
          visited, added := visited + [item], added + step.1;
          pending := Behind(pending) + step.1;
        } else {
          FifoDropStep(taken, visited, added, pending, final, visit, truthy, fuel - steps);
          pending := Behind(pending);
        }
        taken := taken + [item];
        steps := steps + 1;
      }
      queue := pending;
    }
  }
}
