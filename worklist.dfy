/**
 * Vocabulary shared by the worklists (`Queue`, `Stack`, `CyclicQueue`, `PriorityQueue`).
 * Their `process(fn)` drains the structure, calling `fn` on every truthy item; `fn` may
 * enqueue further items. The callback is modelled as a function `visit(state, item)`
 * returning the caller's new state and the items it enqueues, in order.
 */
module Worklist {
  /**
   * What (a bounded prefix of) a drain did: the callback's final state, every item taken
   * off the structure, the items handed to the callback, the items the callback added,
   * and the items still pending.
   */
  datatype Drain<S, T> = Drain(state: S, taken: seq<T>, visited: seq<T>, added: seq<T>, pending: seq<T>)

  function Prepend<S, T>(taken: seq<T>, visited: seq<T>, added: seq<T>, d: Drain<S, T>): Drain<S, T>
  {
    Drain(d.state, taken + d.taken, visited + d.visited, added + d.added, d.pending)
  }

  lemma PrependTwice<S, T>(a: seq<T>, b: seq<T>, c: seq<T>, x: seq<T>, y: seq<T>, z: seq<T>, d: Drain<S, T>)
    ensures Prepend(a, b, c, Prepend(x, y, z, d)) == Prepend(a + x, b + y, c + z, d)
  {
    assert a + (x + d.taken) == (a + x) + d.taken;
    assert b + (y + d.visited) == (b + y) + d.visited;
    assert c + (z + d.added) == (c + z) + d.added;
  }

  /** The elements of `s` satisfying `p`, in order. */
  function Filter<T>(p: T -> bool, s: seq<T>): seq<T>
  {
    if s == [] then [] else (if p(s[0]) then [s[0]] else []) + Filter(p, s[1..])
  }

  lemma {:induction false} FilterAppend<T>(p: T -> bool, a: seq<T>, b: seq<T>)
    ensures Filter(p, a + b) == Filter(p, a) + Filter(p, b)
    decreases |a|
  {
    if a == [] {
      assert a + b == b;
    } else {
      var head := if p(a[0]) then [a[0]] else [];
      assert (a + b)[0] == a[0] && (a + b)[1..] == a[1..] + b;
      FilterAppend(p, a[1..], b);
      assert Filter(p, a + b) == head + (Filter(p, a[1..]) + Filter(p, b));
      assert Filter(p, a) == head + Filter(p, a[1..]);
    }
  }

  function Reverse<T>(s: seq<T>): seq<T>
  {
    if s == [] then [] else [s[|s| - 1]] + Reverse(s[..|s| - 1])
  }
}
