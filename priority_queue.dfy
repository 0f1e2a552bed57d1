/**
 * `PriorityQueue<T>`: two parallel arrays, `queue` and `priorities`, kept in priority order
 * by sorted insertion (not a heap) and popped from the end. With `ascending` the stored
 * priorities run upwards, so the highest is popped first; otherwise they run downwards and
 * the lowest is popped first.
 */
module PriorityQueue {
  import opened Wrappers
  import opened Worklist
  import opened Stack

  /** `q` lies strictly beyond `p` in the queue's order. */
  predicate Beyond(q: int, p: int, ascending: bool)
  {
    if ascending then q > p else q < p
  }

  /** `priorities.findIndex(q => beyond)`, with -1 as `None`. */
  function InsertIndex(priorities: seq<int>, p: int, ascending: bool): (r: Option<nat>)
    ensures r.Some? ==> r.value < |priorities| && Beyond(priorities[r.value], p, ascending)
    ensures r.Some? ==> forall j :: 0 <= j < r.value ==> !Beyond(priorities[j], p, ascending)
    ensures r.None? ==> forall j :: 0 <= j < |priorities| ==> !Beyond(priorities[j], p, ascending)
  {
    if priorities == [] then None
    else if Beyond(priorities[0], p, ascending) then Some(0)
    else match InsertIndex(priorities[1..], p, ascending)
      case None => None
      case Some(k) => Some(k + 1)
  }

  /** Where `SpliceIn` puts the new element. */
  function Position<T>(s: seq<T>, index: Option<nat>): nat
  {
    if index.Some? && index.value < |s| then index.value else |s|
  }

  /** `s.splice(k, 0, x)` for `Some(k)` (at the end when `k` is past it), `s.push(x)` for `None`. */
  function SpliceIn<T>(s: seq<T>, index: Option<nat>, x: T): (r: seq<T>)
    ensures |r| == |s| + 1 && r[Position(s, index)] == x
    ensures forall i :: 0 <= i < Position(s, index) ==> r[i] == s[i]
    ensures forall i :: Position(s, index) < i < |r| ==> r[i] == s[i - 1]
  {
    var k := Position(s, index);
    s[..k] + [x] + s[k..]
  }

  predicate Ordered(priorities: seq<int>, ascending: bool)
  {
    forall i, j :: 0 <= i < j < |priorities| ==> !Beyond(priorities[i], priorities[j], ascending)
  }

  predicate Aligned<T>(queue: seq<T>, priorities: seq<int>, priority: T -> int)
  {
    |queue| == |priorities| && forall i :: 0 <= i < |queue| ==> priorities[i] == priority(queue[i])
  }

  /** What `enqueue` does to the two arrays. */
  function Enqueued<T>(queue: seq<T>, priorities: seq<int>, item: T, priority: T -> int, ascending: bool): (seq<T>, seq<int>)
  {
    var k := InsertIndex(priorities, priority(item), ascending);
    (SpliceIn(queue, k, item), SpliceIn(priorities, k, priority(item)))
  }

  /** The callback's `enqueue` calls, in order. */
  function EnqueueAll<T>(queue: seq<T>, priorities: seq<int>, items: seq<T>, priority: T -> int, ascending: bool): (r: (seq<T>, seq<int>))
    ensures |r.0| == |queue| + |items| && |r.1| == |priorities| + |items|
    decreases |items|
  {
    if items == [] then (queue, priorities)
    else
      var e := Enqueued(queue, priorities, items[0], priority, ascending);
      EnqueueAll(e.0, e.1, items[1..], priority, ascending)
  }

  /** `enqueue` loses no item and adds only the new one. */
  lemma EnqueuedElements<T>(queue: seq<T>, priorities: seq<int>, item: T, priority: T -> int, ascending: bool)
    ensures multiset(Enqueued(queue, priorities, item, priority, ascending).0) == multiset(queue) + multiset{item}
  {
    var k := Position(queue, InsertIndex(priorities, priority(item), ascending));
    assert queue == queue[..k] + queue[k..];
  }

  /** A run of `enqueue` calls keeps what was queued and adds exactly the new items. */
  lemma {:induction false} EnqueueAllElements<T>(queue: seq<T>, priorities: seq<int>, items: seq<T>, priority: T -> int, ascending: bool)
    ensures multiset(EnqueueAll(queue, priorities, items, priority, ascending).0) == multiset(queue) + multiset(items)
    decreases |items|
  {
    if items != [] {
      var e := Enqueued(queue, priorities, items[0], priority, ascending);
      EnqueuedElements(queue, priorities, items[0], priority, ascending);
      EnqueueAllElements(e.0, e.1, items[1..], priority, ascending);
      assert items == [items[0]] + items[1..];
    }
  }

  /** Enqueueing one more item after a run of `enqueue` calls. */
  lemma {:induction false} EnqueueAllSnoc<T>(queue: seq<T>, priorities: seq<int>, items: seq<T>, item: T, priority: T -> int, ascending: bool)
    ensures var e := EnqueueAll(queue, priorities, items, priority, ascending);
      EnqueueAll(queue, priorities, items + [item], priority, ascending) == Enqueued(e.0, e.1, item, priority, ascending)
    decreases |items|
  {
    if items == [] {
      assert [] + [item] == [item];
    } else {
      var e := Enqueued(queue, priorities, items[0], priority, ascending);
      assert (items + [item])[1..] == items[1..] + [item];
      EnqueueAllSnoc(e.0, e.1, items[1..], item, priority, ascending);
    }
  }

  /** Inserting keeps the stored priorities ordered; the new one goes after every equal one. */
  lemma InsertKeepsOrder(priorities: seq<int>, p: int, ascending: bool)
    requires Ordered(priorities, ascending)
    ensures var k := Position(priorities, InsertIndex(priorities, p, ascending));
      Ordered(SpliceIn(priorities, InsertIndex(priorities, p, ascending), p), ascending)
      && forall j :: 0 <= j < |priorities| && priorities[j] == p ==> j < k
  {
    var index := InsertIndex(priorities, p, ascending);
    var k := Position(priorities, index);
    var r := SpliceIn(priorities, index, p);
    assert |r| == |priorities| + 1;
    forall j | k <= j < |priorities| ensures Beyond(priorities[j], p, ascending) {
      assert !Beyond(priorities[k], priorities[j], ascending);
    }
    forall i, j | 0 <= i < j < |r| ensures !Beyond(r[i], r[j], ascending) {
      if j < k || i > k {
      } else if i == k {
        assert r[j] == priorities[j - 1];
      } else {
        assert r[i] == priorities[i];
      }
    }
  }

  /** On aligned, ordered arrays, `enqueue` keeps them aligned and ordered. */
  lemma EnqueueKeepsInvariant<T>(queue: seq<T>, priorities: seq<int>, item: T, priority: T -> int, ascending: bool)
    requires Aligned(queue, priorities, priority) && Ordered(priorities, ascending)
    ensures var e := Enqueued(queue, priorities, item, priority, ascending);
      Aligned(e.0, e.1, priority) && Ordered(e.1, ascending) && |e.0| == |queue| + 1
  {
    InsertKeepsOrder(priorities, priority(item), ascending);
    var index := InsertIndex(priorities, priority(item), ascending);
    assert Position(queue, index) == Position(priorities, index);
  }

  lemma {:induction false} EnqueueAllKeepsInvariant<T>(queue: seq<T>, priorities: seq<int>, items: seq<T>, priority: T -> int, ascending: bool)
    requires Aligned(queue, priorities, priority) && Ordered(priorities, ascending)
    ensures var e := EnqueueAll(queue, priorities, items, priority, ascending);
      Aligned(e.0, e.1, priority) && Ordered(e.1, ascending)
    decreases |items|
  {
    if items != [] {
      EnqueueKeepsInvariant(queue, priorities, items[0], priority, ascending);
      var e := Enqueued(queue, priorities, items[0], priority, ascending);
      EnqueueAllKeepsInvariant(e.0, e.1, items[1..], priority, ascending);
    }
  }

  /**
   * `process` as written: pop the last item of `queue` (leaving `priorities` alone), hand a
   * truthy item to the callback and `enqueue` what it returns, at most `fuel` pops.
   */
  function DrainAsWritten<S, T>(queue: seq<T>, priorities: seq<int>, state: S, visit: (S, T) -> (S, seq<T>),
                                truthy: T -> bool, priority: T -> int, ascending: bool, fuel: nat): (Drain<S, T>, seq<int>)
    decreases fuel
  {
    if queue == [] || fuel == 0 then (Drain(state, [], [], [], queue), priorities)
    else
      var item := Last(queue);
      if !truthy(item) then
        var r := DrainAsWritten(Init(queue), priorities, state, visit, truthy, priority, ascending, fuel - 1);
        (Prepend([item], [], [], r.0), r.1)
      else
        var step := visit(state, item);
        var e := EnqueueAll(Init(queue), priorities, step.1, priority, ascending);
        var r := DrainAsWritten(e.0, e.1, step.0, visit, truthy, priority, ascending, fuel - 1);
        (Prepend([item], [item], step.1, r.0), r.1)
  }

  /** The corrected drain: each pop removes the item's priority along with it. */
  function DrainAligned<S, T>(queue: seq<T>, priorities: seq<int>, state: S, visit: (S, T) -> (S, seq<T>),
                              truthy: T -> bool, priority: T -> int, ascending: bool, fuel: nat): (Drain<S, T>, seq<int>)
    requires |queue| == |priorities|
    decreases fuel
  {
    if queue == [] || fuel == 0 then (Drain(state, [], [], [], queue), priorities)
    else
      var item := Last(queue);
      if !truthy(item) then
        var r := DrainAligned(Init(queue), Init(priorities), state, visit, truthy, priority, ascending, fuel - 1);
        (Prepend([item], [], [], r.0), r.1)
      else
        var step := visit(state, item);
        var e := EnqueueAll(Init(queue), Init(priorities), step.1, priority, ascending);
        var r := DrainAligned(e.0, e.1, step.0, visit, truthy, priority, ascending, fuel - 1);
        (Prepend([item], [item], step.1, r.0), r.1)
  }

  lemma AlignedInit<T>(queue: seq<T>, priorities: seq<int>, priority: T -> int, ascending: bool)
    requires queue != [] && Aligned(queue, priorities, priority) && Ordered(priorities, ascending)
    ensures Aligned(Init(queue), Init(priorities), priority) && Ordered(Init(priorities), ascending)
  {
  }

  /**
   * On aligned, ordered arrays the popped (last) item is the extreme one: with `ascending`
   * false no pending item has a lower priority, with `ascending` no pending item a higher one.
   */
  lemma PopIsExtreme<T>(queue: seq<T>, priorities: seq<int>, priority: T -> int, ascending: bool)
    requires queue != [] && Aligned(queue, priorities, priority) && Ordered(priorities, ascending)
    ensures forall i :: 0 <= i < |queue| ==> !Beyond(priority(queue[i]), priority(Last(queue)), ascending)
  {
    forall i | 0 <= i < |queue| ensures !Beyond(priority(queue[i]), priority(Last(queue)), ascending) {
      if i < |queue| - 1 {
        assert !Beyond(priorities[i], priorities[|queue| - 1], ascending);
      }
    }
  }

  /** The corrected drain keeps the arrays aligned and ordered throughout. */
  lemma {:induction false} DrainAlignedKeepsInvariant<S, T>(queue: seq<T>, priorities: seq<int>, state: S, visit: (S, T) -> (S, seq<T>),
                                                  truthy: T -> bool, priority: T -> int, ascending: bool, fuel: nat)
    requires Aligned(queue, priorities, priority) && Ordered(priorities, ascending)
    ensures var r := DrainAligned(queue, priorities, state, visit, truthy, priority, ascending, fuel);
      Aligned(r.0.pending, r.1, priority) && Ordered(r.1, ascending)
    decreases fuel
  {
    if queue != [] && fuel > 0 {
      AlignedInit(queue, priorities, priority, ascending);
      var item := Last(queue);
      if !truthy(item) {
        DrainAlignedKeepsInvariant(Init(queue), Init(priorities), state, visit, truthy, priority, ascending, fuel - 1);
      } else {
        var step := visit(state, item);
        EnqueueAllKeepsInvariant(Init(queue), Init(priorities), step.1, priority, ascending);
        var e := EnqueueAll(Init(queue), Init(priorities), step.1, priority, ascending);
        DrainAlignedKeepsInvariant(e.0, e.1, step.0, visit, truthy, priority, ascending, fuel - 1);
      }
    }
  }

  /**
   * The source's drain leaves `priorities` untouched by pops: draining an aligned queue whose
   * callback enqueues nothing empties `queue` but keeps every stored priority.
   */
  lemma {:induction false} DrainAsWrittenKeepsPriorities<S, T>(queue: seq<T>, priorities: seq<int>, state: S, visit: (S, T) -> (S, seq<T>),
                                                     truthy: T -> bool, priority: T -> int, ascending: bool, fuel: nat)
    requires forall s, x :: visit(s, x).1 == []
    requires fuel >= |queue|
    ensures var r := DrainAsWritten(queue, priorities, state, visit, truthy, priority, ascending, fuel);
      r.0.pending == [] && r.1 == priorities
    decreases fuel
  {
    if queue != [] {
      var item := Last(queue);
      var next := if truthy(item) then visit(state, item).0 else state;
      assert visit(state, item).1 == [];
      DrainAsWrittenKeepsPriorities(Init(queue), priorities, next, visit, truthy, priority, ascending, fuel - 1);
    }
  }

  /**
   * The stale priorities then misplace later items. With `ascending` false and each item its
   * own priority: enqueue 5, 2, 1 and drain; enqueue 1, then 2. The queue is [1, 2], so 2 is
   * popped before 1 although the lowest priority should come first.
   */
  lemma StalePrioritiesMisorder()
    ensures var id := (x: int) => x;
      var e1 := EnqueueAll([], [], [5, 2, 1], id, false);
      var drained := DrainAsWritten(e1.0, e1.1, 0, (s: int, x: int) => (s, []), (x: int) => true, id, false, 3);
      var e2 := EnqueueAll(drained.0.pending, drained.1, [1, 2], id, false);
      e1.0 == [5, 2, 1] && drained.0.pending == [] && drained.1 == [5, 2, 1]
      && e2.0 == [1, 2] && !Ordered(e2.0, false)
  {
    var id := (x: int) => x;
    FirstEnqueues(id);
    DrainAsWrittenKeepsPriorities([5, 2, 1], [5, 2, 1], 0, (s: int, x: int) => (s, []), (x: int) => true, id, false, 3);
    LaterEnqueues(id);
    assert Beyond(1, 2, false);
  }

  /** A finished prefix of a drain followed by the rest of it, priorities carried along. */
  function Resume<S, T>(taken: seq<T>, visited: seq<T>, added: seq<T>, rest: (Drain<S, T>, seq<int>)): (Drain<S, T>, seq<int>)
  {
    (Prepend(taken, visited, added, rest.0), rest.1)
  }

  lemma FirstEnqueues(id: int -> int)
    requires forall x :: id(x) == x
    ensures EnqueueAll([], [], [5, 2, 1], id, false) == ([5, 2, 1], [5, 2, 1])
  {
    assert InsertIndex([], 5, false) == None;
    assert SpliceIn([], None, 5) == [5];
    assert Enqueued([], [], 5, id, false) == ([5], [5]);
    assert InsertIndex([5], 2, false) == None;
    assert SpliceIn([5], None, 2) == [5, 2];
    assert Enqueued([5], [5], 2, id, false) == ([5, 2], [5, 2]);
    assert InsertIndex([5, 2], 1, false) == None;
    assert SpliceIn([5, 2], None, 1) == [5, 2, 1];
    assert Enqueued([5, 2], [5, 2], 1, id, false) == ([5, 2, 1], [5, 2, 1]);
  }

  lemma LaterEnqueues(id: int -> int)
    requires forall x :: id(x) == x
    ensures EnqueueAll([], [5, 2, 1], [1, 2], id, false) == ([1, 2], [5, 2, 2, 1, 1])
  {
    assert InsertIndex([5, 2, 1], 1, false) == None;
    assert SpliceIn([], None, 1) == [1];
    assert SpliceIn([5, 2, 1], None, 1) == [5, 2, 1, 1];
    assert Enqueued([], [5, 2, 1], 1, id, false) == ([1], [5, 2, 1, 1]);
    assert InsertIndex([5, 2, 1, 1], 2, false) == Some(2);
    assert SpliceIn([1], Some(2), 2) == [1, 2];
    assert SpliceIn([5, 2, 1, 1], Some(2), 2) == [5, 2, 2, 1, 1];
    assert Enqueued([1], [5, 2, 1, 1], 2, id, false) == ([1, 2], [5, 2, 2, 1, 1]);
  }

  /** One pop of a truthy item by the drain as written, moved into the part already done. */
  lemma WrittenVisitStep<S, T>(taken: seq<T>, visited: seq<T>, added: seq<T>, queue: seq<T>, priorities: seq<int>, state: S,
                               visit: (S, T) -> (S, seq<T>), truthy: T -> bool, priority: T -> int, ascending: bool, fuel: nat)
    requires queue != [] && fuel > 0 && truthy(Last(queue))
    ensures var item, step := Last(queue), visit(state, Last(queue));
      var e := EnqueueAll(Init(queue), priorities, step.1, priority, ascending);
      Resume(taken, visited, added, DrainAsWritten(queue, priorities, state, visit, truthy, priority, ascending, fuel))
      == Resume(taken + [item], visited + [item], added + step.1, DrainAsWritten(e.0, e.1, step.0, visit, truthy, priority, ascending, fuel - 1))
  {
    var item, step := Last(queue), visit(state, Last(queue));
    var e := EnqueueAll(Init(queue), priorities, step.1, priority, ascending);
    PrependTwice(taken, visited, added, [item], [item], step.1, DrainAsWritten(e.0, e.1, step.0, visit, truthy, priority, ascending, fuel - 1).0);
  }

  /** One pop of a falsy item by the drain as written, moved into the part already done. */
  lemma WrittenDropStep<S, T>(taken: seq<T>, visited: seq<T>, added: seq<T>, queue: seq<T>, priorities: seq<int>, state: S,
                              visit: (S, T) -> (S, seq<T>), truthy: T -> bool, priority: T -> int, ascending: bool, fuel: nat)
    requires queue != [] && fuel > 0 && !truthy(Last(queue))
    ensures Resume(taken, visited, added, DrainAsWritten(queue, priorities, state, visit, truthy, priority, ascending, fuel))
      == Resume(taken + [Last(queue)], visited, added, DrainAsWritten(Init(queue), priorities, state, visit, truthy, priority, ascending, fuel - 1))
  {
    PrependTwice(taken, visited, added, [Last(queue)], [], [], DrainAsWritten(Init(queue), priorities, state, visit, truthy, priority, ascending, fuel - 1).0);
    assert visited + [] == visited && added + [] == added;
  }

  /** One pop of a truthy item by the corrected drain, moved into the part already done. */
  lemma AlignedVisitStep<S, T>(taken: seq<T>, visited: seq<T>, added: seq<T>, queue: seq<T>, priorities: seq<int>, state: S,
                               visit: (S, T) -> (S, seq<T>), truthy: T -> bool, priority: T -> int, ascending: bool, fuel: nat)
    requires queue != [] && fuel > 0 && truthy(Last(queue))
    requires Aligned(queue, priorities, priority) && Ordered(priorities, ascending)
    ensures var item, step := Last(queue), visit(state, Last(queue));
      var e := EnqueueAll(Init(queue), Init(priorities), step.1, priority, ascending);
      Aligned(e.0, e.1, priority) && Ordered(e.1, ascending)
      && Resume(taken, visited, added, DrainAligned(queue, priorities, state, visit, truthy, priority, ascending, fuel))
         == Resume(taken + [item], visited + [item], added + step.1, DrainAligned(e.0, e.1, step.0, visit, truthy, priority, ascending, fuel - 1))
  {
    var item, step := Last(queue), visit(state, Last(queue));
    AlignedInit(queue, priorities, priority, ascending);
    EnqueueAllKeepsInvariant(Init(queue), Init(priorities), step.1, priority, ascending);
    var e := EnqueueAll(Init(queue), Init(priorities), step.1, priority, ascending);
    PrependTwice(taken, visited, added, [item], [item], step.1, DrainAligned(e.0, e.1, step.0, visit, truthy, priority, ascending, fuel - 1).0);
  }

  /** One pop of a falsy item by the corrected drain, moved into the part already done. */
  lemma AlignedDropStep<S, T>(taken: seq<T>, visited: seq<T>, added: seq<T>, queue: seq<T>, priorities: seq<int>, state: S,
                              visit: (S, T) -> (S, seq<T>), truthy: T -> bool, priority: T -> int, ascending: bool, fuel: nat)
    requires queue != [] && fuel > 0 && !truthy(Last(queue))
    requires Aligned(queue, priorities, priority) && Ordered(priorities, ascending)
    ensures Aligned(Init(queue), Init(priorities), priority) && Ordered(Init(priorities), ascending)
    ensures Resume(taken, visited, added, DrainAligned(queue, priorities, state, visit, truthy, priority, ascending, fuel))
      == Resume(taken + [Last(queue)], visited, added, DrainAligned(Init(queue), Init(priorities), state, visit, truthy, priority, ascending, fuel - 1))
  {
    AlignedInit(queue, priorities, priority, ascending);
    PrependTwice(taken, visited, added, [Last(queue)], [], [], DrainAligned(Init(queue), Init(priorities), state, visit, truthy, priority, ascending, fuel - 1).0);
    assert visited + [] == visited && added + [] == added;
  }

  lemma ResumeEmpty<S, T>(r: (Drain<S, T>, seq<int>))
    ensures Resume([], [], [], r) == r
  {
    assert [] + r.0.taken == r.0.taken && [] + r.0.visited == r.0.visited && [] + r.0.added == r.0.added;
  }

  class PriorityQueue<T> {
    var queue: seq<T>
    var priorities: seq<int>
    const priority: T -> int
    const ascending: bool
    /** JavaScript truthiness of the item type: falsy items are dropped unvisited. */
    const truthy: T -> bool

    constructor (priority: T -> int, ascending: bool, truthy: T -> bool)
      ensures queue == [] && priorities == []
      ensures this.priority == priority && this.ascending == ascending && this.truthy == truthy
    {
      queue, priorities := [], [];
      this.priority, this.ascending, this.truthy := priority, ascending, truthy;
    }

    /** Aligned, ordered arrays: what `enqueue` alone maintains and the corrected members keep. */
    ghost predicate Valid()
      reads this
    {
      Aligned(queue, priorities, priority) && Ordered(priorities, ascending)
    }

    method Enqueue(item: T)
      modifies this
      ensures (queue, priorities) == Enqueued(old(queue), old(priorities), item, priority, ascending)
      ensures Length() == old(Length()) + 1
      ensures old(Valid()) ==> Valid()
    {
      var index := InsertIndex(priorities, priority(item), ascending);
      if Valid() {
        EnqueueKeepsInvariant(queue, priorities, item, priority, ascending);
      }
      queue := SpliceIn(queue, index, item);
      priorities := SpliceIn(priorities, index, priority(item));
    }

    function Length(): nat
      reads this
    {
      |queue|
    }

    /** `process(fn)` as written, bounded by `fuel` pops. */
    method Process<S>(visit: (S, T) -> (S, seq<T>), state: S, fuel: nat) returns (final: S, visited: seq<T>)
      modifies this
      ensures var r := DrainAsWritten(old(queue), old(priorities), state, visit, truthy, priority, ascending, fuel);
        final == r.0.state && visited == r.0.visited && queue == r.0.pending && priorities == r.1
    {
      final, visited := state, [];
      ghost var taken, added := [], [];
      var pending, ps, steps := queue, priorities, 0;
      ghost var whole := DrainAsWritten(pending, ps, state, visit, truthy, priority, ascending, fuel);
      ResumeEmpty(whole);
      while pending != [] && steps < fuel
        invariant steps <= fuel
        invariant whole == Resume(taken, visited, added, DrainAsWritten(pending, ps, final, visit, truthy, priority, ascending, fuel - steps))
        decreases fuel - steps
      {
        var item := Last(pending);
        if truthy(item) {
          var step := visit(final, item);
          var e := EnqueueAll(Init(pending), ps, step.1, priority, ascending);
          WrittenVisitStep(taken, visited, added, pending, ps, final, visit, truthy, priority, ascending, fuel - steps);
          final := step.0;
          visited, added := visited + [item], added + step.1;
          pending, ps := e.0, e.1;
        } else {
          WrittenDropStep(taken, visited, added, pending, ps, final, visit, truthy, priority, ascending, fuel - steps);
          pending := Init(pending);
        }
        taken := taken + [item];
        steps := steps + 1;
      }
      queue, priorities := pending, ps;
    }

    /** One pop of `process`: the last item leaves `queue`; its priority stays behind in `priorities`. */
    method Pop() returns (item: T)
      requires queue != []
      modifies this
      ensures item == Last(old(queue)) && queue == Init(old(queue)) && priorities == old(priorities)
    {
      item := Last(queue);
      queue := Init(queue);
    }

    /** `reset` as written: `queue.length = 0`; the priorities stay. */
    method Reset()
      modifies this
      ensures queue == [] && priorities == old(priorities)
    {
      queue := [];
    }

    /** The corrected `process`: pops drop the popped priority too, so the queue stays valid. */
    method ProcessAligned<S>(visit: (S, T) -> (S, seq<T>), state: S, fuel: nat) returns (final: S, visited: seq<T>)
      requires Valid()
      modifies this
      ensures Valid()
      ensures var r := DrainAligned(old(queue), old(priorities), state, visit, truthy, priority, ascending, fuel);
        final == r.0.state && visited == r.0.visited && queue == r.0.pending && priorities == r.1
    {
      final, visited := state, [];
      ghost var taken, added := [], [];
      var pending, ps, steps := queue, priorities, 0;
      ghost var whole := DrainAligned(pending, ps, state, visit, truthy, priority, ascending, fuel);
      ResumeEmpty(whole);
      while pending != [] && steps < fuel
        invariant steps <= fuel
        invariant Aligned(pending, ps, priority) && Ordered(ps, ascending)
        invariant whole == Resume(taken, visited, added, DrainAligned(pending, ps, final, visit, truthy, priority, ascending, fuel - steps))
        decreases fuel - steps
      {
        var item := Last(pending);
        if truthy(item) {
          var step := visit(final, item);
          var e := EnqueueAll(Init(pending), Init(ps), step.1, priority, ascending);
          AlignedVisitStep(taken, visited, added, pending, ps, final, visit, truthy, priority, ascending, fuel - steps);
          final := step.0;
          visited, added := visited + [item], added + step.1;
          pending, ps := e.0, e.1;
        } else {
          AlignedDropStep(taken, visited, added, pending, ps, final, visit, truthy, priority, ascending, fuel - steps);
          pending, ps := Init(pending), Init(ps);
        }
        taken := taken + [item];
        steps := steps + 1;
      }
      queue, priorities := pending, ps;
    }

    /** The corrected `reset`: both arrays are emptied. */
    method ResetAligned()
      modifies this
      ensures Valid() && queue == [] && priorities == []
    {
      queue, priorities := [], [];
    }
  }
}
