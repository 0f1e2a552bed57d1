/**
 * `CycleAwareLooper`: runs an action a fixed number of times; once the key the action
 * returns repeats, it skips ahead by whole cycles. The action's side effects are modelled as
 * a function from a state `S` to the next state and its key.
 */
module CycleAwareLooper {
  import opened Wrappers

  /** The state after `k` actions. */
  function Nth<S>(action: S -> (S, string), s: S, k: nat): S
  {
    if k == 0 then s else action(Nth(action, s, k - 1)).0
  }

  /** Equal keys mean equal states: what lets a repeated key stand for a repeated state. */
  ghost predicate KeysIdentify<S(!new)>(action: S -> (S, string))
  {
    forall s, t :: action(s).1 == action(t).1 ==> action(s).0 == action(t).0
  }

  /** `i += Math.floor((aim - i) / length) * length`. */
  function Skip(i: int, aim: int, length: int): (r: int)
    requires i <= aim && length >= 1
    ensures i <= r <= aim && aim - r < length
    ensures (r - i) % length == 0
  {
    var q := (aim - i) / length;
    assert q * length == aim - i - (aim - i) % length;
    i + q * length
  }

  /** The looper's fields, the action's state, and the number of actions run. */
  datatype Looper<S> = Looper(state: S, previous: map<string, int>, cycleStart: Option<int>, cycleLength: Option<int>, calls: nat)

  /** Each stored index lies below the loop counter, so a repeat gives a positive cycle length. */
  ghost predicate Earlier(previous: map<string, int>, i: int)
  {
    forall k :: k in previous ==> previous[k] < i
  }

  /**
   * The `for` loop of `run` from counter `i`. The skip aims at `aim`: `nIterations` as
   * written; `nIterations - 1` when corrected. Keys stored before a cycle is found lie below
   * the counter (the looper is fresh, or was reset).
   */
  function Iterate<S>(action: S -> (S, string), l: Looper<S>, i: int, n: int, aim: int): (r: Looper<S>)
    requires n - 1 <= aim <= n
    requires l.cycleStart.Some? || Earlier(l.previous, i)
    decreases n - i
  {
    if i >= n then l
    else
      var step := action(l.state);
      var key := step.1;
      if key in l.previous && l.cycleStart.None? then
        var start := l.previous[key];
        var j := Skip(i, aim, i - start);
        Iterate(action, Looper(step.0, l.previous[key := j], Some(start), Some(i - start), l.calls + 1), j + 1, n, aim)
      else
        Iterate(action, Looper(step.0, l.previous[key := i], l.cycleStart, l.cycleLength, l.calls + 1), i + 1, n, aim)
  }

  /**
   * The action runs at most once per remaining iteration, and exactly once per iteration
   * when no cycle is found. A cycle, once recorded, is never replaced; a newly found one has
   * length at least 1 and starts below the counter.
   */
  lemma {:induction false} IterateCountsAndCycle<S>(action: S -> (S, string), l: Looper<S>, i: int, n: int, aim: int)
    requires n - 1 <= aim <= n
    requires l.cycleStart.Some? || Earlier(l.previous, i)
    ensures var r := Iterate(action, l, i, n, aim);
      l.calls <= r.calls <= l.calls + (if i >= n then 0 else n - i)
      && (r.cycleStart == l.cycleStart ==> r.calls == l.calls + (if i >= n then 0 else n - i))
      && (l.cycleStart.Some? ==> r.cycleStart == l.cycleStart && r.cycleLength == l.cycleLength)
      && (l.cycleStart.None? && r.cycleStart.Some? ==> r.cycleLength.Some? && r.cycleLength.value >= 1 && r.cycleStart.value < n)
    decreases n - i
  {
    if i < n {
      var step := action(l.state);
      var key := step.1;
      if key in l.previous && l.cycleStart.None? {
        var start := l.previous[key];
        var j := Skip(i, aim, i - start);
        IterateCountsAndCycle(action, Looper(step.0, l.previous[key := j], Some(start), Some(i - start), l.calls + 1), j + 1, n, aim);
      } else {
        IterateCountsAndCycle(action, Looper(step.0, l.previous[key := i], l.cycleStart, l.cycleLength, l.calls + 1), i + 1, n, aim);
      }
    }
  }

  /** A property of states that every action preserves holds of the state the looper ends in. */
  lemma {:induction false} IterateKeeps<S>(action: S -> (S, string), inv: S -> bool, l: Looper<S>, i: int, n: int, aim: int)
    requires n - 1 <= aim <= n
    requires l.cycleStart.Some? || Earlier(l.previous, i)
    requires forall s :: inv(s) ==> inv(action(s).0)
    requires inv(l.state)
    ensures inv(Iterate(action, l, i, n, aim).state)
    decreases n - i
  {
    if i < n {
      var step := action(l.state);
      var key := step.1;
      if key in l.previous && l.cycleStart.None? {
        var start := l.previous[key];
        var j := Skip(i, aim, i - start);
        IterateKeeps(action, inv, Looper(step.0, l.previous[key := j], Some(start), Some(i - start), l.calls + 1), j + 1, n, aim);
      } else {
        IterateKeeps(action, inv, Looper(step.0, l.previous[key := i], l.cycleStart, l.cycleLength, l.calls + 1), i + 1, n, aim);
      }
    }
  }

  lemma {:induction false} Shift<S>(action: S -> (S, string), s: S, a: nat, b: nat, m: nat)
    requires Nth(action, s, a) == Nth(action, s, b)
    ensures Nth(action, s, a + m) == Nth(action, s, b + m)
  {
    if m > 0 {
      Shift(action, s, a, b, m - 1);
    }
  }

  lemma {:induction false} Repeat<S>(action: S -> (S, string), s: S, a: nat, length: nat, q: nat)
    requires Nth(action, s, a) == Nth(action, s, a + length)
    ensures Nth(action, s, a + q * length) == Nth(action, s, a)
  {
    if q > 0 {
      Repeat(action, s, a, length, q - 1);
      Shift(action, s, a, a + length, (q - 1) * length);
      assert a + length + (q - 1) * length == a + q * length;
    }
  }

  /** Every stored key is the key returned by the action on the state of its stored index. */
  ghost predicate Recorded<S>(action: S -> (S, string), s: S, previous: map<string, int>, i: int)
  {
    forall k :: k in previous ==> 0 <= previous[k] < i && action(Nth(action, s, previous[k])).1 == k
  }

  /** The same key after the actions on the states `start` and `i` actions in: the states repeat from `i` on. */
  lemma PeriodFromKey<S(!new)>(action: S -> (S, string), s: S, start: nat, i: nat)
    requires KeysIdentify(action) && start < i
    requires action(Nth(action, s, start)).1 == action(Nth(action, s, i)).1
    ensures Nth(action, s, i) == Nth(action, s, i + (i - start))
  {
    var a, b := Nth(action, s, start), Nth(action, s, i);
    assert action(a).0 == action(b).0;
    assert Nth(action, s, start + 1) == action(a).0 && Nth(action, s, i + 1) == action(b).0;
    Shift(action, s, start + 1, i + 1, i - start - 1);
  }

  /** A jump by whole periods lands on the same state, and on the same next state. */
  lemma Jump<S>(action: S -> (S, string), s: S, i: nat, length: nat, j: nat)
    requires length >= 1 && i <= j && (j - i) % length == 0
    requires Nth(action, s, i) == Nth(action, s, i + length)
    ensures Nth(action, s, j) == Nth(action, s, i) && Nth(action, s, j + 1) == Nth(action, s, i + 1)
  {
    var q := (j - i) / length;
    assert j == i + q * length;
    Repeat(action, s, i, length, q);
    Shift(action, s, j, i, 1);
  }

  lemma RecordAt<S>(action: S -> (S, string), s: S, previous: map<string, int>, i: nat, j: nat, key: string)
    requires Recorded(action, s, previous, i) && i <= j
    requires action(Nth(action, s, j)).1 == key
    ensures Recorded(action, s, previous[key := j], j + 1)
  {
  }

  /** A repeated key under the corrected skip: the state and the records still match the run. */
  lemma CorrectedSkipStep<S(!new)>(action: S -> (S, string), s: S, l: Looper<S>, i: nat, n: int, j: int)
    requires KeysIdentify(action) && i < n
    requires l.state == Nth(action, s, i) && Recorded(action, s, l.previous, i)
    requires action(l.state).1 in l.previous
    requires j == Skip(i, n - 1, i - l.previous[action(l.state).1])
    ensures 0 <= j < n && action(l.state).0 == Nth(action, s, j + 1)
    ensures Recorded(action, s, l.previous[action(l.state).1 := j], j + 1)
  {
    var key := action(l.state).1;
    var start := l.previous[key];
    PeriodFromKey(action, s, start, i);
    Jump(action, s, i, i - start, j);
    RecordAt(action, s, l.previous, i, j, key);
  }

  /** A key stored at the counter: the state and the records still match the run. */
  lemma PlainStep<S>(action: S -> (S, string), s: S, l: Looper<S>, i: nat)
    requires l.state == Nth(action, s, i) && Recorded(action, s, l.previous, i)
    ensures action(l.state).0 == Nth(action, s, i + 1) && Recorded(action, s, l.previous[action(l.state).1 := i], i + 1)
  {
  }

  /** The corrected skip, from any point of a run that started at `s`, ends in the state of `n` actions. */
  lemma {:induction false} CorrectedIterateMatches<S(!new)>(action: S -> (S, string), s: S, l: Looper<S>, i: nat, n: nat)
    requires KeysIdentify(action) && i <= n
    requires l.state == Nth(action, s, i) && Recorded(action, s, l.previous, i)
    ensures Iterate(action, l, i, n, n - 1).state == Nth(action, s, n)
    decreases n - i, 1
  {
    if i < n {
      if action(l.state).1 in l.previous && l.cycleStart.None? {
        CorrectedSkipMatches(action, s, l, i, n);
      } else {
        CorrectedPlainMatches(action, s, l, i, n);
      }
    }
  }

  /** The skip branch of `CorrectedIterateMatches`. */
  lemma {:induction false} CorrectedSkipMatches<S(!new)>(action: S -> (S, string), s: S, l: Looper<S>, i: nat, n: nat)
    requires KeysIdentify(action) && i < n
    requires l.state == Nth(action, s, i) && Recorded(action, s, l.previous, i)
    requires action(l.state).1 in l.previous && l.cycleStart.None?
    ensures Iterate(action, l, i, n, n - 1).state == Nth(action, s, n)
    decreases n - i, 0
  {
    var step := action(l.state);
    var start := l.previous[step.1];
    var j := Skip(i, n - 1, i - start);
    CorrectedSkipStep(action, s, l, i, n, j);
    var next := Looper(step.0, l.previous[step.1 := j], Some(start), Some(i - start), l.calls + 1);
    assert Iterate(action, l, i, n, n - 1) == Iterate(action, next, j + 1, n, n - 1);
    CorrectedIterateMatches(action, s, next, j + 1, n);
  }

  /** The recording branch of `CorrectedIterateMatches`. */
  lemma {:induction false} CorrectedPlainMatches<S(!new)>(action: S -> (S, string), s: S, l: Looper<S>, i: nat, n: nat)
    requires KeysIdentify(action) && i < n
    requires l.state == Nth(action, s, i) && Recorded(action, s, l.previous, i)
    requires !(action(l.state).1 in l.previous && l.cycleStart.None?)
    ensures Iterate(action, l, i, n, n - 1).state == Nth(action, s, n)
    decreases n - i, 0
  {
    var step := action(l.state);
    PlainStep(action, s, l, i);
    var next := Looper(step.0, l.previous[step.1 := i], l.cycleStart, l.cycleLength, l.calls + 1);
    assert Iterate(action, l, i, n, n - 1) == Iterate(action, next, i + 1, n, n - 1);
    CorrectedIterateMatches(action, s, next, i + 1, n);
  }

  /** A fresh run with the corrected skip ends in the state of `nIterations` actions. */
  lemma CorrectedRunMatches<S(!new)>(action: S -> (S, string), s: S, n: int)
    requires KeysIdentify(action)
    ensures Iterate(action, Looper(s, map[], None, None, 0), 0, n, n - 1).state == Nth(action, s, if n <= 0 then 0 else n)
  {
    if n > 0 {
      CorrectedIterateMatches(action, s, Looper(s, map[], None, None, 0), 0, n);
    }
  }

  /** Two states that alternate, each key naming the state reached. */
  function Toggle(b: bool): (bool, string)
  {
    (!b, if b then "off" else "on")
  }

  /**
   * The skip as written overshoots by one iteration when the remaining count is a multiple of
   * the cycle length: four toggles from `false` should end at `false`, but the looper ends at
   * `true`, the state after five.
   */
  lemma SkipAsWrittenOvershoots()
    ensures Iterate(Toggle, Looper(false, map[], None, None, 0), 0, 4, 4).state == true
    ensures Nth(Toggle, false, 4) == false && Nth(Toggle, false, 5) == true
    ensures Iterate(Toggle, Looper(false, map[], None, None, 0), 0, 4, 3).state == false
  {
    var l1 := Looper(true, map["on" := 0], None, None, 1);
    var l2 := Looper(false, map["on" := 0, "off" := 1], None, None, 2);
    assert Iterate(Toggle, Looper(false, map[], None, None, 0), 0, 4, 4) == Iterate(Toggle, l1, 1, 4, 4);
    assert Iterate(Toggle, l1, 1, 4, 4) == Iterate(Toggle, l2, 2, 4, 4);
    assert Skip(2, 4, 2) == 4;
    assert Iterate(Toggle, l2, 2, 4, 4) == Looper(true, map["on" := 4, "off" := 1], Some(0), Some(2), 3);
    assert Iterate(Toggle, Looper(false, map[], None, None, 0), 0, 4, 3) == Iterate(Toggle, l1, 1, 4, 3);
    assert Iterate(Toggle, l1, 1, 4, 3) == Iterate(Toggle, l2, 2, 4, 3);
    assert Skip(2, 3, 2) == 2;
    var l3 := Looper(true, map["on" := 2, "off" := 1], Some(0), Some(2), 3);
    assert Iterate(Toggle, l2, 2, 4, 3) == Iterate(Toggle, l3, 3, 4, 3);
    assert Iterate(Toggle, l3, 3, 4, 3) == Looper(false, map["on" := 2, "off" := 3], Some(0), Some(2), 4);
  }

  class CycleAwareLooper<S> {
    var previousStates: map<string, int>
    var cycleStart: Option<int>
    var cycleLength: Option<int>
    const nIterations: int
    const action: S -> (S, string)

    constructor (nIterations: int, action: S -> (S, string))
      ensures previousStates == map[] && cycleStart == None && cycleLength == None
      ensures this.nIterations == nIterations && this.action == action
    {
      previousStates, cycleStart, cycleLength := map[], None, None;
      this.nIterations, this.action := nIterations, action;
    }

    /** `run` as written, from the action's state `state`; `calls` counts the actions run. */
    method Run(state: S) returns (final: S, calls: nat)
      requires cycleStart.Some? || previousStates == map[]
      modifies this
      ensures Looper(final, previousStates, cycleStart, cycleLength, calls)
        == Iterate(action, Looper(state, old(previousStates), old(cycleStart), old(cycleLength), 0), 0, nIterations, nIterations)
    {
      final, calls := Loop(state, nIterations);
    }

    /** `run` with the skip aimed at the last iteration, so exactly `nIterations` are accounted for. */
    method RunCorrected(state: S) returns (final: S, calls: nat)
      requires cycleStart.Some? || previousStates == map[]
      modifies this
      ensures Looper(final, previousStates, cycleStart, cycleLength, calls)
        == Iterate(action, Looper(state, old(previousStates), old(cycleStart), old(cycleLength), 0), 0, nIterations, nIterations - 1)
    {
      final, calls := Loop(state, nIterations - 1);
    }

    method Loop(state: S, aim: int) returns (final: S, calls: nat)
      requires nIterations - 1 <= aim <= nIterations
      requires cycleStart.Some? || previousStates == map[]
      modifies this
      ensures Looper(final, previousStates, cycleStart, cycleLength, calls)
        == Iterate(action, Looper(state, old(previousStates), old(cycleStart), old(cycleLength), 0), 0, nIterations, aim)
    {
      ghost var whole := Iterate(action, Looper(state, previousStates, cycleStart, cycleLength, 0), 0, nIterations, aim);
      final, calls := state, 0;
      var iCycle := 0;
      while iCycle < nIterations
        invariant cycleStart.Some? || Earlier(previousStates, iCycle)
        invariant Iterate(action, Looper(final, previousStates, cycleStart, cycleLength, calls), iCycle, nIterations, aim) == whole
        decreases nIterations - iCycle
      {
        var step := action(final);
        var iterationKey := step.1;
        final := step.0;
        if iterationKey in previousStates && cycleStart.None? {
          var start := previousStates[iterationKey];
          cycleStart, cycleLength := Some(start), Some(iCycle - start);
          iCycle := Skip(iCycle, aim, iCycle - start);
        }
        previousStates := previousStates[iterationKey := iCycle];
        calls := calls + 1;
        iCycle := iCycle + 1;
      }
    }

    method Reset()
      modifies this
      ensures previousStates == map[] && cycleStart == None && cycleLength == None
    {
      previousStates, cycleStart, cycleLength := map[], None, None;
    }
  }
}
