/**
 * Day 20: a network of modules passing low and high pulses. A flip-flop ('%') toggles on a
 * low pulse and reports its new state; a conjunction ('&') remembers the last pulse from
 * each input and sends low only when all of them were high; the broadcaster forwards what it
 * gets. Part 1 multiplies the low and high pulse counts after 1000 button presses; part 2
 * presses until every input of the module feeding "rx" has sent a high pulse.
 */
module Day20 {
  import opened Wrappers
  import opened Worklist
  import opened Queue
  import opened CustomSet

  datatype PulseType = Low | High

  datatype ModuleType = Broadcaster | FlipFlop | Conjunction

  /**
   * A module object. `isOn` starts out `undefined`, which reads as off; a missing
   * `lastPulseReceivedFrom` reads like an empty record, every source remembered as low.
   */
  datatype Module = Module(name: string, moduleType: ModuleType, inputs: seq<string>, outputs: seq<string>,
                           isOn: bool, lastPulseReceivedFrom: map<string, PulseType>)

  datatype Pulse = Pulse(pulseType: PulseType, source: string, destination: string, sentAt: int)

  /** A line `name -> a, b, c`, split at the arrow and the commas. */
  datatype Line = Line(name: string, outputs: seq<string>)

  /** A '%' or '&' prefix gives that kind of module (its name without the prefix); "broadcaster" is the broadcaster. */
  function ParseLine(line: Line): (r: Result<Module>)
    ensures r.Success? <==> (|line.name| > 0 && (line.name[0] == '%' || line.name[0] == '&')) || line.name == "broadcaster"
    ensures r.Success? ==> r.value.outputs == line.outputs && r.value.inputs == [] && !r.value.isOn && r.value.lastPulseReceivedFrom == map[]
    ensures r.Success? && line.name == "broadcaster" ==> r.value.name == line.name && r.value.moduleType == Broadcaster
    ensures r.Success? && line.name[0] == '%' ==> r.value.name == line.name[1..] && r.value.moduleType == FlipFlop
    ensures r.Success? && line.name[0] == '&' ==> r.value.name == line.name[1..] && r.value.moduleType == Conjunction
    ensures r.Failure? ==> r.error == "Invalid module: " + line.name
  {
    if |line.name| > 0 && line.name[0] == '%' then Success(Module(line.name[1..], FlipFlop, [], line.outputs, false, map[]))
    else if |line.name| > 0 && line.name[0] == '&' then Success(Module(line.name[1..], Conjunction, [], line.outputs, false, map[]))
    else if line.name == "broadcaster" then Success(Module(line.name, Broadcaster, [], line.outputs, false, map[]))
    else Failure("Invalid module: " + line.name)
  }

  /** `names` with every name of `more` it does not yet hold appended, in order. */
  function AppendNew(names: seq<string>, more: seq<string>): (r: seq<string>)
    ensures Distinct(names) ==> Distinct(r)
    ensures forall x :: x in r <==> x in names || x in more
    ensures |r| >= |names| && r[..|names|] == names
    decreases |more|
  {
    if more == [] then names
    else
      var next := if more[0] in names then names else names + [more[0]];
      AppendNew(next, more[1..])
  }

  /** `getInputOf(name)`: the modules, in insertion order, that list `name` among their outputs. */
  function InputsOf(modules: map<string, Module>, order: seq<string>, name: string): seq<string>
    requires forall i :: 0 <= i < |order| ==> order[i] in modules
  {
    if order == [] then []
    else
      var rest := InputsOf(modules, order[1..], name);
      if name in modules[order[0]].outputs then [order[0]] + rest else rest
  }

  /** The inputs found are exactly the listed modules with `name` among their outputs, each once when the order lists each once. */
  lemma {:induction false} InputsOfExactly(modules: map<string, Module>, order: seq<string>, name: string)
    requires forall i :: 0 <= i < |order| ==> order[i] in modules
    ensures forall x :: x in InputsOf(modules, order, name) <==> x in order && name in modules[x].outputs
    ensures Distinct(order) ==> Distinct(InputsOf(modules, order, name))
  {
    if order != [] {
      InputsOfExactly(modules, order[1..], name);
      var rest := InputsOf(modules, order[1..], name);
      if Distinct(order) {
        assert Distinct(order[1..]);
        assert order[0] !in order[1..];
        assert order[0] !in rest;
        var r := [order[0]] + rest;
        forall i, j | 0 <= i < j < |r|
          ensures r[i] != r[j]
        {
          if i == 0 {
            assert r[j] in rest;
          } else {
            assert r[i] == rest[i - 1] && r[j] == rest[j - 1];
          }
        }
      }
    }
  }

  /** Every module's inputs recomputed from the outputs. */
  function Rewired(modules: map<string, Module>, order: seq<string>): (r: map<string, Module>)
    requires forall i :: 0 <= i < |order| ==> order[i] in modules
    ensures r.Keys == modules.Keys && SameOutputs(modules, r)
  {
    map k | k in modules :: modules[k].(inputs := InputsOf(modules, order, k))
  }

  /** Recomputing the inputs is idempotent: afterwards every module has the inputs `getInputOf` finds for it. */
  lemma RewiredIsWired(modules: map<string, Module>, order: seq<string>)
    requires forall i :: 0 <= i < |order| ==> order[i] in modules
    ensures var r := Rewired(modules, order);
      Rewired(r, order) == r && forall k :: k in r ==> r[k].inputs == InputsOf(r, order, k)
  {
    var r := Rewired(modules, order);
    forall k | k in r
      ensures r[k].inputs == InputsOf(r, order, k)
    {
      SameOutputsSameInputs(modules, r, order, k);
    }
  }

  /** Two module maps with the same modules wired the same way. */
  predicate SameWiring(a: map<string, Module>, b: map<string, Module>)
  {
    a.Keys == b.Keys
    && forall k :: k in a ==> (a[k].name == b[k].name && a[k].moduleType == b[k].moduleType
                               && a[k].inputs == b[k].inputs && a[k].outputs == b[k].outputs)
  }

  lemma InputsOfSameWiring(a: map<string, Module>, b: map<string, Module>, order: seq<string>, name: string)
    requires SameWiring(a, b) && forall i :: 0 <= i < |order| ==> order[i] in a
    ensures InputsOf(a, order, name) == InputsOf(b, order, name)
  {
  }

  // Handling one pulse.

  /** The part of the chain a pulse changes: the modules, the pulse counts and `nPressesUntilEmitsHigh`. */
  datatype Network = Network(modules: map<string, Module>, nLow: nat, nHigh: nat, firstHigh: map<string, int>)

  /** `outputPulse(type)`: one pulse to every output, from the module, sent in the same press. */
  function Emit(pulseType: PulseType, source: string, outputs: seq<string>, sentAt: int): (r: seq<Pulse>)
    ensures |r| == |outputs|
    ensures forall i :: 0 <= i < |r| ==> r[i] == Pulse(pulseType, source, outputs[i], sentAt)
  {
    seq(|outputs|, i requires 0 <= i < |outputs| => Pulse(pulseType, source, outputs[i], sentAt))
  }

  /** The conjunction's memory holds a high pulse for every one of its inputs; an unseen input counts as low. */
  predicate RemembersAllHigh(inputs: seq<string>, memory: map<string, PulseType>)
  {
    forall i :: 0 <= i < |inputs| ==> inputs[i] in memory && memory[inputs[i]] == High
  }

  /** What the destination module does with the pulse: its new state and the pulses it sends. */
  function Receive(m: Module, pulse: Pulse): (r: (Module, seq<Pulse>))
    ensures r.0.name == m.name && r.0.moduleType == m.moduleType && r.0.inputs == m.inputs && r.0.outputs == m.outputs
  {
    match m.moduleType
    case Broadcaster => (m, Emit(pulse.pulseType, pulse.destination, m.outputs, pulse.sentAt))
    case FlipFlop =>
      if pulse.pulseType == Low then
        (m.(isOn := !m.isOn), Emit(if m.isOn then Low else High, pulse.destination, m.outputs, pulse.sentAt))
      else (m, [])
    case Conjunction =>
      var memory := m.lastPulseReceivedFrom[pulse.source := pulse.pulseType];
      (m.(lastPulseReceivedFrom := memory),
       Emit(if RemembersAllHigh(m.inputs, memory) then Low else High, pulse.destination, m.outputs, pulse.sentAt))
  }

  /**
   * The callback `pushButton` hands to `pulses.process`: count the pulse, record the first
   * high pulse of its source, and let the destination module, if there is one, react.
   */
  function Handle(net: Network, pulse: Pulse): (r: (Network, seq<Pulse>))
    ensures r.0.nLow + r.0.nHigh == net.nLow + net.nHigh + 1
    ensures r.0.nLow == net.nLow + if pulse.pulseType == Low then 1 else 0
    ensures SameWiring(net.modules, r.0.modules)
    ensures forall k :: k in net.firstHigh ==> k in r.0.firstHigh && r.0.firstHigh[k] == net.firstHigh[k]
    ensures forall k :: k in r.0.firstHigh && k !in net.firstHigh ==> k == pulse.source && pulse.pulseType == High && r.0.firstHigh[k] == pulse.sentAt
    ensures pulse.pulseType == High ==> pulse.source in r.0.firstHigh
    ensures forall i :: 0 <= i < |r.1| ==> r.1[i].source == pulse.destination && r.1[i].sentAt == pulse.sentAt
    ensures pulse.destination !in net.modules ==> r.0.modules == net.modules && r.1 == []
  {
    var counted := if pulse.pulseType == Low then net.(nLow := net.nLow + 1) else net.(nHigh := net.nHigh + 1);
    var recorded := if pulse.source !in counted.firstHigh && pulse.pulseType == High
                    then counted.(firstHigh := counted.firstHigh[pulse.source := pulse.sentAt]) else counted;
    if pulse.destination !in recorded.modules then (recorded, [])
    else
      var received := Receive(recorded.modules[pulse.destination], pulse);
      (recorded.(modules := recorded.modules[pulse.destination := received.0]), received.1)
  }

  /** A flip-flop ignores high pulses; on a low one it toggles and sends high exactly when it was off. */
  lemma FlipFlopBehaviour(m: Module, pulse: Pulse)
    requires m.moduleType == FlipFlop
    ensures pulse.pulseType == High ==> Receive(m, pulse) == (m, [])
    ensures pulse.pulseType == Low ==> (Receive(m, pulse).0.isOn == !m.isOn && |Receive(m, pulse).1| == |m.outputs|
                                        && forall i :: 0 <= i < |m.outputs| ==> Receive(m, pulse).1[i].pulseType == (if m.isOn then Low else High))
  {
  }

  /** A conjunction stores the pulse under its source and sends low exactly when every input last sent high. */
  lemma ConjunctionBehaviour(m: Module, pulse: Pulse)
    requires m.moduleType == Conjunction
    ensures var r := Receive(m, pulse);
      r.0.lastPulseReceivedFrom == m.lastPulseReceivedFrom[pulse.source := pulse.pulseType]
      && |r.1| == |m.outputs|
      && forall i :: 0 <= i < |m.outputs| ==>
        (r.1[i].pulseType == Low <==> forall j :: 0 <= j < |m.inputs| ==>
          (m.inputs[j] == pulse.source && pulse.pulseType == High)
          || (m.inputs[j] != pulse.source && m.inputs[j] in m.lastPulseReceivedFrom && m.lastPulseReceivedFrom[m.inputs[j]] == High))
  {
  }

  /** The broadcaster passes the pulse's type on to every output. */
  lemma BroadcasterForwards(m: Module, pulse: Pulse)
    requires m.moduleType == Broadcaster
    ensures Receive(m, pulse).0 == m
    ensures |Receive(m, pulse).1| == |m.outputs|
      && forall i :: 0 <= i < |m.outputs| ==> Receive(m, pulse).1[i] == Pulse(pulse.pulseType, pulse.destination, m.outputs[i], pulse.sentAt)
  {
  }

  /** Every queue entry is an object, so every one is truthy. */
  predicate Truthy(pulse: Pulse)
  {
    true
  }

  function ButtonPulse(sentAt: int): Pulse
  {
    Pulse(Low, "button", "broadcaster", sentAt)
  }

  /** One press: a low pulse from the button to the broadcaster, then the queue drained first in, first out. */
  function Press(net: Network, sentAt: int, fuel: nat): Drain<Network, Pulse>
  {
    DrainFifo([ButtonPulse(sentAt)], net, Handle, Truthy, fuel)
  }

  function CountLow(pulses: seq<Pulse>): nat
  {
    if pulses == [] then 0 else (if pulses[0].pulseType == Low then 1 else 0) + CountLow(pulses[1..])
  }

  /** Every pulse taken off the queue is counted once, as low or as high according to its type. */
  lemma {:induction false} DrainCounts(pending: seq<Pulse>, net: Network, fuel: nat)
    ensures var d := DrainFifo(pending, net, Handle, Truthy, fuel);
      d.state.nLow + d.state.nHigh == net.nLow + net.nHigh + |d.taken|
      && d.state.nLow == net.nLow + CountLow(d.taken)
    decreases fuel
  {
    if pending != [] && fuel > 0 {
      var step := Handle(net, Front(pending));
      DrainCounts(Behind(pending) + step.1, step.0, fuel - 1);
      var rest := DrainFifo(Behind(pending) + step.1, step.0, Handle, Truthy, fuel - 1);
      assert ([Front(pending)] + rest.taken)[1..] == rest.taken;
    }
  }

  predicate SentAt(pulses: seq<Pulse>, sentAt: int)
  {
    forall i :: 0 <= i < |pulses| ==> pulses[i].sentAt == sentAt
  }

  /** Some pulse of `pulses` is a high pulse from `source`. */
  predicate SendsHigh(pulses: seq<Pulse>, source: string)
  {
    exists i :: 0 <= i < |pulses| && pulses[i].source == source && pulses[i].pulseType == High
  }

  /**
   * Draining pulses of one press keeps every recorded first high pulse and records exactly
   * the other sources that send a high pulse, each with that press.
   */
  lemma {:induction false} DrainRecordsFirstHigh(pending: seq<Pulse>, net: Network, sentAt: int, fuel: nat)
    requires SentAt(pending, sentAt)
    ensures var d := DrainFifo(pending, net, Handle, Truthy, fuel);
      SentAt(d.taken, sentAt)
      && (forall k :: k in net.firstHigh ==> k in d.state.firstHigh && d.state.firstHigh[k] == net.firstHigh[k])
      && (forall k :: k in d.state.firstHigh && k !in net.firstHigh ==> d.state.firstHigh[k] == sentAt)
      && (forall k :: k in d.state.firstHigh <==> k in net.firstHigh || SendsHigh(d.taken, k))
    decreases fuel
  {
    if pending != [] && fuel > 0 {
      var pulse := Front(pending);
      var step := Handle(net, pulse);
      var next := Behind(pending) + step.1;
      assert SentAt(next, sentAt) by {
        forall i | 0 <= i < |next| ensures next[i].sentAt == sentAt {
          if i < |Behind(pending)| {
            assert next[i] == pending[i + 1];
          }
        }
      }
      DrainRecordsFirstHigh(next, step.0, sentAt, fuel - 1);
      var rest := DrainFifo(next, step.0, Handle, Truthy, fuel - 1);
      forall k
        ensures SendsHigh([pulse] + rest.taken, k) <==> (pulse.source == k && pulse.pulseType == High) || SendsHigh(rest.taken, k)
      {
        SendsHighCons(pulse, rest.taken, k);
      }
      SentAtCons(pulse, rest.taken, sentAt);
    }
  }

  lemma SentAtCons(pulse: Pulse, rest: seq<Pulse>, sentAt: int)
    requires pulse.sentAt == sentAt && SentAt(rest, sentAt)
    ensures SentAt([pulse] + rest, sentAt)
  {
    var all := [pulse] + rest;
    forall i | 0 <= i < |all| ensures all[i].sentAt == sentAt {
      if i > 0 {
        assert all[i] == rest[i - 1];
      }
    }
  }

  lemma SendsHighCons(pulse: Pulse, rest: seq<Pulse>, k: string)
    ensures SendsHigh([pulse] + rest, k) <==> (pulse.source == k && pulse.pulseType == High) || SendsHigh(rest, k)
  {
    var all := [pulse] + rest;
    if SendsHigh(rest, k) {
      var i :| 0 <= i < |rest| && rest[i].source == k && rest[i].pulseType == High;
      assert all[i + 1] == rest[i];
    }
    if SendsHigh(all, k) && !(pulse.source == k && pulse.pulseType == High) {
      var i :| 0 <= i < |all| && all[i].source == k && all[i].pulseType == High;
      assert i > 0 && rest[i - 1] == all[i];
    }
    if pulse.source == k && pulse.pulseType == High {
      assert all[0] == pulse;
    }
  }

  /** A press changes only the modules' states, never how they are wired. */
  lemma {:induction false} DrainKeepsWiring(pending: seq<Pulse>, net: Network, fuel: nat)
    ensures SameWiring(net.modules, DrainFifo(pending, net, Handle, Truthy, fuel).state.modules)
    decreases fuel
  {
    if pending != [] && fuel > 0 {
      var step := Handle(net, Front(pending));
      DrainKeepsWiring(Behind(pending) + step.1, step.0, fuel - 1);
    }
  }

  /** `count` presses numbered `first + 1` to `first + count`, or `None` when some press does not drain within `fuel` pulses. */
  function PressTimes(net: Network, first: nat, count: nat, fuel: nat): Option<Network>
  {
    if count == 0 then Some(net)
    else
      match PressTimes(net, first, count - 1, fuel)
      case None => None
      case Some(before) => PressOnce(before, first + count, fuel)
  }

  /** The network after press `sentAt`, if its pulses drain within `fuel`. */
  function PressOnce(net: Network, sentAt: int, fuel: nat): Option<Network>
  {
    var d := Press(net, sentAt, fuel);
    if d.pending == [] then Some(d.state) else None
  }

  /** One more press extends the presses so far exactly when it drains. */
  lemma PressTimesNext(net: Network, first: nat, count: nat, fuel: nat, before: Network)
    requires PressTimes(net, first, count, fuel) == Some(before)
    ensures PressTimes(net, first, count + 1, fuel) == PressOnce(before, first + count + 1, fuel)
  {
  }

  /** Over several presses the wiring stays, a recorded first high pulse stays, and a new one is stamped with one of those presses. */
  lemma {:induction false} PressTimesFirstHigh(net: Network, first: nat, count: nat, fuel: nat)
    requires PressTimes(net, first, count, fuel).Some?
    ensures var after := PressTimes(net, first, count, fuel).value;
      SameWiring(net.modules, after.modules)
      && (forall k :: k in net.firstHigh ==> k in after.firstHigh && after.firstHigh[k] == net.firstHigh[k])
      && (forall k :: k in after.firstHigh && k !in net.firstHigh ==> first < after.firstHigh[k] <= first + count)
  {
    if count > 0 {
      PressTimesFirstHigh(net, first, count - 1, fuel);
      var before := PressTimes(net, first, count - 1, fuel).value;
      DrainRecordsFirstHigh([ButtonPulse(first + count)], before, first + count, fuel);
      DrainKeepsWiring([ButtonPulse(first + count)], before, fuel);
    }
  }

  /** What `part2` returns: a count per relevant input, a message when it skips, or `OutOfFuel`. */
  datatype Answer = Cycles(presses: seq<int>) | Skipped(message: string) | OutOfFuel

  /** `ModuleChain`: the modules (a `CustomSet` keyed by name), the names seen, the pulse queue and the counters. */
  class ModuleChain {
    var moduleNames: seq<string>
    /** The `CustomSet`'s map from name to module, and its insertion order. */
    var modules: map<string, Module>
    var order: seq<string>
    const pulses: Queue<Pulse>
    var nLowPulses: nat
    var nHighPulses: nat
    var nButtonPresses: nat
    var target: Option<string>
    var nPressesUntilEmitsHigh: map<string, int>

    /**
     * The set's keys are its modules' names, in a distinct insertion order; every module's
     * inputs are the modules listing it as an output; the queue is empty between presses.
     */
    ghost predicate Valid()
      reads this, pulses
    {
      Wired(moduleNames, modules, order) && pulses.truthy == Truthy && pulses.queue == []
    }

    function State(): Network
      reads this
    {
      Network(modules, nLowPulses, nHighPulses, nPressesUntilEmitsHigh)
    }

    constructor ()
      ensures Valid() && fresh(pulses)
      ensures moduleNames == [] && modules == map[] && order == [] && target == None
      ensures nLowPulses == 0 && nHighPulses == 0 && nButtonPresses == 0 && nPressesUntilEmitsHigh == map[]
    {
      moduleNames, modules, order := [], map[], [];
      pulses := new Queue<Pulse>(Truthy);
      nLowPulses, nHighPulses, nButtonPresses := 0, 0, 0;
      target, nPressesUntilEmitsHigh := None, map[];
    }

    /**
     * `add`: the module joins the set unless its name is taken (the first module of a
     * name stays), the new names are appended to `moduleNames`, and every module's inputs
     * are recomputed.
     */
    method Add(m: Module)
      requires Valid()
      modifies this
      ensures Valid()
      ensures order == AddedOrder(old(modules), old(order), m) && modules == Rewired(Added(old(modules), m), order)
      ensures moduleNames == AppendNew(old(moduleNames), [m.name] + m.inputs + m.outputs)
      ensures nLowPulses == old(nLowPulses) && nHighPulses == old(nHighPulses) && nButtonPresses == old(nButtonPresses)
      ensures target == old(target) && nPressesUntilEmitsHigh == old(nPressesUntilEmitsHigh)
    {
      var names, rewired, keys := AddTo(moduleNames, modules, order, m);
      moduleNames, modules, order := names, rewired, keys;
    }

    /** The `add` of `parseInput` for the module of line `i`, after those of the lines before it. */
    method AddNext(ms: seq<Module>, i: nat)
      requires i < |ms| && Valid()
      requires moduleNames == AddedNames(ms[..i]) && order == KeptOrder(ms[..i]) && modules == Rewired(Kept(ms[..i]), KeptOrder(ms[..i]))
      modifies this
      ensures Valid()
      ensures moduleNames == AddedNames(ms[..i + 1]) && order == KeptOrder(ms[..i + 1])
      ensures modules == Rewired(Kept(ms[..i + 1]), KeptOrder(ms[..i + 1]))
      ensures nLowPulses == old(nLowPulses) && nHighPulses == old(nHighPulses) && nButtonPresses == old(nButtonPresses)
      ensures target == old(target) && nPressesUntilEmitsHigh == old(nPressesUntilEmitsHigh)
    {
      assert ms[..i + 1][..i] == ms[..i];
      RewireAgain(Kept(ms[..i]), KeptOrder(ms[..i]), ms[i]);
      Add(ms[i]);
    }

    /** `setTarget`: records the target and reports whether it is a known name (the source throws when not). */
    method SetTarget(name: string) returns (known: bool)
      modifies this
      ensures target == Some(name) && known == (name in moduleNames)
      ensures moduleNames == old(moduleNames) && modules == old(modules) && order == old(order)
      ensures nLowPulses == old(nLowPulses) && nHighPulses == old(nHighPulses) && nButtonPresses == old(nButtonPresses)
      ensures nPressesUntilEmitsHigh == old(nPressesUntilEmitsHigh)
    {
      target := Some(name);
      known := name in moduleNames;
    }

    /** `getInputOf`: exactly the modules that list `name` among their outputs, in insertion order. */
    function GetInputOf(name: string): (r: seq<string>)
      requires Valid()
      reads this, pulses
      ensures forall x :: x in r <==> x in modules && name in modules[x].outputs
      ensures Distinct(r)
    {
      InputsOfExactly(modules, order, name);
      InputsOf(modules, order, name)
    }

    /**
     * `pushButton`, bounded by `fuel` pulses: one more press, its pulse queued and the queue
     * processed. `drained` is false when the pulses outlast the bound.
     */
    method PushButton(fuel: nat) returns (drained: bool)
      requires Valid()
      modifies this, pulses
      ensures var d := Press(old(State()), old(nButtonPresses) + 1, fuel);
        nButtonPresses == old(nButtonPresses) + 1 && State() == d.state && pulses.queue == d.pending
        && drained == (d.pending == [])
      ensures PressOnce(old(State()), old(nButtonPresses) + 1, fuel) == if drained then Some(State()) else None
      ensures moduleNames == old(moduleNames) && order == old(order) && target == old(target)
      ensures drained ==> Valid()
    {
      var net, press := State(), nButtonPresses + 1;
      ghost var names, keys := moduleNames, order;
      pulses.Enqueue(ButtonPulse(press));
      assert pulses.queue == [ButtonPulse(press)];
      var final, _ := pulses.Process(Handle, net, fuel);
      DrainKeepsWiring([ButtonPulse(press)], net, fuel);
      WiredStaysWired(names, net.modules, final.modules, keys);
      modules, nLowPulses, nHighPulses, nPressesUntilEmitsHigh := final.modules, final.nLow, final.nHigh, final.firstHigh;
      nButtonPresses := press;
      drained := pulses.queue == [];
    }

    /** `part1`: 1000 presses, then the product of the low and the high pulse counts. */
    method Part1(fuel: nat) returns (score: Option<int>)
      requires Valid()
      modifies this, pulses
      ensures var after := PressTimes(old(State()), old(nButtonPresses), 1000, fuel);
        score == if after.Some? then Some(after.value.nLow * after.value.nHigh) else None
      ensures score.Some? ==> (Valid() && State() == PressTimes(old(State()), old(nButtonPresses), 1000, fuel).value
                               && nButtonPresses == old(nButtonPresses) + 1000)
      ensures moduleNames == old(moduleNames) && order == old(order) && target == old(target)
    {
      var drained := PressMany(1000, fuel);
      if !drained {
        return None;
      }
      return Some(nLowPulses * nHighPulses);
    }

    /** The `for` loop of `part1`: pushes the button `count` times, stopping at a push whose pulses do not drain. */
    method PressMany(count: nat, fuel: nat) returns (drained: bool)
      requires Valid()
      modifies this, pulses
      ensures var after := PressTimes(old(State()), old(nButtonPresses), count, fuel);
        drained == after.Some? && (drained ==> Valid() && State() == after.value)
      ensures nButtonPresses <= old(nButtonPresses) + count
      ensures drained ==> nButtonPresses == old(nButtonPresses) + count
      ensures moduleNames == old(moduleNames) && order == old(order) && target == old(target)
    {
      ghost var start, first := State(), nButtonPresses;
      for i := 0 to count
        invariant Valid()
        invariant PressTimes(start, first, i, fuel) == Some(State())
        invariant nButtonPresses == first + i
        invariant moduleNames == old(moduleNames) && order == old(order) && target == old(target)
      {
        drained := PressNext(start, first, i, fuel);
        if !drained {
          NoneStaysNone(start, first, i + 1, count, fuel);
          return;
        }
      }
      drained := true;
    }

    /** One push of the button, as the next of the presses counted from `first`. */
    method PressNext(ghost start: Network, ghost first: nat, ghost count: nat, fuel: nat) returns (drained: bool)
      requires Valid() && PressTimes(start, first, count, fuel) == Some(State()) && nButtonPresses == first + count
      modifies this, pulses
      ensures drained == PressTimes(start, first, count + 1, fuel).Some?
      ensures drained ==> Valid() && PressTimes(start, first, count + 1, fuel) == Some(State())
      ensures nButtonPresses == first + count + 1
      ensures moduleNames == old(moduleNames) && order == old(order) && target == old(target)
    {
      ghost var before := State();
      drained := PushButton(fuel);
      PressTimesNext(start, first, count, fuel, before);
    }

    /**
     * `part2`: with "rx" a known name fed by a single conjunction, presses until every
     * input of that conjunction has sent a high pulse, and returns the press of each one's
     * first high pulse. The least common multiple the source takes of them is not part of
     * this model.
     */
    method Part2(maxPresses: nat, fuel: nat) returns (answer: Answer)
      requires Valid()
      modifies this, pulses
      ensures answer.Skipped? ==> (answer.message == "Skipping part 2 because the target is not valid"
                                   || answer.message == "Skipping part 2 because the solution assumptions are not valid")
      ensures answer == Skipped("Skipping part 2 because the target is not valid") <==> "rx" !in old(moduleNames)
      ensures answer == Skipped("Skipping part 2 because the solution assumptions are not valid") ==>
        Valid() && (|GetInputOf("rx")| != 1 || modules[GetInputOf("rx")[0]].moduleType != Conjunction)
      ensures answer.Cycles? ==> (Valid() && |GetInputOf("rx")| == 1
                                  && var feeder := GetInputOf("rx")[0];
                                     (modules[feeder].moduleType == Conjunction && |answer.presses| == |modules[feeder].inputs|
                                      && forall i :: 0 <= i < |answer.presses| ==> (modules[feeder].inputs[i] in nPressesUntilEmitsHigh
                                         && answer.presses[i] == nPressesUntilEmitsHigh[modules[feeder].inputs[i]])))
      ensures answer.Cycles? ==> FirstHighKept(old(nPressesUntilEmitsHigh), nPressesUntilEmitsHigh, old(nButtonPresses), nButtonPresses)
    {
      var known := SetTarget("rx");
      if !known {
        return Skipped("Skipping part 2 because the target is not valid");
      }
      var feeders := GetInputOf("rx");
      if |feeders| != 1 || modules[feeders[0]].moduleType != Conjunction {
        return Skipped("Skipping part 2 because the solution assumptions are not valid");
      }
      ghost var before := modules;
      var relevant := modules[feeders[0]].inputs;
      var recorded := PressUntilRecorded(relevant, maxPresses, fuel);
      if recorded.None? {
        return OutOfFuel;
      }
      InputsOfSameWiring(before, modules, order, "rx");
      answer := Cycles(recorded.value);
    }

    /**
     * The `while` loop of `part2`: presses (at most `maxPresses` times) until every name of
     * `relevant` has a recorded first high pulse, then reads those records.
     */
    method PressUntilRecorded(relevant: seq<string>, maxPresses: nat, fuel: nat) returns (recorded: Option<seq<int>>)
      requires Valid()
      modifies this, pulses
      ensures recorded.Some? ==> (Valid() && SameWiring(old(modules), modules) && order == old(order)
                                  && |recorded.value| == |relevant|
                                  && forall i :: 0 <= i < |relevant| ==> (relevant[i] in nPressesUntilEmitsHigh
                                     && recorded.value[i] == nPressesUntilEmitsHigh[relevant[i]]))
      ensures recorded.Some? ==> FirstHighKept(old(nPressesUntilEmitsHigh), nPressesUntilEmitsHigh, old(nButtonPresses), nButtonPresses)
      ensures moduleNames == old(moduleNames) && target == old(target)
    {
      var presses := 0;
      ghost var start, first := State(), nButtonPresses;
      while exists i :: 0 <= i < |relevant| && relevant[i] !in nPressesUntilEmitsHigh
        invariant Valid() && presses <= maxPresses && nButtonPresses == first + presses
        invariant PressTimes(start, first, presses, fuel) == Some(State())
        invariant order == old(order) && moduleNames == old(moduleNames) && target == old(target)
        decreases maxPresses - presses
      {
        if presses == maxPresses {
          return None;
        }
        var drained := PressNext(start, first, presses, fuel);
        if !drained {
          return None;
        }
        presses := presses + 1;
      }
      PressTimesFirstHigh(start, first, presses, fuel);
      var seen := nPressesUntilEmitsHigh;
      recorded := Some(seq(|relevant|, i requires 0 <= i < |relevant| && relevant[i] in seen => seen[relevant[i]]));
    }
  }

  /** The names `moduleNames` holds after `add` of each of `ms` in turn, starting empty. */
  function AddedNames(ms: seq<Module>): seq<string>
  {
    if ms == [] then [] else
      var m := ms[|ms| - 1];
      AppendNew(AddedNames(ms[..|ms| - 1]), [m.name] + m.inputs + m.outputs)
  }

  /** The set's modules, before their inputs are recomputed, after `add` of each of `ms` in turn. */
  function Kept(ms: seq<Module>): map<string, Module>
  {
    if ms == [] then map[] else Added(Kept(ms[..|ms| - 1]), ms[|ms| - 1])
  }

  /** The set's insertion order after `add` of each of `ms` in turn. */
  function KeptOrder(ms: seq<Module>): (r: seq<string>)
    ensures forall i :: 0 <= i < |r| ==> r[i] in Kept(ms)
  {
    if ms == [] then [] else AddedOrder(Kept(ms[..|ms| - 1]), KeptOrder(ms[..|ms| - 1]), ms[|ms| - 1])
  }

  /** A name has a module after the adds exactly when some added module has that name. */
  lemma {:induction false} KeptKeys(ms: seq<Module>, k: string)
    ensures k in Kept(ms) <==> exists i :: 0 <= i < |ms| && ms[i].name == k
  {
    if ms != [] {
      var init := ms[..|ms| - 1];
      KeptKeys(init, k);
      if exists i :: 0 <= i < |init| && init[i].name == k {
        var i :| 0 <= i < |init| && init[i].name == k;
        assert ms[i] == init[i];
      }
      if exists i :: 0 <= i < |ms| && ms[i].name == k {
        var i :| 0 <= i < |ms| && ms[i].name == k;
        if i < |init| {
          assert init[i] == ms[i];
        }
      }
    }
  }

  /** The module kept under a name is the first one added under it. */
  lemma {:induction false} KeptFirstWins(ms: seq<Module>, i: nat)
    requires i < |ms| && forall j :: 0 <= j < i ==> ms[j].name != ms[i].name
    ensures ms[i].name in Kept(ms) && Kept(ms)[ms[i].name] == ms[i]
  {
    var init := ms[..|ms| - 1];
    if i < |init| {
      assert init[i] == ms[i];
      forall j | 0 <= j < i
        ensures init[j].name != init[i].name
      {
        assert init[j] == ms[j];
      }
      KeptFirstWins(init, i);
    } else {
      KeptKeys(init, ms[i].name);
    }
  }

  /** Recomputing the inputs after an add ignores the inputs computed before it. */
  lemma RewireAgain(kept: map<string, Module>, order: seq<string>, m: Module)
    requires forall i :: 0 <= i < |order| ==> order[i] in kept
    ensures var keys := AddedOrder(kept, order, m);
      AddedOrder(Rewired(kept, order), order, m) == keys
      && Rewired(Added(Rewired(kept, order), m), keys) == Rewired(Added(kept, m), keys)
  {
    var before := Rewired(kept, order);
    var keys := AddedOrder(kept, order, m);
    var a, b := Added(before, m), Added(kept, m);
    assert SameOutputs(a, b);
    forall k | k in a
      ensures Rewired(a, keys)[k] == Rewired(b, keys)[k]
    {
      SameOutputsSameInputs(a, b, keys, k);
      if k == m.name && m.name !in kept {
        assert a[k] == b[k];
      } else {
        assert a[k] == kept[k].(inputs := InputsOf(kept, order, k)) && b[k] == kept[k];
      }
    }
  }

  /**
   * `parseInput`: a chain built by adding the module of each line in turn, or the error of
   * the first line that names no valid module. The source adds each module as soon as its
   * line is read and throws at the first invalid line; as the chain is then discarded, the
   * lines are parsed first here and the modules added afterwards.
   */
  method ParseInput(lines: seq<Line>) returns (r: Result<ModuleChain>)
    ensures var parsed := MapAll(lines, ParseLine);
      (r.Failure? <==> parsed.Failure?) && (r.Failure? ==> r.error == parsed.error)
    ensures r.Success? ==> (fresh(r.value) && fresh(r.value.pulses) && r.value.Valid()
                            && (var ms := MapAll(lines, ParseLine).value;
                                r.value.moduleNames == AddedNames(ms) && r.value.order == KeptOrder(ms)
                                && r.value.modules == Rewired(Kept(ms), KeptOrder(ms)))
                            && r.value.nLowPulses == 0 && r.value.nHighPulses == 0 && r.value.nButtonPresses == 0
                            && r.value.target == None && r.value.nPressesUntilEmitsHigh == map[])
  {
    match MapAll(lines, ParseLine)
    case Failure(e) =>
      return Failure(e);
    case Success(ms) =>
      var chain := new ModuleChain();
      for i := 0 to |ms|
        invariant fresh(chain) && fresh(chain.pulses) && chain.Valid()
        invariant chain.moduleNames == AddedNames(ms[..i]) && chain.order == KeptOrder(ms[..i])
        invariant chain.modules == Rewired(Kept(ms[..i]), KeptOrder(ms[..i]))
        invariant chain.nLowPulses == 0 && chain.nHighPulses == 0 && chain.nButtonPresses == 0
        invariant chain.target == None && chain.nPressesUntilEmitsHigh == map[]
      {
        chain.AddNext(ms, i);
      }
      assert ms[..|ms|] == ms;
      return Success(chain);
  }

  /** Records present before stay as they were, and each new one is stamped with one of the presses since. */
  predicate FirstHighKept(before: map<string, int>, after: map<string, int>, pressesBefore: int, pressesAfter: int)
  {
    (forall k :: k in before ==> k in after && after[k] == before[k])
    && forall k :: k in after && k !in before ==> pressesBefore < after[k] <= pressesAfter
  }

  /** The body of `add` on the values of the set's fields. */
  method AddTo(names: seq<string>, modules: map<string, Module>, order: seq<string>, m: Module)
    returns (names': seq<string>, modules': map<string, Module>, order': seq<string>)
    requires Wired(names, modules, order)
    ensures Wired(names', modules', order')
    ensures order' == AddedOrder(modules, order, m) && modules' == Rewired(Added(modules, m), order')
    ensures names' == AppendNew(names, [m.name] + m.inputs + m.outputs)
  {
    var kept := Added(modules, m);
    order' := AddedOrder(modules, order, m);
    AddKeepsWired(names, modules, order, m);
    names' := AppendAll(names, [m.name] + m.inputs + m.outputs);
    modules' := RewireAll(kept, order');
  }

  /** The `forEach` over the new names of `add`, appending each one `names` does not include. */
  method AppendAll(names: seq<string>, more: seq<string>) returns (r: seq<string>)
    ensures r == AppendNew(names, more)
  {
    r := names;
    for i := 0 to |more|
      invariant AppendNew(r, more[i..]) == AppendNew(names, more)
    {
      assert more[i..][1..] == more[i + 1..];
      if more[i] !in r {
        r := r + [more[i]];
      }
    }
  }

  /**
   * The set's keys are its modules' names, listed once each in insertion order and all in
   * `names`; every module's inputs are the modules listing it as an output.
   */
  ghost predicate Wired(names: seq<string>, modules: map<string, Module>, order: seq<string>)
  {
    Distinct(names) && Distinct(order)
    && (forall k :: k in order <==> k in modules)
    && (forall k :: k in modules ==> modules[k].name == k && k in names)
    && (forall i :: 0 <= i < |order| ==> order[i] in modules)
    && modules == Rewired(modules, order)
  }

  /** In a wired chain every module's inputs are the modules listing it as an output. */
  lemma WiredInputs(names: seq<string>, modules: map<string, Module>, order: seq<string>, k: string)
    requires Wired(names, modules, order) && k in modules
    ensures modules[k].inputs == InputsOf(modules, order, k)
  {
    assert modules[k] == Rewired(modules, order)[k];
  }

  lemma WiredStaysWired(names: seq<string>, a: map<string, Module>, b: map<string, Module>, order: seq<string>)
    requires Wired(names, a, order) && SameWiring(a, b)
    ensures Wired(names, b, order)
  {
    forall k | k in b
      ensures b[k] == Rewired(b, order)[k]
    {
      InputsOfSameWiring(a, b, order, k);
      WiredInputs(names, a, order, k);
    }
  }

  /** `CustomSet.add`: the first module of a name stays. */
  function Added(modules: map<string, Module>, m: Module): map<string, Module>
  {
    if m.name in modules then modules else modules[m.name := m]
  }

  /** The set's insertion order after `CustomSet.add`. */
  function AddedOrder(modules: map<string, Module>, order: seq<string>, m: Module): seq<string>
  {
    if m.name in modules then order else order + [m.name]
  }

  /** Adding a module and recomputing the inputs keeps the chain wired. */
  lemma AddKeepsWired(names: seq<string>, modules: map<string, Module>, order: seq<string>, m: Module)
    requires Wired(names, modules, order)
    ensures var kept, keys := Added(modules, m), AddedOrder(modules, order, m);
      (forall i :: 0 <= i < |keys| ==> keys[i] in kept) && (forall k :: k in kept ==> k in keys)
      && Wired(AppendNew(names, [m.name] + m.inputs + m.outputs), Rewired(kept, keys), keys)
  {
    var kept, keys := Added(modules, m), AddedOrder(modules, order, m);
    assert forall i :: 0 <= i < |keys| ==> keys[i] in kept by {
      forall i | 0 <= i < |keys| ensures keys[i] in kept {
        if i < |order| {
          assert keys[i] == order[i];
        }
      }
    }
    if m.name !in modules {
      forall i, j | 0 <= i < j < |keys|
        ensures keys[i] != keys[j]
      {
        if j == |order| {
          assert keys[i] == order[i] && order[i] in modules;
        } else {
          assert keys[i] == order[i] && keys[j] == order[j];
        }
      }
    }
    assert m.name in [m.name] + m.inputs + m.outputs;
    RewiredIsWired(kept, keys);
  }

  /** The `forEach` over the modules in insertion order, each given the inputs `getInputOf` finds for it. */
  method RewireAll(original: map<string, Module>, keys: seq<string>) returns (updated: map<string, Module>)
    requires (forall i :: 0 <= i < |keys| ==> keys[i] in original) && forall k :: k in original ==> k in keys
    ensures updated == Rewired(original, keys)
  {
    updated := original;
    ghost var done: set<string> := {};
    for i := 0 to |keys|
      invariant PartlyRewired(original, keys, updated, done)
      invariant done == set j | 0 <= j < i :: keys[j]
    {
      var name := keys[i];
      RewireStep(original, keys, updated, done, name);
      updated := updated[name := updated[name].(inputs := InputsOf(updated, keys, name))];
      done := done + {name};
    }
    assert forall k :: k in keys ==> k in done;
  }

  /** The modules of `done` have their inputs recomputed and the others are as they were. */
  ghost predicate PartlyRewired(original: map<string, Module>, keys: seq<string>, updated: map<string, Module>, done: set<string>)
    requires forall i :: 0 <= i < |keys| ==> keys[i] in original
  {
    updated.Keys == original.Keys && SameOutputs(original, updated)
    && forall k :: k in original ==> updated[k] == if k in done then original[k].(inputs := InputsOf(original, keys, k)) else original[k]
  }

  lemma RewireStep(original: map<string, Module>, keys: seq<string>, updated: map<string, Module>, done: set<string>, name: string)
    requires forall i :: 0 <= i < |keys| ==> keys[i] in original
    requires PartlyRewired(original, keys, updated, done) && name in original
    ensures name in updated
    ensures PartlyRewired(original, keys, updated[name := updated[name].(inputs := InputsOf(updated, keys, name))], done + {name})
  {
    SameOutputsSameInputs(original, updated, keys, name);
  }

  predicate SameOutputs(a: map<string, Module>, b: map<string, Module>)
  {
    a.Keys == b.Keys && forall k :: k in a ==> a[k].outputs == b[k].outputs
  }

  lemma SameOutputsSameInputs(a: map<string, Module>, b: map<string, Module>, order: seq<string>, name: string)
    requires SameOutputs(a, b) && forall i :: 0 <= i < |order| ==> order[i] in a
    ensures InputsOf(a, order, name) == InputsOf(b, order, name)
  {
  }

  /** Once a press fails to drain, every longer run of presses fails too. */
  lemma {:induction false} NoneStaysNone(net: Network, first: nat, count: nat, total: nat, fuel: nat)
    requires count <= total && PressTimes(net, first, count, fuel).None?
    ensures PressTimes(net, first, total, fuel).None?
    decreases total - count
  {
    if count < total {
      NoneStaysNone(net, first, count + 1, total, fuel);
    }
  }
}
