/**
 The stop protocol: multiplexer.shutdown sends one stop command to every producer and waits for
 the workers; each control loop waits for its dependencies to be dead before it stops.  A step
 system over any interleaving, without the shutdown timeout.
 */
module Shutdown {
  import opened Utilities
  import opened Graphs
  import Dependencies

  /** The order of the plugin states matters: the code compares them. */
  datatype PluginState = Initializing | Blocked | Active | Stopping | Dead
  {
    predicate AtLeastStopping() { Stopping? || Dead? }
  }

  datatype Command = Stop | Other

  /** Where the control loop is: at the channel, waiting for its k-th dependency, in onStop, gone. */
  datatype Control = Listening | Waiting(k: nat) | Closing | Gone

  /** `working` is the producer's share of the multiplexer's producerWorker. */
  datatype Producer = Producer(queue: seq<Command>, control: Control, state: PluginState, working: bool)

  /** `sent` producers were sent the stop command; `stopped` says that shutdown returned. */
  datatype System = System(sent: nat, stopped: bool, producers: seq<Producer>)

  datatype Action =
    | Send
    | Finish
    | Take(p: nat)
    | Check(p: nat)
    | EnterStopping(p: nat)
    | Die(p: nat)
    | Leave(p: nat)
    | Enqueue(p: nat, state: PluginState)

  predicate IsProtocol(a: Action) { !a.Enqueue? }

  ghost predicate Fits(g: Graph<nat>, s: System) {
    && (forall p :: p in g <==> 0 <= p < |s.producers|)
    && (forall p, i :: p in g && 0 <= i < |g[p]| ==> g[p][i] in g)
  }

  function With(s: System, p: nat, producer: Producer): System
    requires p < |s.producers|
  {
    s.(producers := s.producers[p := producer])
  }

  /** One step of producer `p`. */
  function Move(g: Graph<nat>, s: System, p: nat, a: Action): Option<System>
    requires Fits(g, s) && p < |s.producers|
  {
    var x := s.producers[p];
    match a
    case Take(_) =>
      if x.control != Listening || x.queue == [] then None
      else Some(With(s, p, x.(queue := x.queue[1..], control := if x.queue[0] == Stop then Waiting(0) else Listening)))
    case Check(_) =>
      if x.control.Waiting? && x.control.k < |g[p]| && s.producers[g[p][x.control.k]].state == Dead
      then Some(With(s, p, x.(control := Waiting(x.control.k + 1)))) else None
    case EnterStopping(_) =>
      if x.control == Waiting(|g[p]|) then Some(With(s, p, x.(control := Closing, state := Stopping))) else None
    case Die(_) =>
      if x.control == Closing then Some(With(s, p, x.(control := Gone, state := Dead))) else None
    case Leave(_) =>
      if x.working && x.state.AtLeastStopping() then Some(With(s, p, x.(working := false))) else None
    case Enqueue(_, state) =>
      if !x.state.AtLeastStopping() && (state == Blocked || state == Active) then Some(With(s, p, x.(state := state)))
        else None
    case _ => None
  }

  function Step(g: Graph<nat>, s: System, a: Action): Option<System>
    requires Fits(g, s)
  {
    match a
    case Send =>
      if s.sent < |s.producers| && |s.producers[s.sent].queue| < 1
      then Some(With(s, s.sent, s.producers[s.sent].(queue := s.producers[s.sent].queue + [Stop])).(sent := s.sent + 1))
      else None
    case Finish =>
      if s.sent == |s.producers| && !s.stopped && forall p :: 0 <= p < |s.producers| ==> !s.producers[p].working
      then Some(s.(stopped := true)) else None
    case _ => if a.p < |s.producers| then Move(g, s, a.p, a) else None
  }

  /** Producers run; other commands may already be in their channels. */
  predicate Initial(s: System) {
    && s.sent == 0 && !s.stopped
    && forall p :: 0 <= p < |s.producers| ==>
         var x := s.producers[p];
         x.control == Listening && (x.queue == [] || x.queue == [Other]) && !x.state.AtLeastStopping() && x.working
  }

  function Exec(g: Graph<nat>, s: System, actions: seq<Action>): Option<System>
    requires Fits(g, s)
    decreases |actions|
  {
    if actions == [] then Some(s)
    else
      match Step(g, s, actions[0])
      case None => None
      case Some(s') => Exec(g, s', actions[1..])
  }

  predicate Final(s: System) {
    s.stopped && forall p :: 0 <= p < |s.producers| ==> s.producers[p].state == Dead && !s.producers[p].working
  }

  // ------------------------------------------------------------------- safety

  predicate FirstAreDead(g: Graph<nat>, s: System, p: nat, k: nat)
    requires Fits(g, s) && p < |s.producers|
  {
    k <= |g[p]| && forall i :: 0 <= i < k ==> s.producers[g[p][i]].state == Dead
  }

  predicate ProducerOk(g: Graph<nat>, s: System, p: nat)
    requires Fits(g, s) && p < |s.producers|
  {
    var x := s.producers[p];
    && (match x.control
        case Listening => !x.state.AtLeastStopping()
        case Waiting(k) => !x.state.AtLeastStopping() && FirstAreDead(g, s, p, k)
        case Closing => x.state == Stopping && FirstAreDead(g, s, p, |g[p]|)
        case Gone => x.state == Dead && FirstAreDead(g, s, p, |g[p]|))
    && |x.queue| <= 1
    && (p < s.sent && x.control.Listening? ==> x.queue == [Stop])
    && (p >= s.sent ==> x.control.Listening? && (x.queue == [] || x.queue == [Other]))
    && (!x.working ==> x.state.AtLeastStopping())
  }

  ghost predicate Inv(g: Graph<nat>, s: System) {
    && Fits(g, s) && s.sent <= |s.producers|
    && (s.stopped ==> s.sent == |s.producers| && forall p :: 0 <= p < |s.producers| ==> !s.producers[p].working)
    && forall p :: 0 <= p < |s.producers| ==> ProducerOk(g, s, p)
  }

  lemma DeadStays(g: Graph<nat>, s: System, a: Action, q: nat)
    requires Inv(g, s) && Step(g, s, a).Some? && q < |s.producers| && s.producers[q].state == Dead
    ensures |Step(g, s, a).value.producers| == |s.producers| && Step(g, s, a).value.producers[q].state == Dead
  {
    assert ProducerOk(g, s, q);
  }

  lemma StepInv(g: Graph<nat>, s: System, a: Action)
    requires Inv(g, s) && Step(g, s, a).Some?
    ensures Inv(g, Step(g, s, a).value)
  {
    hide ProducerOk;
    var s' := Step(g, s, a).value;
    assert Fits(g, s');
    forall p | 0 <= p < |s'.producers| ensures ProducerOk(g, s', p) { StepKeepsProducer(g, s, a, p); }
    if s'.stopped {
      forall p | 0 <= p < |s'.producers| ensures !s'.producers[p].working {
        assert !s.stopped || !s.producers[p].working;
      }
    }
  }

  lemma StepKeepsProducer(g: Graph<nat>, s: System, a: Action, p: nat)
    requires Inv(g, s) && Step(g, s, a).Some? && p < |s.producers|
    ensures Fits(g, Step(g, s, a).value) && ProducerOk(g, Step(g, s, a).value, p)
  {
    var s' := Step(g, s, a).value;
    assert ProducerOk(g, s, p);
    forall i | 0 <= i < |g[p]| && s.producers[g[p][i]].state == Dead ensures s'.producers[g[p][i]].state == Dead {
      DeadStays(g, s, a, g[p][i]);
    }
  }

  lemma {:induction false} ExecInv(g: Graph<nat>, s: System, actions: seq<Action>)
    requires Inv(g, s) && Exec(g, s, actions).Some?
    ensures Inv(g, Exec(g, s, actions).value)
    decreases |actions|
  {
    if actions != [] {
      StepInv(g, s, actions[0]);
      ExecInv(g, Step(g, s, actions[0]).value, actions[1..]);
    }
  }

  lemma InitialInv(g: Graph<nat>, s: System)
    requires Fits(g, s) && Initial(s)
    ensures Inv(g, s)
  {
  }

  lemma {:induction false} DependenciesAreDead(g: Graph<nat>, s: System, path: seq<nat>, p: nat, q: nat)
    requires Inv(g, s) && p < |s.producers| && s.producers[p].state.AtLeastStopping() && Joins(g, path, p, q)
    ensures q < |s.producers| && s.producers[q].state == Dead
    decreases |path|
  {
    FirstEdge(g, path, p, q);
    var i :| 0 <= i < |g[p]| && g[p][i] == path[1];
    assert ProducerOk(g, s, p);
    assert s.producers[path[1]].state == Dead;
    if |path| > 2 { DependenciesAreDead(g, s, path[1..], path[1], q); }
  }

  /** In every run a producer is Stopping or Dead only when all producers it depends on, directly
      or not, are Dead. */
  lemma StopsAfterDependencies(g: Graph<nat>, s: System, actions: seq<Action>, p: nat, q: nat)
    requires Fits(g, s) && Initial(s) && Exec(g, s, actions).Some?
    requires var s' := Exec(g, s, actions).value; p < |s'.producers| && s'.producers[p].state.AtLeastStopping()
    requires Reach(g, p, q)
    ensures var s' := Exec(g, s, actions).value; q < |s'.producers| && s'.producers[q].state == Dead
  {
    InitialInv(g, s);
    ExecInv(g, s, actions);
    var path :| Joins(g, path, p, q);
    DependenciesAreDead(g, Exec(g, s, actions).value, path, p, q);
  }

  /** When shutdown returns, every producer is at least Stopping, so all that others depend on are
      Dead. */
  lemma ReturnedMeansStopping(g: Graph<nat>, s: System, actions: seq<Action>, p: nat)
    requires Fits(g, s) && Initial(s) && Exec(g, s, actions).Some?
    requires var s' := Exec(g, s, actions).value; s'.stopped && p < |s'.producers|
    ensures var s' := Exec(g, s, actions).value;
      s'.producers[p].state.AtLeastStopping()
      && forall q: nat :: Reach(g, p, q) ==> q < |s'.producers| && s'.producers[q].state == Dead
  {
    InitialInv(g, s);
    ExecInv(g, s, actions);
    assert ProducerOk(g, Exec(g, s, actions).value, p);
    forall q: nat | Reach(g, p, q)
      ensures q < |Exec(g, s, actions).value.producers| && Exec(g, s, actions).value.producers[q].state == Dead
    {
      StopsAfterDependencies(g, s, actions, p, q);
    }
  }

  /** A single producer on its way to Stopping. */
  function Early(n: nat): System {
    var queue := if n == 1 then [Stop] else [];
    var control := if n < 2 then Listening else if n == 2 then Waiting(0) else Closing;
    System(if n == 0 then 0 else 1, n == 5, [Producer(queue, control, if n < 3 then Active else Stopping, n < 4)])
  }

  function EarlyAction(n: nat): Action {
    if n == 0 then Send else if n == 1 then Take(0) else if n == 2 then EnterStopping(0) else if n == 3 then Leave(0)
    else Finish
  }

  function EarlyActions(n: nat): seq<Action>
    requires n <= 5
    decreases 5 - n
  {
    if n == 5 then [] else [EarlyAction(n)] + EarlyActions(n + 1)
  }

  const ALONE: Graph<nat> := map[0 := []]

  lemma EarlyStep(n: nat)
    requires n < 5
    ensures Fits(ALONE, Early(n)) && Step(ALONE, Early(n), EarlyAction(n)) == Some(Early(n + 1))
  {
    assert Early(n).producers[0 := Early(n + 1).producers[0]] == Early(n + 1).producers;
    assert [] + [Stop] == [Stop] && [Stop][1..] == [];
  }

  lemma {:induction false} EarlyRun(n: nat)
    requires n <= 5
    ensures Fits(ALONE, Early(n)) && Exec(ALONE, Early(n), EarlyActions(n)) == Some(Early(5))
    decreases 5 - n
  {
    if n < 5 {
      hide Step, Early, EarlyAction;
      EarlyStep(n);
      EarlyRun(n + 1);
    }
  }

  /** It waits for the workers, not for `onStop`: it can return while a producer is still Stopping. */
  lemma ReturnsBeforeDead() returns (g: Graph<nat>, s: System, actions: seq<Action>)
    ensures Fits(g, s) && Initial(s) && Exec(g, s, actions).Some?
    ensures var end := Exec(g, s, actions).value;
      end.stopped && |end.producers| == 1 && end.producers[0].state == Stopping
  {
    g, s, actions := ALONE, Early(0), EarlyActions(0);
    EarlyRun(0);
  }

  // ----------------------------------------------------------------- progress

  predicate Enabled(g: Graph<nat>, s: System, a: Action)
    requires Fits(g, s)
  {
    Step(g, s, a).Some?
  }

  /** A producer that is not dead, all of whose dependencies are. */
  lemma {:induction false} Lowest(g: Graph<nat>, s: System, p: nat) returns (q: nat)
    requires Inv(g, s) && Acyclic(g) && p < |s.producers| && s.producers[p].state != Dead
    ensures q < |s.producers| && s.producers[q].state != Dead && FirstAreDead(g, s, q, |g[q]|)
    decreases Below(g, p)
  {
    if FirstAreDead(g, s, p, |g[p]|) {
      q := p;
    } else {
      var i :| 0 <= i < |g[p]| && s.producers[g[p][i]].state != Dead;
      BelowShrinks(g, p, g[p][i]);
      q := Lowest(g, s, g[p][i]);
    }
  }

  /** No deadlock: as long as shutdown is not complete, some step of the protocol is possible. */
  lemma SomeStepIsEnabled(g: Graph<nat>, s: System) returns (a: Action)
    requires Inv(g, s) && Acyclic(g) && !Final(s)
    ensures IsProtocol(a) && Enabled(g, s, a)
  {
    if s.sent < |s.producers| {
      assert ProducerOk(g, s, s.sent);
      a := if s.producers[s.sent].queue == [] then Send else Take(s.sent);
    } else if p :| 0 <= p < |s.producers| && s.producers[p].state != Dead {
      var q := Lowest(g, s, p);
      assert ProducerOk(g, s, q);
      match s.producers[q].control
      case Listening => a := Take(q);
      case Waiting(k) => a := if k < |g[q]| then Check(q) else EnterStopping(q);
      case Closing => a := Die(q);
    } else if p :| 0 <= p < |s.producers| && s.producers[p].working {
      a := Leave(p);
    } else {
      a := Finish;
    }
  }

  // -------------------------------------------------------------- termination

  /** The protocol steps a producer has ahead of it. */
  function Ahead(g: Graph<nat>, p: nat, x: Producer): nat {
    var deps := if p in g then |g[p]| else 0;
    |x.queue| + (if x.working then 1 else 0) +
    match x.control
    case Listening => deps + 3
    case Waiting(k) => if k <= deps then deps - k + 2 else 2
    case Closing => 1
    case Gone => 0
  }

  function AheadOfAll(g: Graph<nat>, producers: seq<Producer>): nat {
    if producers == [] then 0
    else AheadOfAll(g, producers[..|producers| - 1]) + Ahead(g, |producers| - 1, producers[|producers| - 1])
  }

  function Measure(g: Graph<nat>, s: System): nat {
    AheadOfAll(g, s.producers)
      + (if s.sent <= |s.producers| then 2 * (|s.producers| - s.sent) else 0)
      + if s.stopped then 0 else 1
  }

  lemma {:induction false} AheadChanges(g: Graph<nat>, producers: seq<Producer>, p: nat, x: Producer)
    requires p < |producers|
    ensures AheadOfAll(g, producers[p := x]) == AheadOfAll(g, producers) - Ahead(g, p, producers[p]) + Ahead(g, p, x)
  {
    var n := |producers| - 1;
    if p < n {
      assert producers[p := x][..n] == producers[..n][p := x];
      AheadChanges(g, producers[..n], p, x);
    } else {
      assert producers[p := x][..n] == producers[..n];
    }
  }

  /** A step of one producer changes nothing but that producer, and shortens what it has ahead. */
  lemma MoveAhead(g: Graph<nat>, s: System, p: nat, a: Action)
    requires Inv(g, s) && p < |s.producers| && Move(g, s, p, a).Some?
    ensures var s' := Move(g, s, p, a).value;
      |s'.producers| == |s.producers| && s' == With(s, p, s'.producers[p])
      && (if a.Enqueue? then Ahead(g, p, s'.producers[p]) == Ahead(g, p, s.producers[p])
          else Ahead(g, p, s'.producers[p]) < Ahead(g, p, s.producers[p]))
  {
    assert ProducerOk(g, s, p);
  }

  /** Every protocol step brings the end closer; messages that are still enqueued do not delay it. */
  lemma StepMeasure(g: Graph<nat>, s: System, a: Action)
    requires Inv(g, s) && Step(g, s, a).Some?
    ensures var m := Measure(g, Step(g, s, a).value); if IsProtocol(a) then m < Measure(g, s) else m == Measure(g, s)
  {
    hide Move, Ahead, ProducerOk;
    var s' := Step(g, s, a).value;
    if a.Send? {
      SendAhead(g, s);
    } else if !a.Finish? {
      MoveAhead(g, s, a.p, a);
      AheadChanges(g, s.producers, a.p, s'.producers[a.p]);
    }
  }

  lemma SendAhead(g: Graph<nat>, s: System)
    requires Inv(g, s) && Step(g, s, Send).Some?
    ensures AheadOfAll(g, Step(g, s, Send).value.producers) == AheadOfAll(g, s.producers) + 1
  {
    hide ProducerOk;
    AheadChanges(g, s.producers, s.sent, Step(g, s, Send).value.producers[s.sent]);
  }

  function ProtocolSteps(actions: seq<Action>): nat {
    if actions == [] then 0 else (if IsProtocol(actions[0]) then 1 else 0) + ProtocolSteps(actions[1..])
  }

  /** So every run has a bounded number of protocol steps. */
  lemma {:induction false} RunIsBounded(g: Graph<nat>, s: System, actions: seq<Action>)
    requires Inv(g, s) && Exec(g, s, actions).Some?
    ensures ProtocolSteps(actions) + Measure(g, Exec(g, s, actions).value) <= Measure(g, s)
    decreases |actions|
  {
    if actions != [] {
      StepInv(g, s, actions[0]);
      StepMeasure(g, s, actions[0]);
      RunIsBounded(g, Step(g, s, actions[0]).value, actions[1..]);
    }
  }

  /** A protocol step that is possible stays possible until it is taken, so a run in which no
      step is put off forever takes protocol steps until shutdown is complete. */
  lemma StaysEnabled(g: Graph<nat>, s: System, a: Action, b: Action)
    requires Inv(g, s) && IsProtocol(a) && a != b && Enabled(g, s, a) && Enabled(g, s, b)
    ensures Fits(g, Step(g, s, b).value) && Enabled(g, Step(g, s, b).value, a)
  {
    StepInv(g, s, b);
    if a.Send? || a.Finish? {
      SenderStaysEnabled(g, s, a, b);
    } else {
      if a.Check? { DeadStays(g, s, b, g[a.p][s.producers[a.p].control.k]); }
      MoverStaysEnabled(g, s, a, b);
    }
  }

  lemma SenderStaysEnabled(g: Graph<nat>, s: System, a: Action, b: Action)
    requires Inv(g, s) && (a.Send? || a.Finish?) && a != b && Enabled(g, s, a) && Enabled(g, s, b)
    requires Fits(g, Step(g, s, b).value)
    ensures Enabled(g, Step(g, s, b).value, a)
  {
  }

  lemma MoverStaysEnabled(g: Graph<nat>, s: System, a: Action, b: Action)
    requires Inv(g, s) && IsProtocol(a) && !a.Send? && !a.Finish? && a != b && Enabled(g, s, a) && Enabled(g, s, b)
    requires Fits(g, Step(g, s, b).value)
    requires a.Check? ==> Step(g, s, b).value.producers[g[a.p][s.producers[a.p].control.k]].state == Dead
    ensures Enabled(g, Step(g, s, b).value, a)
  {
    hide ProducerOk, FirstAreDead;
  }

  /** From every reachable state of an acyclic system shutdown can be completed. */
  lemma {:induction false} CanFinish(g: Graph<nat>, s: System) returns (actions: seq<Action>)
    requires Inv(g, s) && Acyclic(g)
    ensures Exec(g, s, actions).Some? && Final(Exec(g, s, actions).value)
    decreases Measure(g, s)
  {
    if Final(s) {
      actions := [];
    } else {
      var a := SomeStepIsEnabled(g, s);
      StepInv(g, s, a);
      StepMeasure(g, s, a);
      var rest := CanFinish(g, Step(g, s, a).value);
      actions := [a] + rest;
      assert actions[1..] == rest;
    }
  }

  /** Shutdown completes exactly if the dependencies are acyclic. */
  lemma ShutdownCompletesIffAcyclic(g: Graph<nat>, s: System)
    requires Fits(g, s) && Initial(s)
    ensures Acyclic(g) <==> exists actions :: Exec(g, s, actions).Some? && Final(Exec(g, s, actions).value)
  {
    InitialInv(g, s);
    if Acyclic(g) {
      var actions := CanFinish(g, s);
      assert Exec(g, s, actions).Some?;
    } else {
      var p :| p in g && Reach(g, p, p);
      forall actions | Exec(g, s, actions).Some? ensures !Final(Exec(g, s, actions).value) {
        CycleNeverStops(g, s, actions, p);
      }
    }
  }

  /** A producer on a cycle of dependencies never stops. */
  lemma {:induction false} CycleNeverStops(g: Graph<nat>, s: System, actions: seq<Action>, p: nat)
    requires Inv(g, s) && Exec(g, s, actions).Some? && p in g && Reach(g, p, p)
    requires CyclesRun(g, s)
    ensures p < |Exec(g, s, actions).value.producers| && !Exec(g, s, actions).value.producers[p].state.AtLeastStopping()
    decreases |actions|
  {
    if actions != [] {
      StepInv(g, s, actions[0]);
      CyclesKeepRunning(g, s, actions[0]);
      CycleNeverStops(g, Step(g, s, actions[0]).value, actions[1..], p);
    }
  }

  ghost predicate CyclesRun(g: Graph<nat>, s: System)
  {
    forall p: nat | p < |s.producers| && Reach(g, p, p) :: !s.producers[p].state.AtLeastStopping()
  }

  lemma CyclesKeepRunning(g: Graph<nat>, s: System, a: Action)
    requires Inv(g, s) && CyclesRun(g, s) && Step(g, s, a).Some?
    ensures CyclesRun(g, Step(g, s, a).value)
  {
    var s' := Step(g, s, a).value;
    forall p: nat | p < |s'.producers| && Reach(g, p, p) ensures !s'.producers[p].state.AtLeastStopping() {
      assert ProducerOk(g, s, p);
      var q: nat := ReachFirst(g, p, p);
      if q != p { ReachIsTransitive(g, q, p, q) by { EdgeReaches(g, p, q); } }
      assert Reach(g, q, q);
      var i :| 0 <= i < |g[p]| && g[p][i] == q;
      assert s.producers[q].state != Dead;
    }
  }

  // ---------------------------------------------------------------- fair runs

  /** One index of an infinite run: a step, or nothing once shutdown is complete. */
  ghost predicate Goes(g: Graph<nat>, s: System, a: Action, s': System) {
    Fits(g, s) && (Step(g, s, a) == Some(s') || (Final(s) && s' == s))
  }

  ghost predicate IsRun(g: Graph<nat>, states: nat -> System, actions: nat -> Action) {
    Fits(g, states(0)) && Initial(states(0)) && forall i: nat :: Goes(g, states(i), actions(i), states(i + 1))
  }

  /** Every protocol step that is possible is taken later, or is not possible any more. */
  ghost predicate Fair(g: Graph<nat>, states: nat -> System, actions: nat -> Action)
    requires forall i: nat :: Fits(g, states(i))
  {
    forall i: nat, a | IsProtocol(a) && Enabled(g, states(i), a) ::
      exists j: nat :: i <= j && (actions(j) == a || !Enabled(g, states(j), a))
  }

  lemma {:induction false} RunInv(g: Graph<nat>, states: nat -> System, actions: nat -> Action, i: nat)
    requires IsRun(g, states, actions)
    ensures Inv(g, states(i))
  {
    if i == 0 {
      InitialInv(g, states(0));
    } else {
      RunInv(g, states, actions, i - 1);
      assert Goes(g, states(i - 1), actions(i - 1), states(i - 1 + 1));
      if Step(g, states(i - 1), actions(i - 1)).Some? { StepInv(g, states(i - 1), actions(i - 1)); }
    }
  }

  lemma RunFits(g: Graph<nat>, states: nat -> System, actions: nat -> Action)
    requires IsRun(g, states, actions)
    ensures forall i: nat :: Fits(g, states(i))
  {
    forall i: nat ensures Fits(g, states(i)) { RunInv(g, states, actions, i); }
  }

  /** Until the promised index some protocol step is taken. */
  lemma {:induction false} MovesOn(g: Graph<nat>, states: nat -> System, actions: nat -> Action, i: nat, j: nat,
                                   a: Action)
    returns (k: nat)
    requires IsRun(g, states, actions) && Inv(g, states(i)) && IsProtocol(a) && Enabled(g, states(i), a)
      && !Final(states(i))
    requires i <= j && Fits(g, states(j)) && (actions(j) == a || !Enabled(g, states(j), a))
    ensures Measure(g, states(k)) < Measure(g, states(i))
    decreases j - i
  {
    assert Goes(g, states(i), actions(i), states(i + 1));
    StepMeasure(g, states(i), actions(i));
    if IsProtocol(actions(i)) {
      k := i + 1;
    } else {
      StepInv(g, states(i), actions(i));
      StaysEnabled(g, states(i), a, actions(i));
      if Final(states(i + 1)) { NothingEnabledAtTheEnd(g, states(i + 1), a); }
      k := MovesOn(g, states, actions, i + 1, j, a);
    }
  }

  lemma NothingEnabledAtTheEnd(g: Graph<nat>, s: System, a: Action)
    requires Inv(g, s) && Final(s) && IsProtocol(a)
    ensures !Enabled(g, s, a)
  {
    if !a.Send? && !a.Finish? && a.p < |s.producers| { assert ProducerOk(g, s, a.p); }
  }

  lemma {:induction false} CompletesFrom(g: Graph<nat>, states: nat -> System, actions: nat -> Action, i: nat)
    requires IsRun(g, states, actions) && Acyclic(g)
    requires (forall i: nat :: Fits(g, states(i))) && Fair(g, states, actions)
    ensures exists n: nat :: Final(states(n))
    decreases Measure(g, states(i))
  {
    RunInv(g, states, actions, i);
    if !Final(states(i)) {
      var a := SomeStepIsEnabled(g, states(i));
      var j: nat :| i <= j && (actions(j) == a || !Enabled(g, states(j), a));
      var k := MovesOn(g, states, actions, i, j, a);
      CompletesFrom(g, states, actions, k);
    }
  }

  /** Every fair run over acyclic dependencies ends with all producers dead, however many messages
      are enqueued meanwhile. */
  lemma FairRunCompletes(g: Graph<nat>, states: nat -> System, actions: nat -> Action)
    requires IsRun(g, states, actions) && Acyclic(g)
    ensures forall i: nat :: Fits(g, states(i))
    ensures Fair(g, states, actions) ==> exists n: nat :: Final(states(n))
  {
    RunFits(g, states, actions);
    if Fair(g, states, actions) { CompletesFrom(g, states, actions, 0); }
  }

  /** `n` producers without dependencies. */
  ghost function Unlinked(n: nat): (g: Graph<nat>)
    ensures forall i :: i in g <==> 0 <= i < n
    ensures forall i :: i in g ==> g[i] == []
  {
    if n == 0 then map[] else Unlinked(n - 1)[n - 1 := []]
  }

  lemma UnlinkedIsSound(n: nat)
    ensures Dependencies.Sound(Unlinked(n))
  {
    var g := Unlinked(n);
    forall a: nat | a in g ensures !Reach(g, a, a) {
      if Reach(g, a, a) { var c := ReachFirst<nat>(g, a, a); }
    }
  }

  /** Whatever drop streams the producers are configured with: once they are linked, shutdown
      completes from every initial state. */
  lemma ConfiguredShutdownCompletes(s: System, calls: seq<(nat, seq<nat>)>)
    requires Initial(s) && Dependencies.CallsKnown(Unlinked(|s.producers|), calls)
    ensures var g := Dependencies.LinkedAll(Unlinked(|s.producers|), calls);
      Fits(g, s) && exists actions :: Exec(g, s, actions).Some? && Final(Exec(g, s, actions).value)
  {
    var g0 := Unlinked(|s.producers|);
    UnlinkedIsSound(|s.producers|);
    Dependencies.LinkedAllIsSound(g0, calls);
    var g := Dependencies.LinkedAll(g0, calls);
    assert Closed(g);
    ShutdownCompletesIffAcyclic(g, s);
  }

  /** And so does every fair run of producers that were linked by their drop streams. */
  lemma ConfiguredFairRunCompletes(states: nat -> System, actions: nat -> Action, calls: seq<(nat, seq<nat>)>)
    requires Dependencies.CallsKnown(Unlinked(|states(0).producers|), calls)
    requires IsRun(Dependencies.LinkedAll(Unlinked(|states(0).producers|), calls), states, actions)
    ensures var g := Dependencies.LinkedAll(Unlinked(|states(0).producers|), calls);
      (forall i: nat :: Fits(g, states(i))) && (Fair(g, states, actions) ==> exists n: nat :: Final(states(n)))
  {
    UnlinkedIsSound(|states(0).producers|);
    Dependencies.LinkedAllIsSound(Unlinked(|states(0).producers|), calls);
    FairRunCompletes(Dependencies.LinkedAll(Unlinked(|states(0).producers|), calls), states, actions);
  }
}
