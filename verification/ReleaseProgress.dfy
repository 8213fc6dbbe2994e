/** Every release that was queued comes to its end: from any state of a run, the loop's own steps lead
    to a state in which the channel is closed. */
module ReleaseProgress {
  import opened Basics
  import opened ReleaseProtocol
  import opened ReleaseSafety

  /** The steps take `s` to `t`. */
  predicate Leads(room: nat -> bool, s: State, steps: seq<Step>, t: State)
    decreases steps
  {
    if steps == [] then s == t
    else Enabled(s, steps[0]) && Leads(room, Apply(room, s, steps[0]), steps[1..], t)
  }

  /** The steps of the event loop: it finishes an accept, drains the queue and calls back. */
  predicate LoopStep(step: Step) {
    step.EndAcceptStep? || step.BeginDrainStep? || step.ExecuteStep? || step.EndDrainStep? || step.ClosedStep?
  }

  ghost predicate LoopSteps(steps: seq<Step>) {
    forall i :: 0 <= i < |steps| ==> LoopStep(steps[i])
  }

  lemma {:induction false} LeadsAppend(
      room: nat -> bool, s: State, a: seq<Step>, u: State, b: seq<Step>, t: State)
    requires Leads(room, s, a, u) && Leads(room, u, b, t)
    ensures Leads(room, s, a + b, t)
    decreases a
  {
    if a == [] {
      assert a + b == b;
    } else {
      assert (a + b)[1..] == a[1..] + b;
      LeadsAppend(room, Apply(room, s, a[0]), a[1..], u, b, t);
    }
  }

  lemma OneStep(room: nat -> bool, s: State, step: Step)
    requires Enabled(s, step)
    ensures Leads(room, s, [step], Apply(room, s, step))
  {
    assert [step][1..] == [];
  }

  /** The channel is on its way out and its release was not refused. */
  ghost predicate Leaving(s: State, c: Id) {
    Inv(s) && c in s.channels && s.channels[c].release != Idle && !s.channels[c].lost
  }

  const EXECUTE := ExecuteStep(false, false)

  lemma ExecuteLeaves(room: nat -> bool, s: State, c: Id) returns (t: State)
    requires Leaving(s, c) && s.draining && s.queue != []
    ensures Enabled(s, EXECUTE) && t == Apply(room, s, EXECUTE)
    ensures Leaving(t, c) && t.draining && t.accepting == s.accepting && t.queue == s.queue[1..]
  {
    assert s.queue[0] in s.queue;
    ExecuteKeeps(s, false, false);
    t := Execute(s, false, false);
  }

  lemma LeadsFirst(room: nat -> bool, s: State, step: Step, u: State, rest: seq<Step>, t: State)
    requires Enabled(s, step) && u == Apply(room, s, step) && Leads(room, u, rest, t)
    requires LoopStep(step) && LoopSteps(rest)
    ensures Leads(room, s, [step] + rest, t) && LoopSteps([step] + rest)
  {
    assert ([step] + rest)[1..] == rest;
  }

  /** An open drain runs until the queue is empty. */
  lemma {:induction false} DrainRuns(room: nat -> bool, s: State, c: Id) returns (steps: seq<Step>, t: State)
    requires Leaving(s, c) && s.draining
    ensures Leads(room, s, steps, t) && LoopSteps(steps)
    ensures Leaving(t, c) && t.draining && t.queue == [] && t.accepting == s.accepting
    decreases |s.queue|
  {
    if s.queue == [] {
      return [], s;
    }
    var u := ExecuteLeaves(room, s, c);
    var rest;
    rest, t := DrainRuns(room, u, c);
    LeadsFirst(room, s, EXECUTE, u, rest, t);
    steps := [EXECUTE] + rest;
  }

  /** An accept that is under way is finished. */
  lemma AcceptFinishes(room: nat -> bool, s: State, c: Id) returns (steps: seq<Step>, t: State)
    requires Leaving(s, c)
    ensures Leads(room, s, steps, t) && LoopSteps(steps)
    ensures Leaving(t, c) && t.accepting.None? && t.draining == s.draining
  {
    if s.accepting.None? {
      return [], s;
    }
    EndAcceptKeeps(s);
    OneStep(room, s, EndAcceptStep);
    steps, t := [EndAcceptStep], EndAccept(s);
  }

  lemma DrainOpens(room: nat -> bool, s: State, c: Id) returns (steps: seq<Step>, t: State)
    requires Leaving(s, c) && s.accepting.None?
    ensures Leads(room, s, steps, t) && LoopSteps(steps)
    ensures Leaving(t, c) && t.accepting.None? && t.draining
  {
    if s.draining {
      return [], s;
    }
    DrainKeeps(s, true);
    OneStep(room, s, BeginDrainStep);
    steps, t := [BeginDrainStep], s.(draining := true);
  }

  lemma DrainCloses(room: nat -> bool, s: State, c: Id) returns (steps: seq<Step>, t: State)
    requires Leaving(s, c) && s.accepting.None? && s.draining && s.queue == []
    ensures Leads(room, s, steps, t) && LoopSteps(steps)
    ensures Leaving(t, c) && t.accepting.None? && !t.draining && t.queue == []
  {
    DrainKeeps(s, false);
    OneStep(room, s, EndDrainStep);
    steps, t := [EndDrainStep], s.(draining := false);
  }

  /** Closed, and listed by no listener. */
  ghost predicate Gone(s: State, c: Id) {
    && c in s.channels && s.channels[c].release == Closed
    && forall l :: l in s.channels ==> c !in s.channels[l].accepted
  }

  /** Between drains, with an empty queue, at most the callback is missing. */
  lemma CallbackCloses(room: nat -> bool, s: State, c: Id) returns (steps: seq<Step>, t: State)
    requires Leaving(s, c) && s.accepting.None? && !s.draining && s.queue == []
    ensures Leads(room, s, steps, t) && LoopSteps(steps) && Gone(t, c)
  {
    assert LifeOk(s.channels[c], c in s.collection, Queued(s.queue, c), s.draining);
    if s.channels[c].release == Closed {
      ClosedIsUnlisted(s, c);
      return [], s;
    }
    assert ListenerOk(s.channels, {}, c);
    ClosedEnds(room, s, c);
    OneStep(room, s, ClosedStep(c));
    steps, t := [ClosedStep(c)], OnClosed(room, s, c);
  }

  /** A whole turn of the loop. */
  lemma TurnOfLoop(room: nat -> bool, s: State, c: Id) returns (steps: seq<Step>, t: State)
    requires Leaving(s, c)
    ensures Leads(room, s, steps, t) && LoopSteps(steps)
    ensures Leaving(t, c) && t.accepting.None? && t.draining && t.queue == []
  {
    var a, u := AcceptFinishes(room, s, c);
    var b, v := DrainOpens(room, u, c);
    var d, x := DrainRuns(room, v, c);
    LeadsAppend(room, u, b, v, d, x);
    LeadsAppend(room, s, a, u, b + d, x);
    steps, t := a + (b + d), x;
  }

  lemma LeavingIsClosed(room: nat -> bool, s: State, c: Id) returns (steps: seq<Step>, t: State)
    requires Leaving(s, c)
    ensures Leads(room, s, steps, t) && LoopSteps(steps) && Gone(t, c)
  {
    var a, u := TurnOfLoop(room, s, c);
    var b, v := DrainCloses(room, u, c);
    var d, x := CallbackCloses(room, v, c);
    LeadsAppend(room, u, b, v, d, x);
    LeadsAppend(room, s, a, u, b + d, x);
    steps, t := a + (b + d), x;
  }

  /** In every run: a channel that was removed from the manager and whose release was not refused can
      always be brought to its end by the loop alone, closed and listed by no listener, whatever the
      queue holds in front of its release and whatever accept or drain is open. */
  lemma RemovedIsClosed(
      room: nat -> bool, nbMax: nat, states: seq<State>, steps: seq<Step>, i: nat, c: Id)
    returns (more: seq<Step>, t: State)
    requires IsRun(room, nbMax, states, steps) && i < |states|
    requires c in states[i].channels && c !in states[i].collection && !states[i].channels[c].lost
    ensures Leads(room, states[i], more, t) && LoopSteps(more) && Gone(t, c)
  {
    RunKeeps(room, nbMax, states, steps, i);
    var s := states[i];
    assert LifeOk(s.channels[c], c in s.collection, Queued(s.queue, c), s.draining);
    more, t := LeavingIsClosed(room, s, c);
  }
}
