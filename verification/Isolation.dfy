/** Connections do not influence each other: a run of the protocol seen by one of them, with all
    other `ws_state` loops stalled (backend/app/ws.py, backend/app/state.py). */
module Isolation {
  import opened Options
  import opened ServerState
  import opened Protocol

  /** Not a step of another connection's `ws_state` loop. */
  predicate Serves(step: Step, i: nat) {
    (step.Forward? || step.Heartbeat?) ==> step.s == i
  }

  /** The same steps with every other loop stalled: it neither forwards nor sends. */
  function OnlyServing(steps: seq<Step>, i: nat): seq<Step> {
    if steps == [] then []
    else
      OnlyServing(steps[..|steps| - 1], i) +
      (if Serves(steps[|steps| - 1], i) then [steps[|steps| - 1]] else [])
  }

  /** In that run the other loops do nothing and all other steps stay, in order. */
  lemma {:induction false} OnlyTheirs(steps: seq<Step>, i: nat, n: nat)
    requires n < |steps|
    ensures
      var before := OnlyServing(steps[..n], i);
      OnlyServing(steps[..n + 1], i)
      == if (steps[n].Forward? || steps[n].Heartbeat?) && steps[n].s != i then before else before + [steps[n]]
    ensures OnlyServing(steps[..n], i) <= OnlyServing(steps, i)
    decreases |steps|
  {
    assert steps[..n + 1][..n] == steps[..n];
    if n + 1 < |steps| {
      var rest := steps[..|steps| - 1];
      OnlyTheirs(rest, i, n);
      assert rest[..n] == steps[..n];
    } else {
      assert steps[..n + 1] == steps;
    }
  }

  ghost function Stepped(sys: System, step: Step): System {
    if Enabled(sys, step) then Next(sys, step) else sys
  }

  /** Equal as far as session i can tell: it is the same, apart from what its browser held
      before connecting. */
  ghost predicate Alike(x: System, y: System, i: nat) {
    && x.replicas == y.replicas
    && |x.browsers| == |y.browsers|
    && (forall b :: 0 <= b < |x.browsers| ==> x.browsers[b].session == y.browsers[b].session)
    && |x.sessions| == |y.sessions|
    && (forall k :: 0 <= k < |x.sessions| ==> AlikeSessions(x.sessions[k], y.sessions[k], k == i))
  }

  ghost predicate AlikeSessions(s: Session, t: Session, whole: bool) {
    && s.live == t.live && s.replica == t.replica
    && (whole ==> s.(before := None) == t.(before := None))
  }

  lemma AlikeSteps(x: System, y: System, step: Step, i: nat)
    requires Alike(x, y, i) && Serves(step, i)
    ensures Alike(Stepped(x, step), Stepped(y, step), i)
  {
    match step
    case Mutate(r, op) => AlikeMutate(x, y, step, i);
    case Connect(b, r) => AlikeConnect(x, y, step, i);
    case Deliver(b) => AlikeDeliver(x, y, step, i);
    case Restart(r, v) =>
    case Disconnect(b) =>
    case _ =>
      if step.s < |x.sessions| {
        assert AlikeSessions(x.sessions[step.s], y.sessions[step.s], step.s == i);
      }
  }

  lemma AlikeMutate(x: System, y: System, step: Step, i: nat)
    requires Alike(x, y, i) && step.Mutate?
    ensures Alike(Stepped(x, step), Stepped(y, step), i)
  {
    if Enabled(x, step) {
      var x', y' := Next(x, step), Next(y, step);
      forall k | 0 <= k < |x.sessions| ensures AlikeSessions(x'.sessions[k], y'.sessions[k], k == i) {
        assert AlikeSessions(x.sessions[k], y.sessions[k], k == i);
      }
    }
  }

  lemma AlikeConnect(x: System, y: System, step: Step, i: nat)
    requires Alike(x, y, i) && step.Connect?
    ensures Alike(Stepped(x, step), Stepped(y, step), i)
  {
    if Enabled(x, step) {
      var x', y' := Next(x, step), Next(y, step);
      forall k | 0 <= k < |x'.sessions| ensures AlikeSessions(x'.sessions[k], y'.sessions[k], k == i) {
        assert k < |x.sessions| ==> AlikeSessions(x.sessions[k], y.sessions[k], k == i);
      }
    }
  }

  lemma AlikeDeliver(x: System, y: System, step: Step, i: nat)
    requires Alike(x, y, i) && step.Deliver?
    ensures Alike(Stepped(x, step), Stepped(y, step), i)
  {
    var x', y' := Stepped(x, step), Stepped(y, step);
    forall k | 0 <= k < |x.sessions| ensures AlikeSessions(x'.sessions[k], y'.sessions[k], k == i) {
      assert AlikeSessions(x.sessions[k], y.sessions[k], k == i);
    }
  }

  /** Isolation, over whole runs: a connection's queue, what it was sent and what it lost are the
      same whether all other connections keep up or none of them ever takes a message. */
  lemma {:induction false} StalledNeighbours(start: System, steps: seq<Step>, i: nat)
    requires Initial(start)
    ensures Alike(StateAfter(start, steps), StateAfter(start, OnlyServing(steps, i)), i)
  {
    if steps != [] {
      var n := |steps| - 1;
      StalledNeighbours(start, steps[..n], i);
      var x, y := StateAfter(start, steps[..n]), StateAfter(start, OnlyServing(steps[..n], i));
      if Serves(steps[n], i) {
        var less := OnlyServing(steps, i);
        assert less[..|less| - 1] == OnlyServing(steps[..n], i);
        AlikeSteps(x, y, steps[n], i);
      } else {
        assert OnlyServing(steps, i) == OnlyServing(steps[..n], i);
      }
    }
  }
}
