/** From the cluster to the browser: the watch loop's mutations, published as deltas, some of
    them dropped, folded by a browser that connected at any moment. */
module EndToEnd {
  import opened Json
  import opened Options
  import opened ServerState
  import opened ClientStore
  import opened Coupling
  import Lossy
  import Watch

  /** The mutations that one step performs. */
  ghost function StepOps(kind: Kind, sys: Watch.System, step: Watch.Step): seq<Op>
    requires |sys.seen| == sys.pos <= |sys.log|
  {
    if !Watch.Enabled(kind, sys, step) then []
    else
      match step
      case Listed(_, items) => Watch.SeedOps(kind, items, 0.0)
      case Watched => [Watch.ApplyOp(kind, sys.log[sys.pos], 0.0)]
      case Elsewhere(op) => [op]
      case _ => []
  }

  /** The mutations after the first n steps of a run. */
  ghost function OpsSince(kind: Kind, start: Watch.System, steps: seq<Watch.Step>, n: nat): seq<Op>
    requires Watch.Initial(kind, start) && n <= |steps|
  {
    if |steps| == n then []
    else
      var prev := steps[..|steps| - 1];
      OpsSince(kind, start, prev, n) + StepOps(kind, Watch.StateAfter(kind, start, prev), steps[|steps| - 1])
  }

  lemma {:induction false} RunOpsSplit(v: View, a: seq<Op>, b: seq<Op>)
    ensures RunOps(v, a + b) == RunOps(RunOps(v, a), b)
    decreases |b|
  {
    if b == [] {
      assert a + b == a;
    } else {
      assert (a + b)[..|a + b| - 1] == a + b[..|b| - 1];
      RunOpsSplit(v, a, b[..|b| - 1]);
    }
  }

  lemma RunOne(v: View, op: Op)
    ensures RunOps(v, [op]) == After(v, op)
  {
    assert [op][..0] == [];
  }

  lemma {:induction false} OpsReachState(kind: Kind, start: Watch.System, steps: seq<Watch.Step>, n: nat)
    requires Watch.Initial(kind, start) && n <= |steps|
    ensures Watch.StateAfter(kind, start, steps).v
         == RunOps(Watch.StateAfter(kind, start, steps[..n]).v, OpsSince(kind, start, steps, n))
  {
    if |steps| == n {
      assert steps[..n] == steps;
    } else {
      var prev, step := steps[..|steps| - 1], steps[|steps| - 1];
      OpsReachState(kind, start, prev, n);
      assert prev[..n] == steps[..n];
      var sys := Watch.StateAfter(kind, start, prev);
      RunOpsSplit(Watch.StateAfter(kind, start, steps[..n]).v, OpsSince(kind, start, prev, n),
                  StepOps(kind, sys, step));
      StepOpsRun(kind, sys, step);
    }
  }

  lemma StepOpsRun(kind: Kind, sys: Watch.System, step: Watch.Step)
    requires |sys.seen| == sys.pos <= |sys.log|
    ensures RunOps(sys.v, StepOps(kind, sys, step))
         == if Watch.Enabled(kind, sys, step) then Watch.Next(kind, sys, step).v else sys.v
  {
    if Watch.Enabled(kind, sys, step) {
      match step
      case Watched => RunOne(sys.v, Watch.ApplyOp(kind, sys.log[sys.pos], 0.0));
      case Elsewhere(op) => RunOne(sys.v, op);
      case _ =>
    }
  }

  // ---------------- the mappers' and collectors' guarantees ----------------

  predicate Keyed(kind: Kind, obj: Record) {
    Get(obj, KeyField(kind)).Str?
  }

  /** Mapped objects carry their key, and the other collectors keep their side (`ValidOp`). */
  ghost predicate Proper(kind: Kind, start: Watch.System, steps: seq<Watch.Step>) {
    && ServerInv(start.v)
    && (forall ev <- start.log :: Keyed(kind, ev.obj))
    && (forall step <- steps :: ProperStep(kind, step))
  }

  ghost predicate ProperStep(kind: Kind, step: Watch.Step) {
    match step
    case Change(ev) => Keyed(kind, ev.obj)
    case Elsewhere(op) => ValidOp(op)
    case _ => true
  }

  lemma {:induction false} LogKeyed(kind: Kind, start: Watch.System, steps: seq<Watch.Step>)
    requires Watch.Initial(kind, start) && Proper(kind, start, steps)
    ensures forall ev <- Watch.StateAfter(kind, start, steps).log :: Keyed(kind, ev.obj)
  {
    if steps != [] {
      LogKeyed(kind, start, steps[..|steps| - 1]);
      assert ProperStep(kind, steps[|steps| - 1]);
    }
  }

  lemma {:induction false} ClusterKeyed(kind: Kind, log: seq<Watch.Event>, k: string)
    requires forall ev <- log :: Keyed(kind, ev.obj)
    requires Watch.InCluster(kind, log, k).Some?
    ensures Keyed(kind, Watch.InCluster(kind, log, k).value)
  {
    var n := |log| - 1;
    if Watch.KeyOf(kind, log[n].obj) != k {
      ClusterKeyed(kind, log[..n], k);
    }
  }

  lemma StepOpsValid(kind: Kind, sys: Watch.System, step: Watch.Step)
    requires |sys.seen| == sys.pos <= |sys.log|
    requires ProperStep(kind, step) && forall ev <- sys.log :: Keyed(kind, ev.obj)
    ensures ValidOps(StepOps(kind, sys, step))
  {
    if Watch.Enabled(kind, sys, step) && step.Listed? {
      var items := step.items;
      forall i | 0 <= i < |items| ensures ValidOp(Watch.SeedOps(kind, items, 0.0)[i]) {
        assert items[i] in items;
        ClusterKeyed(kind, sys.log[..step.version], Watch.KeyOf(kind, items[i]));
        Watch.ApplyIsValid(kind, Watch.Event(false, items[i]), 0.0);
      }
    } else if Watch.Enabled(kind, sys, step) && step.Watched? {
      assert sys.log[sys.pos] in sys.log;
      Watch.ApplyIsValid(kind, sys.log[sys.pos], 0.0);
    }
  }

  lemma {:induction false} OpsValid(kind: Kind, start: Watch.System, steps: seq<Watch.Step>, n: nat)
    requires Watch.Initial(kind, start) && Proper(kind, start, steps) && n <= |steps|
    ensures ValidOps(OpsSince(kind, start, steps, n))
  {
    if |steps| > n {
      var prev := steps[..|steps| - 1];
      OpsValid(kind, start, prev, n);
      LogKeyed(kind, start, prev);
      assert ProperStep(kind, steps[|steps| - 1]);
      StepOpsValid(kind, Watch.StateAfter(kind, start, prev), steps[|steps| - 1]);
    }
  }

  lemma StartedInv(kind: Kind, start: Watch.System, steps: seq<Watch.Step>)
    requires Watch.Initial(kind, start) && Proper(kind, start, steps)
    ensures ServerInv(Watch.StateAfter(kind, start, steps).v)
  {
    OpsReachState(kind, start, steps, 0);
    assert steps[..0] == [];
    OpsValid(kind, start, steps, 0);
    RunKeepsInv(start.v, OpsSince(kind, start, steps, 0));
  }

  /** A browser that connects after n steps gets that state and then the kept deltas. If the last
      message about a key was not dropped, the browser shows the cluster's object under that key
      exactly when the object passes the filter, with its latest value; it differs from the
      filtered cluster if and only if the key is a ghost of the watch. */
  lemma ClusterReachesBrowser(kind: Kind, start: Watch.System, steps: seq<Watch.Step>, n: nat,
                              kept: seq<bool>, k: string)
    requires Watch.Initial(kind, start) && Proper(kind, start, steps) && n <= |steps|
    requires
      var log := Log(Watch.StateAfter(kind, start, steps[..n]).v, OpsSince(kind, start, steps, n));
      |kept| == |log| && Lossy.LastTouchKept(log, kept, Lossy.ObjectSlot(kind, k))
    ensures
      var base := Watch.StateAfter(kind, start, steps[..n]).v;
      var browser := ApplyAll(base, Lossy.Kept(Log(base, OpsSince(kind, start, steps, n)), kept));
      var sys := Watch.StateAfter(kind, start, steps);
      var there := Watch.InCluster(kind, sys.log[..sys.pos], k);
      && (there.Some? ==> Find(browser.objects, (kind, k)) == Watch.Filtered(kind, there))
      && (there.Some? ==> Watch.ShownAs(kind, there.value, Find(browser.objects, (kind, k))))
      && (Find(browser.objects, (kind, k)) == Watch.Filtered(kind, there) <==> !Watch.Ghost(kind, sys, k))
  {
    var base, ops := Watch.StateAfter(kind, start, steps[..n]).v, OpsSince(kind, start, steps, n);
    StartedInv(kind, start, steps[..n]);
    OpsValid(kind, start, steps, n);
    OpsReachState(kind, start, steps, n);
    Lossy.SlotConverges(base, ops, kept, Lossy.ObjectSlot(kind, k));
    Watch.Fidelity(kind, start, steps, k);
    Watch.ShownByKind(kind, start, steps, k);
    var browser := ApplyAll(base, Lossy.Kept(Log(base, ops), kept));
    assert Lossy.Shown(browser, Lossy.ObjectSlot(kind, k)) == Lossy.Entry(Find(browser.objects, (kind, k)));
  }
}
