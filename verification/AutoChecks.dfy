/** The reconciler of auto-discovered healthchecks (backend/app/collectors/autochecks.py): a
    poll loop that starts and cancels one probe loop per check, all on one event loop. */
module AutoChecks {
  import opened Json
  import opened Ring
  import opened ServerState
  import opened Coupling

  datatype Check =
    | RouteCheck(clusterIp: string, port: int, tls: bool, hostname: string)
    | ServiceCheck(clusterIp: string, port: int, serviceRef: string)

  /** Where a probe loop stands: before its `checks.get(name)` (just created, or asleep until
      then), awaiting a probe, or returned. */
  datatype Pc = AtHead | Probing(check: Check) | Finished

  datatype Loop = Loop(name: string, pc: Pc, cancelled: bool)

  /** `tasks` and `checks` are the dictionaries of `run`; `loops` are all tasks ever created,
      `recorded` the names in `state.healthchecks`. */
  datatype System = System(
    tasks: map<string, nat>, loops: seq<Loop>, checks: map<string, Check>, recorded: set<string>
  )

  datatype Step =
    | Reconcile(desired: map<string, Check>)   // one pass of `run`, no await inside
    | Resume(id: nat)                          // a probe loop runs from one await to the next
    | RecordConfigured(name: string)           // a result of a YAML-configured check
    | Shutdown                                 // the `finally` of `run`

  /** The names whose loops a pass stops. */
  function Dropped(s: System, desired: map<string, Check>): set<string> {
    s.tasks.Keys - desired.Keys
  }

  ghost predicate Reconciled(s: System, s': System, desired: map<string, Check>) {
    && s'.checks == desired
    && s'.tasks.Keys == desired.Keys
    && s'.recorded == s.recorded - Dropped(s, desired)
    && |s.loops| <= |s'.loops|
    // old loops: stopped if dropped, otherwise left alone
    && (forall id :: 0 <= id < |s.loops| ==>
          s'.loops[id] == s.loops[id].(cancelled := s.loops[id].cancelled
            || exists name :: name in Dropped(s, desired) && s.tasks[name] == id))
    && (forall name <- s'.tasks | name in s.tasks :: s'.tasks[name] == s.tasks[name])
    // new loops: exactly one for each name that had none
    && (forall name <- s'.tasks | name !in s.tasks ::
          && |s.loops| <= s'.tasks[name] < |s'.loops|
          && s'.loops[s'.tasks[name]] == Loop(name, AtHead, false))
    && (forall id :: |s.loops| <= id < |s'.loops| ==>
          s'.loops[id].name in s'.tasks && s'.tasks[s'.loops[id].name] == id)
  }

  /** One resumption of a loop. A cancelled task gets CancelledError at the await (or at its
      first step) and ends without recording anything. */
  function Resumed(s: System, id: nat): System
    requires id < |s.loops|
  {
    var l := s.loops[id];
    if l.cancelled then s.(loops := s.loops[id := l.(pc := Finished)])
    else
      match l.pc
      case AtHead =>
        if l.name in s.checks then s.(loops := s.loops[id := l.(pc := Probing(s.checks[l.name]))])
        else s.(loops := s.loops[id := l.(pc := Finished)])
      case Probing(_) =>
        s.(loops := s.loops[id := l.(pc := AtHead)], recorded := s.recorded + {l.name})
      case Finished => s
  }

  ghost predicate NextStep(configured: set<string>, s: System, s': System, step: Step) {
    match step
    case Reconcile(desired) => desired.Keys !! configured && Reconciled(s, s', desired)
    case Resume(id) => id < |s.loops| && s' == Resumed(s, id)
    case RecordConfigured(name) => name in configured && s' == s.(recorded := s.recorded + {name})
    case Shutdown =>
      s' == System(map[], seq(|s.loops|, i requires 0 <= i < |s.loops| =>
                     if s.loops[i].name in s.tasks && s.tasks[s.loops[i].name] == i
                     then s.loops[i].(cancelled := true) else s.loops[i]),
                   map[], s.recorded)
  }

  predicate Active(l: Loop) {
    !l.cancelled && !l.pc.Finished?
  }

  /** Every active loop is the one registered for its name, every registered loop is active,
      the registered names are the desired checks. */
  ghost predicate LoopsInv(s: System) {
    && s.tasks.Keys == s.checks.Keys
    && (forall name <- s.tasks ::
          s.tasks[name] < |s.loops| && s.loops[s.tasks[name]].name == name && Active(s.loops[s.tasks[name]]))
    && (forall id :: 0 <= id < |s.loops| && Active(s.loops[id]) ==>
          s.loops[id].name in s.tasks && s.tasks[s.loops[id].name] == id)
  }

  /** A run before `Shutdown`, as its states. */
  ghost predicate Run(configured: set<string>, states: seq<System>, steps: seq<Step>) {
    && |states| == |steps| + 1
    && states[0] == System(map[], [], map[], {})
    && (forall i :: 0 <= i < |steps| ==> NextStep(configured, states[i], states[i + 1], steps[i]))
    && (forall i :: 0 <= i < |steps| ==> !steps[i].Shutdown?)
  }

  lemma ReconcileKeepsInv(s: System, s': System, desired: map<string, Check>)
    requires LoopsInv(s) && Reconciled(s, s', desired)
    ensures LoopsInv(s')
  {
    forall name <- s'.tasks
      ensures s'.tasks[name] < |s'.loops| && s'.loops[s'.tasks[name]].name == name && Active(s'.loops[s'.tasks[name]])
    {
      if name in s.tasks {
        var id := s.tasks[name];
        assert forall other :: other in Dropped(s, desired) ==> s.loops[s.tasks[other]].name == other;
        assert !exists other :: other in Dropped(s, desired) && s.tasks[other] == id;
      }
    }
    forall id | 0 <= id < |s'.loops| && Active(s'.loops[id])
      ensures s'.loops[id].name in s'.tasks && s'.tasks[s'.loops[id].name] == id
    {
      if id < |s.loops| {
        var name := s.loops[id].name;
        assert Active(s.loops[id]);
        assert name in s.tasks && s.tasks[name] == id;
        assert name !in Dropped(s, desired);
      }
    }
  }

  /** A loop that was not cancelled finds its check: the branch that returns is never taken. */
  lemma HeadFindsCheck(s: System, id: nat)
    requires LoopsInv(s) && id < |s.loops| && Active(s.loops[id])
    ensures s.loops[id].name in s.checks
  {
  }

  lemma ResumeKeepsInv(configured: set<string>, s: System, id: nat)
    requires LoopsInv(s) && s.recorded <= s.checks.Keys + configured && id < |s.loops|
    ensures LoopsInv(Resumed(s, id)) && Resumed(s, id).recorded <= s.checks.Keys + configured
  {
    var s' := Resumed(s, id);
    assert s'.tasks == s.tasks && s'.checks == s.checks && |s'.loops| == |s.loops|;
    assert forall i :: 0 <= i < |s.loops| ==> s'.loops[i].name == s.loops[i].name;
    if Active(s.loops[id]) {
      HeadFindsCheck(s, id);
    }
    assert forall i :: 0 <= i < |s.loops| ==> (Active(s'.loops[i]) <==> Active(s.loops[i]));
  }

  lemma StepKeepsInv(configured: set<string>, s: System, s': System, step: Step)
    requires LoopsInv(s) && s.recorded <= s.checks.Keys + configured
    requires NextStep(configured, s, s', step) && !step.Shutdown?
    ensures LoopsInv(s') && s'.recorded <= s'.checks.Keys + configured
  {
    match step
    case Reconcile(desired) => ReconcileKeepsInv(s, s', desired);
    case Resume(id) => ResumeKeepsInv(configured, s, id);
    case RecordConfigured(name) =>
  }

  lemma {:induction false} RunKeepsInv(configured: set<string>, states: seq<System>, steps: seq<Step>, i: nat)
    requires Run(configured, states, steps) && i < |states|
    ensures LoopsInv(states[i]) && states[i].recorded <= states[i].checks.Keys + configured
  {
    if i > 0 {
      RunKeepsInv(configured, states, steps, i - 1);
      assert NextStep(configured, states[i - 1], states[i], steps[i - 1]);
      StepKeepsInv(configured, states[i - 1], states[i], steps[i - 1]);
    }
  }

  /** Under every interleaving: at most one uncancelled loop per name, a loop for exactly the
      desired checks, and no result for a check that is not wanted. */
  lemma Lifecycle(configured: set<string>, states: seq<System>, steps: seq<Step>, i: nat)
    requires Run(configured, states, steps) && i < |states|
    ensures
      var s := states[i];
      && (forall a, b :: 0 <= a < b < |s.loops| && Active(s.loops[a]) && Active(s.loops[b])
            ==> s.loops[a].name != s.loops[b].name)
      && s.tasks.Keys == s.checks.Keys
      && (forall name <- s.checks :: exists a :: 0 <= a < |s.loops| && Active(s.loops[a]) && s.loops[a].name == name)
      && s.recorded <= s.checks.Keys + configured
  {
    RunKeepsInv(configured, states, steps, i);
    var s := states[i];
    forall name <- s.checks ensures exists a :: 0 <= a < |s.loops| && Active(s.loops[a]) && s.loops[a].name == name {
      assert Active(s.loops[s.tasks[name]]);
    }
  }

  /** Cancelled loops stay cancelled and keep their name. */
  lemma {:induction false} CancelledForGood(configured: set<string>, states: seq<System>, steps: seq<Step>,
                                           i: nat, j: nat, id: nat)
    requires Run(configured, states, steps) && i <= j < |states|
    requires id < |states[i].loops|
    ensures id < |states[j].loops| && states[j].loops[id].name == states[i].loops[id].name
    ensures states[i].loops[id].cancelled ==> states[j].loops[id].cancelled
    decreases j
  {
    if i < j {
      CancelledForGood(configured, states, steps, i, j - 1, id);
      assert NextStep(configured, states[j - 1], states[j], steps[j - 1]);
    }
  }

  /** A pass that drops a name cancels its loop, and that loop never records again, whatever it
      was doing and however long it takes to notice. */
  lemma RemovedStaysRemoved(configured: set<string>, states: seq<System>, steps: seq<Step>,
                            i: nat, j: nat, name: string)
    requires Run(configured, states, steps) && i < j < |steps|
    requires steps[i].Reconcile? && name in Dropped(states[i], steps[i].desired)
    requires steps[j] == Resume(states[i].tasks[name])
    ensures name !in states[i + 1].recorded
    ensures states[j + 1].recorded == states[j].recorded
  {
    var id := states[i].tasks[name];
    RunKeepsInv(configured, states, steps, i);
    assert NextStep(configured, states[i], states[i + 1], steps[i]);
    assert states[i + 1].loops[id].cancelled;
    CancelledForGood(configured, states, steps, i + 1, j, id);
    assert NextStep(configured, states[j], states[j + 1], steps[j]);
  }

  /** After shutdown no loop is active. */
  lemma ShutdownStopsAll(configured: set<string>, states: seq<System>, steps: seq<Step>, s': System)
    requires Run(configured, states, steps)
    requires NextStep(configured, states[|steps|], s', Shutdown)
    ensures forall l <- s'.loops :: !Active(l)
  {
    RunKeepsInv(configured, states, steps, |steps|);
  }

  // ---------------- the program ----------------

  /** The configuration a probe loop records with its results. */
  function ConfigOf(name: string, check: Check): Record {
    match check
    case RouteCheck(_, _, tls, _) =>
      map[Name := Str(name), Type := Str("route"),
          Other("url") := Str((if tls then "https" else "http") + "://" + name)]
    case ServiceCheck(_, port, serviceRef) =>
      map[Name := Str(name), Type := Str("service"), Other("host") := Str(serviceRef),
          Other("port") := Num(port as real)]
  }

  /** What a probe loop says about its check: its name, and a route with its address, https exactly
      if the listener uses TLS, or a Service with its own reference and port. */
  ghost predicate Describes(config: Record, name: string, check: Check) {
    && Get(config, Name) == Str(name)
    && (check.RouteCheck? ==> Get(config, Type) == Str("route"))
    && (check.RouteCheck? && check.tls ==> Get(config, Other("url")) == Str("https://" + name))
    && (check.RouteCheck? && !check.tls ==> Get(config, Other("url")) == Str("http://" + name))
    && (check.ServiceCheck? ==>
          && Get(config, Type) == Str("service") && Get(config, Other("host")) == Str(check.serviceRef)
          && Get(config, Other("port")) == Num(check.port as real))
  }

  lemma ConfigDescribes(name: string, check: Check)
    ensures Describes(ConfigOf(name, check), name, check)
  {
    if check.RouteCheck? {
      assert "https" + "://" == "https://" && "http" + "://" == "http://";
    }
  }

  /** The mutations of a pass: `state.remove_check` for each dropped name. */
  function Removals(names: seq<string>, tp: real): (ops: seq<Op>)
    ensures |ops| == |names|
  {
    seq(|names|, i requires 0 <= i < |names| => RemoveCheck(names[i], tp))
  }

  lemma MoreRemovals(v: View, names: seq<string>, i: nat, tp: real)
    requires i < |names|
    ensures
      var before, op := Removals(names[..i], tp), RemoveCheck(names[i], tp);
      && RunOps(v, Removals(names[..i + 1], tp)) == After(RunOps(v, before), op)
      && Log(v, Removals(names[..i + 1], tp)) == Log(v, before) + Published(RunOps(v, before), op)
  {
    hide After, Published;
    assert Removals(names[..i + 1], tp)[..i] == Removals(names[..i], tp);
  }

  lemma OneMoreRemoved(v: View, gone: set<string>, name: string, tp: real)
    ensures After(v.(healthchecks := v.healthchecks - gone), RemoveCheck(name, tp))
         == v.(healthchecks := v.healthchecks - (gone + {name}))
  {
    assert v.healthchecks - gone - {name} == v.healthchecks - (gone + {name});
  }

  /** They take the dropped checks away and touch nothing else. */
  lemma {:induction false} Removed(v: View, names: seq<string>, tp: real)
    ensures RunOps(v, Removals(names, tp)) == v.(healthchecks := v.healthchecks - Names(names))
  {
    hide After, Published, Log;
    if names == [] {
      assert v.healthchecks - {} == v.healthchecks;
    } else {
      var n := |names| - 1;
      Removed(v, names[..n], tp);
      assert names[..n + 1] == names && Names(names) == Names(names[..n]) + {names[n]};
      MoreRemovals(v, names, n, tp);
      OneMoreRemoved(v, Names(names[..n]), names[n], tp);
    }
  }

  function Names(s: seq<string>): set<string> {
    set name <- s
  }

  /** The dictionary of tasks and the event loop's tasks. */
  datatype Table = Table(tasks: map<string, nat>, loops: seq<Loop>)

  ghost predicate Indexed(t: Table) {
    forall name <- t.tasks :: t.tasks[name] < |t.loops|
  }

  /** `tasks.pop(name).cancel()`. */
  function StopOne(t: Table, name: string): Table {
    if name in t.tasks && t.tasks[name] < |t.loops| then
      Table(t.tasks - {name}, t.loops[t.tasks[name] := t.loops[t.tasks[name]].(cancelled := true)])
    else t
  }

  function StopAll(t: Table, names: seq<string>): Table {
    if names == [] then t else StopOne(StopAll(t, names[..|names| - 1]), names[|names| - 1])
  }

  /** `tasks[name] = asyncio.create_task(...)` unless there is one. */
  function StartOne(t: Table, name: string): Table {
    if name in t.tasks then t
    else Table(t.tasks[name := |t.loops|], t.loops + [Loop(name, AtHead, false)])
  }

  function StartAll(t: Table, names: seq<string>): Table {
    if names == [] then t else StartOne(StartAll(t, names[..|names| - 1]), names[|names| - 1])
  }

  /** The loops of `gone` are cancelled and forgotten, the others are as before. */
  ghost predicate Stopped(t0: Table, t: Table, gone: set<string>) {
    && t.tasks == t0.tasks - gone
    && |t.loops| == |t0.loops|
    && forall id :: 0 <= id < |t.loops| ==> t.loops[id] == t0.loops[id].(cancelled := t0.loops[id].cancelled
         || exists name :: name in gone && name in t0.tasks && t0.tasks[name] == id)
  }

  lemma {:induction false} StopAllStops(t: Table, names: seq<string>)
    requires Indexed(t)
    ensures Stopped(t, StopAll(t, names), Names(names))
  {
    if names != [] {
      var n := |names| - 1;
      StopAllStops(t, names[..n]);
      assert Names(names) == Names(names[..n]) + {names[n]};
    }
  }

  /** Every name without a task got a new one. */
  ghost predicate Started(t0: Table, t: Table, names: set<string>) {
    && t.tasks.Keys == t0.tasks.Keys + names
    && (forall name <- t0.tasks :: t.tasks[name] == t0.tasks[name])
    && t0.loops <= t.loops
    && (forall name <- t.tasks | name !in t0.tasks ::
          |t0.loops| <= t.tasks[name] < |t.loops| && t.loops[t.tasks[name]] == Loop(name, AtHead, false))
    && (forall id :: |t0.loops| <= id < |t.loops| ==>
          t.loops[id].name in t.tasks && t.tasks[t.loops[id].name] == id)
  }

  lemma {:induction false} StartAllStarts(t: Table, names: seq<string>)
    ensures Started(t, StartAll(t, names), Names(names))
  {
    if names != [] {
      var n := |names| - 1;
      StartAllStarts(t, names[..n]);
      assert Names(names) == Names(names[..n]) + {names[n]};
    }
  }

  /** A pass stops what is not wanted and starts what is missing. */
  lemma StopThenStart(s: System, s': System, desired: map<string, Check>, gone: seq<string>, names: seq<string>)
    requires Indexed(Table(s.tasks, s.loops))
    requires Names(gone) == Dropped(s, desired) && Names(names) == desired.Keys
    requires Table(s'.tasks, s'.loops) == StartAll(StopAll(Table(s.tasks, s.loops), gone), names)
    requires s'.checks == desired && s'.recorded == s.recorded - Dropped(s, desired)
    ensures Reconciled(s, s', desired)
  {
    var t := StopAll(Table(s.tasks, s.loops), gone);
    StopAllStops(Table(s.tasks, s.loops), gone);
    StartAllStarts(t, names);
    forall id | 0 <= id < |s.loops|
      ensures s'.loops[id] == s.loops[id].(cancelled := s.loops[id].cancelled
        || exists name :: name in Dropped(s, desired) && s.tasks[name] == id)
    {
      assert s'.loops[id] == t.loops[id];
    }
  }

  lemma NothingRemoved(v: View, queues: set<Queue>, tp: real)
    ensures RunOps(v, Removals([], tp)) == v && Log(v, Removals([], tp)) == []
    ensures forall q <- queues :: OfferEach(q.items, []) == q.items
  {
  }

  /** `list(d)`. */
  method Listed(names: set<string>) returns (r: seq<string>)
    ensures Names(r) == names
  {
    r := [];
    var todo := names;
    while todo != {}
      invariant todo <= names && Names(r) == names - todo
      decreases |todo|
    {
      var name :| name in todo;
      todo := todo - {name};
      assert Names(r + [name]) == Names(r) + {name};
      r := r + [name];
    }
  }

  /** `run` with the dictionaries it shares with its probe loops; `loops` are the event loop's
      tasks, named by their index. */
  class Reconciler {
    var tasks: map<string, nat>
    var loops: seq<Loop>
    var checks: map<string, Check>
    const state: ClusterState

    constructor (state: ClusterState)
      ensures this.state == state && tasks == map[] && loops == [] && checks == map[]
    {
      this.state := state;
      tasks, loops, checks := map[], [], map[];
    }

    ghost predicate Valid()
      reads this, state, state.subscribers
    {
      state.Valid() && forall name <- tasks :: tasks[name] < |loops|
    }

    function Abstract(): System
      reads this, state
    {
      System(tasks, loops, checks, state.healthchecks.Keys)
    }

    /** One pass of `run` is the machine's step; of the cluster state it takes away the checks whose
        loops it stops, and publishes that. */
    method ReconcilePass(desired: map<string, Check>, tp: real) returns (gone: seq<string>)
      requires Valid()
      modifies this`tasks, this`loops, this`checks, state, state.subscribers
      ensures Valid()
      ensures Reconciled(old(Abstract()), Abstract(), desired)
      ensures Names(gone) == Dropped(old(Abstract()), desired)
      ensures MutatedBy(Removals(gone, tp))
      ensures state.Snapshot() == old(state.Snapshot()).(
                healthchecks := old(state.healthchecks) - Dropped(old(Abstract()), desired))
    {
      ghost var before, v := Abstract(), state.Snapshot();
      checks := desired;
      gone := StopDropped(tp);
      Removed(v, gone, tp);
      var names := StartMissing();
      StopThenStart(before, Abstract(), desired, gone, names);
    }

    /** The cluster state and every subscriber's queue are what these mutations make of them. */
    twostate predicate MutatedBy(ops: seq<Op>)
      reads state, state.subscribers
    {
      && state.subscribers == old(state.subscribers)
      && state.Snapshot() == RunOps(old(state.Snapshot()), ops)
      && forall q <- state.subscribers :: q.items == OfferEach(old(q.items), Log(old(state.Snapshot()), ops))
    }

    /** Cancels and forgets every loop whose check is gone, and the check's results with it. */
    method StopDropped(tp: real) returns (gone: seq<string>)
      requires Valid()
      modifies this`tasks, this`loops, state, state.subscribers
      ensures Valid()
      ensures Names(gone) == old(tasks).Keys - checks.Keys
      ensures Table(tasks, loops) == StopAll(old(Table(tasks, loops)), gone)
      ensures MutatedBy(Removals(gone, tp))
    {
      hide RunOps, Log, After, Published, OfferEach;
      gone := Listed(tasks.Keys - checks.Keys);
      ghost var before := state.Snapshot();
      NothingRemoved(before, state.subscribers, tp);
      assert gone[..0] == [];
      for i := 0 to |gone|
        invariant Valid()
        invariant Table(tasks, loops) == StopAll(old(Table(tasks, loops)), gone[..i])
        invariant MutatedBy(Removals(gone[..i], tp))
      {
        assert gone[..i + 1][..i] == gone[..i];
        if gone[i] in tasks {
          var id := tasks[gone[i]];
          tasks, loops := tasks - {gone[i]}, loops[id := loops[id].(cancelled := true)];
        }
        MoreRemovals(before, gone, i, tp);
        ghost var log := Log(before, Removals(gone[..i], tp));
        ghost var msgs := Published(state.Snapshot(), RemoveCheck(gone[i], tp));
        forall q <- state.subscribers ensures OfferAll(q.items, msgs) == OfferEach(old(q.items), log + msgs) {
          OfferedMore(old(q.items), log, msgs);
          OfferedOnce(q.items, msgs);
        }
        state.RemoveCheckEntry(gone[i], tp);
      }
      assert gone[..|gone|] == gone;
    }

    /** Creates a task for every check that has none. */
    method StartMissing() returns (names: seq<string>)
      requires Valid()
      modifies this`tasks, this`loops
      ensures Valid()
      ensures Names(names) == checks.Keys
      ensures Table(tasks, loops) == StartAll(old(Table(tasks, loops)), names)
    {
      names := Listed(checks.Keys);
      for i := 0 to |names|
        invariant Valid()
        invariant Table(tasks, loops) == StartAll(old(Table(tasks, loops)), names[..i])
      {
        assert names[..i + 1][..i] == names[..i];
        if names[i] !in tasks {
          tasks, loops := tasks[names[i] := |loops|], loops + [Loop(names[i], AtHead, false)];
        }
      }
      assert names[..|names|] == names;
    }

    /** What the state shows of a check after a probe: its configuration, and this result as the
        latest and the newest of its history. */
    ghost predicate Shows(name: string, check: Check, ok: bool, ms: Val, detail: string, t: real)
      reads state
    {
      && name in state.healthchecks
      && var e := state.healthchecks[name];
      && e.config.Dict? && Describes(e.config.fields, name, check)
      && e.last.Dict? && e.history != [] && e.history[|e.history| - 1] == e.last.fields
      && var r := e.last.fields;
      Get(r, T) == Num(t) && Get(r, Ok) == Bool(ok) && Get(r, Ms) == ms && Get(r, Detail) == Str(detail)
    }

    /** `state.record_check` with the result of a probe. */
    method RecordProbe(name: string, check: Check, ok: bool, ms: Val, detail: string, t: real, tp: real)
      requires Valid()
      modifies state, state.subscribers
      ensures Valid()
      ensures state.Performed(RecordCheck(name, ConfigOf(name, check), ok, ms, detail, t, tp))
      ensures Shows(name, check, ok, ms, detail, t)
      ensures state.healthchecks.Keys == old(state.healthchecks).Keys + {name}
    {
      hide Describes, ConfigOf, Published;
      ghost var v, op := state.Snapshot(), RecordCheck(name, ConfigOf(name, check), ok, ms, detail, t, tp);
      ResultIsRecorded(v, op);
      ConfigDescribes(name, check);
      assert After(v, op).healthchecks.Keys == v.healthchecks.Keys + {name};
      hide After, OfferAll;
      state.RecordCheckResult(name, ConfigOf(name, check), ok, ms, detail, t, tp);
      assert state.healthchecks == After(v, op).healthchecks;
    }

    /** A probe loop from one await to the next, with the result of the probe it awaited. */
    method ResumeLoop(id: nat, ok: bool, ms: Val, detail: string, t: real, tp: real)
      requires Valid() && id < |loops|
      modifies this`loops, state, state.subscribers
      ensures Valid()
      ensures Abstract() == Resumed(old(Abstract()), id)
      ensures
        var l := old(loops[id]);
        if !l.cancelled && l.pc.Probing? then
          && state.Performed(RecordCheck(l.name, ConfigOf(l.name, l.pc.check), ok, ms, detail, t, tp))
          && Shows(l.name, l.pc.check, ok, ms, detail, t)
        else
          && state.Snapshot() == old(state.Snapshot()) && state.subscribers == old(state.subscribers)
          && forall q <- state.subscribers :: q.items == old(q.items)
    {
      hide ConfigOf, After, Published, OfferAll;
      var l := loops[id];
      if l.cancelled {
        loops := loops[id := l.(pc := Finished)];
      } else {
        match l.pc
        case AtHead =>
          if l.name in checks {
            loops := loops[id := l.(pc := Probing(checks[l.name]))];
          } else {
            loops := loops[id := l.(pc := Finished)];
          }
        case Probing(check) =>
          RecordProbe(l.name, check, ok, ms, detail, t, tp);
          loops := loops[id := l.(pc := AtHead)];
        case Finished =>
      }
    }
  }
}
