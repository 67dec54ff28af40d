/** The list-and-watch loop of one resource kind (backend/app/collectors/k8s_watch.py) against
    the cluster's own history of changes, across any number of disconnections. */
module Watch {
  import opened Basics
  import opened Json
  import opened Options
  import opened ServerState
  import opened Coupling

  const NOISY_SECRET_TYPES: set<Val> :=
    {Str("kubernetes.io/service-account-token"), Str("helm.sh/release.v1")}
  const NOISY_CONFIGMAP_NAMES: set<Val> := {Str("kube-root-ca.crt")}

  /** A change of one object; a deletion carries the object's last state. */
  datatype Event = Event(deleted: bool, obj: Record)

  /** `obj["name"]` for a node, `obj["key"]` for everything else. */
  function KeyOf(kind: Kind, obj: Record): string {
    PropertyName(Get(obj, if kind.Nodes? then Name else Key))
  }

  /** Which objects of a kind are shown at all. */
  predicate Passes(kind: Kind, obj: Record) {
    match kind
    case Services => Get(obj, Type) == Str("LoadBalancer")
    case Secrets => Get(obj, Type) !in NOISY_SECRET_TYPES
    case ConfigMaps => Get(obj, Name) !in NOISY_CONFIGMAP_NAMES
    case OrphanedPvs => Get(obj, Phase) in {Str("Released"), Str("Failed")}
    case _ => true
  }

  /** `_apply` as a mutation of the cluster state. */
  function ApplyOp(kind: Kind, ev: Event, tp: real): Op {
    if ev.deleted || !Passes(kind, ev.obj) then RemoveObject(kind, KeyOf(kind, ev.obj), tp)
    else UpsertObject(kind, KeyOf(kind, ev.obj), ev.obj, tp)
  }

  /** The mapped objects carry their key as a string, so `_apply` always passes an object
      together with its own key, which is what the browsers rely on. */
  lemma ApplyIsValid(kind: Kind, ev: Event, tp: real)
    requires Get(ev.obj, KeyField(kind)).Str?
    ensures ValidOp(ApplyOp(kind, ev, tp))
  {
  }

  method Apply(state: ClusterState, kind: Kind, ev: Event, tp: real)
    requires state.Valid()
    modifies state, state.subscribers
    ensures state.Valid()
    ensures state.Performed(ApplyOp(kind, ev, tp))
  {
    var key := KeyOf(kind, ev.obj);
    if ev.deleted || !Passes(kind, ev.obj) {
      state.Remove(kind, key, tp);
    } else {
      state.Upsert(kind, key, ev.obj, tp);
    }
  }

  function SeedOps(kind: Kind, items: seq<Record>, tp: real): (ops: seq<Op>)
    ensures |ops| == |items|
  {
    seq(|items|, i requires 0 <= i < |items| => ApplyOp(kind, Event(false, items[i]), tp))
  }

  /** Seeding the state from an initial list. */
  method Seed(state: ClusterState, kind: Kind, items: seq<Record>, tp: real)
    requires state.Valid()
    modifies state, state.subscribers
    ensures state.Valid()
    ensures state.subscribers == old(state.subscribers)
    ensures state.Snapshot() == RunOps(old(state.Snapshot()), SeedOps(kind, items, tp))
    ensures forall q <- state.subscribers ::
      q.items == OfferEach(old(q.items), Log(old(state.Snapshot()), SeedOps(kind, items, tp)))
  {
    hide RunOps, Log, After, Published, ApplyOp, OfferEach;
    ghost var before := state.Snapshot();
    NoOps(before, state.subscribers);
    assert SeedOps(kind, items[..0], tp) == [];
    for i := 0 to |items|
      invariant state.Valid() && state.subscribers == old(state.subscribers)
      invariant state.Snapshot() == RunOps(before, SeedOps(kind, items[..i], tp))
      invariant forall q <- state.subscribers ::
        q.items == OfferEach(old(q.items), Log(before, SeedOps(kind, items[..i], tp)))
    {
      MoreSeeds(before, kind, items, i, tp);
      ghost var log := Log(before, SeedOps(kind, items[..i], tp));
      ghost var msgs := Published(state.Snapshot(), ApplyOp(kind, Event(false, items[i]), tp));
      forall q <- state.subscribers ensures OfferAll(q.items, msgs) == OfferEach(old(q.items), log + msgs) {
        OfferedMore(old(q.items), log, msgs);
        OfferedOnce(q.items, msgs);
      }
      Apply(state, kind, Event(false, items[i]), tp);
    }
    assert items[..|items|] == items;
  }

  lemma NoOps(v: View, queues: set<Queue>)
    ensures RunOps(v, []) == v && Log(v, []) == []
    ensures forall q <- queues :: OfferEach(q.items, []) == q.items
  {
  }

  lemma MoreSeeds(v: View, kind: Kind, items: seq<Record>, i: nat, tp: real)
    requires i < |items|
    ensures
      var before, op := SeedOps(kind, items[..i], tp), ApplyOp(kind, Event(false, items[i]), tp);
      && RunOps(v, SeedOps(kind, items[..i + 1], tp)) == After(RunOps(v, before), op)
      && Log(v, SeedOps(kind, items[..i + 1], tp)) == Log(v, before) + Published(RunOps(v, before), op)
  {
    hide After, Published, ApplyOp;
    assert SeedOps(kind, items[..i + 1], tp)[..i] == SeedOps(kind, items[..i], tp);
  }

  // ---------------- the cluster ----------------

  /** The object that the cluster holds under a key after some changes. */
  function InCluster(kind: Kind, log: seq<Event>, k: string): Option<Record> {
    if log == [] then None
    else
      var ev := log[|log| - 1];
      if KeyOf(kind, ev.obj) == k then (if ev.deleted then None else Some(ev.obj))
      else InCluster(kind, log[..|log| - 1], k)
  }

  function Filtered(kind: Kind, o: Option<Record>): Option<Record> {
    match o
    case None => None
    case Some(obj) => if Passes(kind, obj) then Some(obj) else None
  }

  /** What the state shows under a key. */
  function Shown(kind: Kind, v: View, k: string): Option<Record> {
    Find(v.objects, (kind, k))
  }

  /** No later event of the same key within the log. */
  predicate LastOfKey(kind: Kind, log: seq<Event>, i: nat)
    requires i < |log|
  {
    forall j :: i < j < |log| ==> KeyOf(kind, log[j].obj) != KeyOf(kind, log[i].obj)
  }

  /** `v` is the backend's state, `log` the cluster's changes, `pos` how many of them the loop
      has behind it, and `seen` which of those it has been told about. */
  datatype System = System(v: View, log: seq<Event>, pos: nat, connected: bool, seen: seq<bool>)

  datatype Step =
    | Change(ev: Event)                          // in the cluster
    | Listed(version: nat, items: seq<Record>)   // `lister()` returned, its items were applied
    | Watched                                    // the next event of the stream
    | Broken                                     // timeout, 410 Gone, network
    | Elsewhere(op: Op)                          // another collector's mutation

  /** A list returns every object of the cluster at its version, in any order. */
  ghost predicate IsList(kind: Kind, log: seq<Event>, items: seq<Record>) {
    && (forall item <- items :: InCluster(kind, log, KeyOf(kind, item)) == Some(item))
    && (forall k: string :: InCluster(kind, log, k).Some? ==> InCluster(kind, log, k).value in items)
  }

  ghost predicate Enabled(kind: Kind, sys: System, step: Step) {
    match step
    case Change(_) => true
    case Listed(version, items) =>
      && !sys.connected && sys.pos <= version <= |sys.log|
      && IsList(kind, sys.log[..version], items)
    case Watched => sys.connected && sys.pos < |sys.log|
    case Broken => sys.connected
    case Elsewhere(op) =>
      !(op.UpsertObject? && op.kind == kind) && !(op.RemoveObject? && op.kind == kind)
  }

  /** Of the changes in a gap, a list tells exactly the last one of each key that is still
      there; deletions stay untold. */
  function Told(kind: Kind, log: seq<Event>, from: nat): (r: seq<bool>)
    requires from <= |log|
    ensures |r| == |log| - from
    ensures forall i :: from <= i < |log| ==> r[i - from] == (!log[i].deleted && LastOfKey(kind, log, i))
  {
    seq(|log| - from, i requires 0 <= i < |log| - from => !log[from + i].deleted && LastOfKey(kind, log, from + i))
  }

  ghost function Next(kind: Kind, sys: System, step: Step): System
    requires Enabled(kind, sys, step) && |sys.seen| == sys.pos <= |sys.log|
  {
    match step
    case Change(ev) => sys.(log := sys.log + [ev])
    case Listed(version, items) =>
      sys.(v := RunOps(sys.v, SeedOps(kind, items, 0.0)), pos := version, connected := true,
           seen := sys.seen + Told(kind, sys.log[..version], sys.pos))
    case Watched =>
      sys.(v := After(sys.v, ApplyOp(kind, sys.log[sys.pos], 0.0)), pos := sys.pos + 1,
           seen := sys.seen + [true])
    case Broken => sys.(connected := false)
    case Elsewhere(op) => sys.(v := After(sys.v, op))
  }

  /** The state that results from exactly the changes the loop was told. */
  function Replay(kind: Kind, log: seq<Event>, seen: seq<bool>, k: string): Option<Record>
    requires |seen| == |log|
  {
    if log == [] then None
    else
      var n := |log| - 1;
      if seen[n] && KeyOf(kind, log[n].obj) == k
      then (if log[n].deleted then None else Filtered(kind, Some(log[n].obj)))
      else Replay(kind, log[..n], seen[..n], k)
  }

  ghost predicate Inv(kind: Kind, sys: System) {
    && |sys.seen| == sys.pos <= |sys.log|
    && (forall k: string :: Shown(kind, sys.v, k) == Replay(kind, sys.log[..sys.pos], sys.seen, k))
    && LivingSeen(kind, sys.log[..sys.pos], sys.seen)
  }

  /** The loop has been told the latest change of everything that still exists. */
  ghost predicate LivingSeen(kind: Kind, log: seq<Event>, seen: seq<bool>)
    requires |seen| == |log|
  {
    forall i :: 0 <= i < |log| && !log[i].deleted && LastOfKey(kind, log, i) ==> seen[i]
  }

  /** The last event of a key in the log, if any. */
  function LastIndex(kind: Kind, log: seq<Event>, k: string): (r: Option<nat>)
    ensures r.Some? ==> r.value < |log| && KeyOf(kind, log[r.value].obj) == k && LastOfKey(kind, log, r.value)
    ensures r.None? ==> forall i :: 0 <= i < |log| ==> KeyOf(kind, log[i].obj) != k
  {
    if log == [] then None
    else if KeyOf(kind, log[|log| - 1].obj) == k then Some(|log| - 1)
    else LastIndex(kind, log[..|log| - 1], k)
  }

  lemma {:induction false} ClusterByLast(kind: Kind, log: seq<Event>, k: string)
    ensures
      var r := LastIndex(kind, log, k);
      InCluster(kind, log, k)
      == if r.None? || log[r.value].deleted then None else Some(log[r.value].obj)
  {
    if log != [] && KeyOf(kind, log[|log| - 1].obj) != k {
      ClusterByLast(kind, log[..|log| - 1], k);
    }
  }

  lemma {:induction false} ReplayByLast(kind: Kind, log: seq<Event>, seen: seq<bool>, k: string)
    requires |seen| == |log|
    ensures
      var r := LastIndex(kind, log, k);
      && (r.None? ==> Replay(kind, log, seen, k) == None)
      && (r.Some? && seen[r.value] ==>
            Replay(kind, log, seen, k)
            == if log[r.value].deleted then None else Filtered(kind, Some(log[r.value].obj)))
  {
    if log != [] && KeyOf(kind, log[|log| - 1].obj) != k {
      ReplayByLast(kind, log[..|log| - 1], seen[..|log| - 1], k);
    }
  }

  /** Events of other keys, and untold ones, can be cut off the end. */
  lemma {:induction false} ReplayCut(kind: Kind, log: seq<Event>, seen: seq<bool>, k: string, m: nat)
    requires |seen| == |log| && m <= |log|
    requires forall i :: m <= i < |log| ==> !seen[i] || KeyOf(kind, log[i].obj) != k
    ensures Replay(kind, log, seen, k) == Replay(kind, log[..m], seen[..m], k)
  {
    var n := |log|;
    if m < n {
      ReplayCut(kind, log[..n - 1], seen[..n - 1], k, m);
      assert log[..n - 1][..m] == log[..m] && seen[..n - 1][..m] == seen[..m];
    } else {
      assert log[..m] == log && seen[..m] == seen;
    }
  }

  // ---------------- steps ----------------

  lemma ShownAfterRemove(kind: Kind, v: View, key: string, k: string)
    ensures Shown(kind, After(v, RemoveObject(kind, key, 0.0)), k)
         == if key == k then None else Shown(kind, v, k)
  {
  }

  lemma ShownAfterApply(kind: Kind, v: View, ev: Event, k: string)
    ensures Shown(kind, After(v, ApplyOp(kind, ev, 0.0)), k)
         == if KeyOf(kind, ev.obj) != k then Shown(kind, v, k)
            else if ev.deleted then None else Filtered(kind, Some(ev.obj))
  {
    ShownAfterRemove(kind, v, KeyOf(kind, ev.obj), k);
  }

  /** Applying a list rewrites the keys it contains and no other. */
  lemma {:induction false} ShownAfterSeed(kind: Kind, v: View, items: seq<Record>, k: string)
    requires forall i, j :: 0 <= i < |items| && 0 <= j < |items| && KeyOf(kind, items[i]) == KeyOf(kind, items[j])
               ==> items[i] == items[j]
    ensures (forall item <- items :: KeyOf(kind, item) != k)
         ==> Shown(kind, RunOps(v, SeedOps(kind, items, 0.0)), k) == Shown(kind, v, k)
    ensures forall item <- items | KeyOf(kind, item) == k ::
      Shown(kind, RunOps(v, SeedOps(kind, items, 0.0)), k) == Filtered(kind, Some(item))
  {
    if items != [] {
      var n := |items| - 1;
      ShownAfterSeed(kind, v, items[..n], k);
      SeedStep(kind, v, items, k);
      SplitLast(items);
      forall item <- items | KeyOf(kind, item) == k
        ensures Shown(kind, RunOps(v, SeedOps(kind, items, 0.0)), k) == Filtered(kind, Some(item))
      {
        assert item == items[n] || item in items[..n];
      }
    }
  }

  lemma SeedStep(kind: Kind, v: View, items: seq<Record>, k: string)
    requires items != []
    ensures
      var n := |items| - 1;
      Shown(kind, RunOps(v, SeedOps(kind, items, 0.0)), k)
      == if KeyOf(kind, items[n]) == k then Filtered(kind, Some(items[n]))
         else Shown(kind, RunOps(v, SeedOps(kind, items[..n], 0.0)), k)
  {
    hide After, Shown, ApplyOp;
    var n := |items| - 1;
    assert SeedOps(kind, items, 0.0)[..n] == SeedOps(kind, items[..n], 0.0);
    ShownAfterApply(kind, RunOps(v, SeedOps(kind, items[..n], 0.0)), Event(false, items[n]), k);
  }

  lemma ListedKey(kind: Kind, sys: System, version: nat, items: seq<Record>, k: string)
    requires Inv(kind, sys) && Enabled(kind, sys, Listed(version, items))
    ensures
      var sys' := Next(kind, sys, Listed(version, items));
      Shown(kind, sys'.v, k) == Replay(kind, sys.log[..version], sys'.seen, k)
  {
    var log := sys.log[..version];
    ShownAfterSeed(kind, sys.v, items, k);
    if InCluster(kind, log, k).Some? {
      PresentKey(kind, sys, version, items, k);
    } else {
      AbsentKey(kind, log, sys.seen, k);
      assert Shown(kind, sys.v, k) == Replay(kind, sys.log[..sys.pos], sys.seen, k);
      assert log[..sys.pos] == sys.log[..sys.pos];
    }
  }

  lemma PresentKey(kind: Kind, sys: System, version: nat, items: seq<Record>, k: string)
    requires Inv(kind, sys) && Enabled(kind, sys, Listed(version, items))
    requires InCluster(kind, sys.log[..version], k).Some?
    ensures
      var log := sys.log[..version];
      && InCluster(kind, log, k).value in items
      && KeyOf(kind, InCluster(kind, log, k).value) == k
      && Replay(kind, log, Next(kind, sys, Listed(version, items)).seen, k) == Filtered(kind, InCluster(kind, log, k))
  {
    var log, seen' := sys.log[..version], Next(kind, sys, Listed(version, items)).seen;
    ClusterByLast(kind, log, k);
    ListedLivingSeen(kind, sys, version, items);
    ReplayByLast(kind, log, seen', k);
  }

  lemma AbsentKey(kind: Kind, log: seq<Event>, seen: seq<bool>, k: string)
    requires |seen| <= |log| && InCluster(kind, log, k).None?
    ensures Replay(kind, log, seen + Told(kind, log, |seen|), k) == Replay(kind, log[..|seen|], seen, k)
  {
    var seen' := seen + Told(kind, log, |seen|);
    ClusterByLast(kind, log, k);
    forall i | |seen| <= i < |log| ensures !seen'[i] || KeyOf(kind, log[i].obj) != k {
      if KeyOf(kind, log[i].obj) == k && LastOfKey(kind, log, i) {
        assert LastOfKey(kind, log, LastIndex(kind, log, k).value);
      }
    }
    ReplayCut(kind, log, seen', k, |seen|);
    assert seen'[..|seen|] == seen;
  }

  lemma ListedLivingSeen(kind: Kind, sys: System, version: nat, items: seq<Record>)
    requires Inv(kind, sys) && Enabled(kind, sys, Listed(version, items))
    ensures LivingSeen(kind, sys.log[..version], Next(kind, sys, Listed(version, items)).seen)
  {
    var log, seen' := sys.log[..version], Next(kind, sys, Listed(version, items)).seen;
    forall i | 0 <= i < |log| && !log[i].deleted && LastOfKey(kind, log, i) ensures seen'[i] {
      if i < sys.pos {
        assert log[..sys.pos] == sys.log[..sys.pos];
      } else {
        assert Told(kind, log, sys.pos)[i - sys.pos];
      }
    }
  }

  lemma WatchedKeepsInv(kind: Kind, sys: System)
    requires Inv(kind, sys) && Enabled(kind, sys, Watched)
    ensures Inv(kind, Next(kind, sys, Watched))
  {
    var sys', p := Next(kind, sys, Watched), sys.pos;
    assert sys.log[..p + 1][..p] == sys.log[..p];
    assert sys'.seen[..p] == sys.seen;
    forall k: string ensures Shown(kind, sys'.v, k) == Replay(kind, sys'.log[..sys'.pos], sys'.seen, k) {
      ShownAfterApply(kind, sys.v, sys.log[p], k);
      assert Shown(kind, sys.v, k) == Replay(kind, sys.log[..p], sys.seen, k);
    }
    var log' := sys.log[..p + 1];
    forall i | 0 <= i < p + 1 && !log'[i].deleted && LastOfKey(kind, log', i) ensures sys'.seen[i] {
      if i < p {
        assert LastOfKey(kind, sys.log[..p], i);
      }
    }
  }

  lemma ElsewhereKeepsShown(kind: Kind, v: View, op: Op, k: string)
    requires !(op.UpsertObject? && op.kind == kind) && !(op.RemoveObject? && op.kind == kind)
    ensures Shown(kind, After(v, op), k) == Shown(kind, v, k)
  {
  }

  lemma StepKeepsInv(kind: Kind, sys: System, step: Step)
    requires Inv(kind, sys) && Enabled(kind, sys, step)
    ensures Inv(kind, Next(kind, sys, step))
  {
    var sys' := Next(kind, sys, step);
    match step
    case Change(ev) => assert sys'.log[..sys.pos] == sys.log[..sys.pos];
    case Listed(version, items) =>
      forall k: string ensures Shown(kind, sys'.v, k) == Replay(kind, sys'.log[..sys'.pos], sys'.seen, k) {
        ListedKey(kind, sys, version, items, k);
      }
      ListedLivingSeen(kind, sys, version, items);
    case Watched => WatchedKeepsInv(kind, sys);
    case Broken =>
    case Elsewhere(op) =>
      forall k: string ensures Shown(kind, sys'.v, k) == Shown(kind, sys.v, k) {
        ElsewhereKeepsShown(kind, sys.v, op, k);
      }
  }

  ghost predicate Initial(kind: Kind, sys: System) {
    && sys.pos == 0 && sys.seen == [] && !sys.connected
    && forall k: string :: Shown(kind, sys.v, k) == None
  }

  /** The state after some steps; a step that is not enabled does nothing. */
  ghost function StateAfter(kind: Kind, start: System, steps: seq<Step>): (sys: System)
    requires Initial(kind, start)
    ensures Inv(kind, sys)
  {
    if steps == [] then start
    else
      var prev := StateAfter(kind, start, steps[..|steps| - 1]);
      var step := steps[|steps| - 1];
      if Enabled(kind, prev, step) then
        StepKeepsInv(kind, prev, step);
        Next(kind, prev, step)
      else prev
  }

  /** A key whose DELETED event fell into a gap and about which nothing was heard since. */
  ghost predicate MissedDeletion(kind: Kind, sys: System, k: string)
    requires |sys.seen| == sys.pos <= |sys.log|
  {
    exists i ::
      && 0 <= i < sys.pos && KeyOf(kind, sys.log[i].obj) == k
      && sys.log[i].deleted && !sys.seen[i]
      && LastOfKey(kind, sys.log[..sys.pos], i)
  }

  /** The last change of the key that the loop was told about put up an object that passes. */
  ghost predicate LastToldPasses(kind: Kind, log: seq<Event>, seen: seq<bool>, k: string)
    requires |seen| == |log|
  {
    exists i :: 0 <= i < |log| && ToldUp(kind, log, seen, k, i)
  }

  ghost predicate ToldUp(kind: Kind, log: seq<Event>, seen: seq<bool>, k: string, i: nat)
    requires |seen| == |log| && i < |log|
  {
    && seen[i] && KeyOf(kind, log[i].obj) == k
    && !log[i].deleted && Passes(kind, log[i].obj)
    && forall j :: i < j < |log| && KeyOf(kind, log[j].obj) == k ==> !seen[j]
  }

  lemma {:induction false} ReplayShows(kind: Kind, log: seq<Event>, seen: seq<bool>, k: string)
    requires |seen| == |log|
    ensures Replay(kind, log, seen, k).Some? <==> LastToldPasses(kind, log, seen, k)
  {
    if log != [] {
      var n := |log| - 1;
      if seen[n] && KeyOf(kind, log[n].obj) == k {
        LastIsTold(kind, log, seen, k);
      } else {
        ReplayShows(kind, log[..n], seen[..n], k);
        UntoldAtEnd(kind, log, seen, k);
      }
    }
  }

  lemma LastIsTold(kind: Kind, log: seq<Event>, seen: seq<bool>, k: string)
    requires |seen| == |log| && log != []
    requires seen[|log| - 1] && KeyOf(kind, log[|log| - 1].obj) == k
    ensures LastToldPasses(kind, log, seen, k)
       <==> !log[|log| - 1].deleted && Passes(kind, log[|log| - 1].obj)
  {
    var n := |log| - 1;
    if !log[n].deleted && Passes(kind, log[n].obj) {
      assert ToldUp(kind, log, seen, k, n);
    }
  }

  lemma ToldUpBefore(kind: Kind, log: seq<Event>, seen: seq<bool>, k: string, i: nat)
    requires |seen| == |log| && i + 1 < |log|
    requires !seen[|log| - 1] || KeyOf(kind, log[|log| - 1].obj) != k
    ensures ToldUp(kind, log, seen, k, i) <==> ToldUp(kind, log[..|log| - 1], seen[..|log| - 1], k, i)
  {
    hide Passes, KeyOf;
    var n := |log| - 1;
    assert log[..n][i] == log[i] && seen[..n][i] == seen[i];
    assert forall j :: i < j < n ==> log[..n][j] == log[j] && seen[..n][j] == seen[j];
  }

  lemma UntoldAtEnd(kind: Kind, log: seq<Event>, seen: seq<bool>, k: string)
    requires |seen| == |log| && log != []
    requires !seen[|log| - 1] || KeyOf(kind, log[|log| - 1].obj) != k
    ensures LastToldPasses(kind, log, seen, k)
       <==> LastToldPasses(kind, log[..|log| - 1], seen[..|log| - 1], k)
  {
    hide Passes, KeyOf;
    var n := |log| - 1;
    if LastToldPasses(kind, log, seen, k) {
      var i :| 0 <= i < |log| && ToldUp(kind, log, seen, k, i);
      ToldUpBefore(kind, log, seen, k, i);
    }
    if LastToldPasses(kind, log[..n], seen[..n], k) {
      var i :| 0 <= i < n && ToldUp(kind, log[..n], seen[..n], k, i);
      ToldUpBefore(kind, log, seen, k, i);
    }
  }

  /** A ghost: the key's deletion was missed, and what the loop was last told about the key put
      up an object that passes the filter. */
  ghost predicate Ghost(kind: Kind, sys: System, k: string)
    requires |sys.seen| == sys.pos <= |sys.log|
  {
    MissedDeletion(kind, sys, k) && LastToldPasses(kind, sys.log[..sys.pos], sys.seen, k)
  }

  lemma MissedIsGone(kind: Kind, sys: System, k: string)
    requires |sys.seen| == sys.pos <= |sys.log|
    requires MissedDeletion(kind, sys, k)
    ensures InCluster(kind, sys.log[..sys.pos], k).None?
  {
    var log := sys.log[..sys.pos];
    ClusterByLast(kind, log, k);
    var i :| 0 <= i < sys.pos && KeyOf(kind, sys.log[i].obj) == k && sys.log[i].deleted && LastOfKey(kind, log, i);
  }

  /** An object of the cluster is shown exactly if it passes, and what is shown beyond that had
      its deletion missed. */
  lemma InvShows(kind: Kind, sys: System, k: string)
    requires Inv(kind, sys)
    ensures
      var there := InCluster(kind, sys.log[..sys.pos], k);
      && (there.Some? ==> Shown(kind, sys.v, k) == Filtered(kind, there))
      && (there.None? && Shown(kind, sys.v, k).Some? ==> MissedDeletion(kind, sys, k))
  {
    var log := sys.log[..sys.pos];
    var r := LastIndex(kind, log, k);
    ClusterByLast(kind, log, k);
    ReplayByLast(kind, log, sys.seen, k);
    assert Shown(kind, sys.v, k) == Replay(kind, log, sys.seen, k);
    if r.Some? && !log[r.value].deleted {
      assert sys.seen[r.value];
    }
    if r.Some? && !sys.seen[r.value] {
      assert log[r.value] == sys.log[r.value];
      assert MissedDeletion(kind, sys, k);
    }
  }

  /** The state differs from the filtered cluster at a key exactly if that key is a ghost. */
  lemma ExactUnlessGhost(kind: Kind, sys: System, k: string)
    requires Inv(kind, sys)
    ensures Shown(kind, sys.v, k) == Filtered(kind, InCluster(kind, sys.log[..sys.pos], k)) <==> !Ghost(kind, sys, k)
  {
    InvShows(kind, sys, k);
    ReplayShows(kind, sys.log[..sys.pos], sys.seen, k);
    assert Shown(kind, sys.v, k) == Replay(kind, sys.log[..sys.pos], sys.seen, k);
    if MissedDeletion(kind, sys, k) {
      MissedIsGone(kind, sys, k);
    }
  }

  /** Watch fidelity: at every point of every run, an object that exists is shown exactly if it
      passes its kind's filter, with its latest value; and a key shows what the filtered cluster
      holds if and only if it is not a ghost. In all cases the state is what the changes told to
      the loop make it. */
  lemma Fidelity(kind: Kind, start: System, steps: seq<Step>, k: string)
    requires Initial(kind, start)
    ensures
      var sys := StateAfter(kind, start, steps);
      var there := InCluster(kind, sys.log[..sys.pos], k);
      && Shown(kind, sys.v, k) == Replay(kind, sys.log[..sys.pos], sys.seen, k)
      && (there.Some? ==> Shown(kind, sys.v, k) == Filtered(kind, there))
      && (Shown(kind, sys.v, k) == Filtered(kind, there) <==> !Ghost(kind, sys, k))
      && (there.None? && Shown(kind, sys.v, k).Some? <==> Ghost(kind, sys, k))
  {
    var sys := StateAfter(kind, start, steps);
    InvShows(kind, sys, k);
    ExactUnlessGhost(kind, sys, k);
    if MissedDeletion(kind, sys, k) {
      MissedIsGone(kind, sys, k);
    }
  }

  /** What is shown for an object, kind by kind: a Service exactly if it is a load balancer, a Secret
      unless a service account or Helm keeps it, a ConfigMap unless it is the cluster's own root
      certificate, a volume exactly if it is released or has failed, everything else always; and
      then as it is. */
  ghost predicate ShownAs(kind: Kind, obj: Record, shown: Option<Record>) {
    && (shown == Some(obj) || shown == None)
    && (kind.Services? ==> (shown.Some? <==> Get(obj, Type) == Str("LoadBalancer")))
    && (kind.Secrets? ==> (shown.None? <==>
          Get(obj, Type) == Str("kubernetes.io/service-account-token") || Get(obj, Type) == Str("helm.sh/release.v1")))
    && (kind.ConfigMaps? ==> (shown.None? <==> Get(obj, Name) == Str("kube-root-ca.crt")))
    && (kind.OrphanedPvs? ==> (shown.Some? <==> Get(obj, Phase) == Str("Released") || Get(obj, Phase) == Str("Failed")))
    && (!kind.Services? && !kind.Secrets? && !kind.ConfigMaps? && !kind.OrphanedPvs? ==> shown.Some?)
  }

  lemma FilteredAs(kind: Kind, obj: Record)
    ensures ShownAs(kind, obj, Filtered(kind, Some(obj)))
  {
  }

  /** At every point of every run, each object that exists as far as the loop has got is shown as
      its kind demands. */
  lemma ShownByKind(kind: Kind, start: System, steps: seq<Step>, k: string)
    requires Initial(kind, start)
    ensures
      var sys := StateAfter(kind, start, steps);
      var there := InCluster(kind, sys.log[..sys.pos], k);
      there.Some? ==> ShownAs(kind, there.value, Find(sys.v.objects, (kind, k)))
  {
    var sys := StateAfter(kind, start, steps);
    var there := InCluster(kind, sys.log[..sys.pos], k);
    Fidelity(kind, start, steps, k);
    if there.Some? {
      FilteredAs(kind, there.value);
    }
  }

  /** A relist never takes away what vanished in the gap: it leaves an absent key as it was, and
      if something is shown there it is a ghost afterwards. */
  lemma GhostSurvivesRelist(kind: Kind, sys: System, version: nat, items: seq<Record>, k: string)
    requires Inv(kind, sys) && Enabled(kind, sys, Listed(version, items))
    requires InCluster(kind, sys.log[..version], k).None?
    ensures
      var sys' := Next(kind, sys, Listed(version, items));
      && Inv(kind, sys')
      && Shown(kind, sys'.v, k) == Shown(kind, sys.v, k)
      && (Ghost(kind, sys', k) <==> Shown(kind, sys.v, k).Some?)
  {
    ShownAfterSeed(kind, sys.v, items, k);
    StepKeepsInv(kind, sys, Listed(version, items));
    ExactUnlessGhost(kind, Next(kind, sys, Listed(version, items)), k);
  }

  // ---------------- a run that leaves a ghost ----------------

  lemma StateStep(kind: Kind, start: System, steps: seq<Step>, step: Step)
    requires Initial(kind, start)
    ensures
      var prev := StateAfter(kind, start, steps);
      StateAfter(kind, start, steps + [step]) == if Enabled(kind, prev, step) then Next(kind, prev, step) else prev
  {
    assert (steps + [step])[..|steps|] == steps;
  }

  /** An object is added and seen; the stream breaks; the object is deleted; the loop lists again
      and goes on showing it, although the cluster is empty. */
  lemma GhostRun(kind: Kind, start: System, obj: Record)
    requires Initial(kind, start) && start.log == [] && Passes(kind, obj)
    ensures
      var steps := [Listed(0, []), Change(Event(false, obj)), Watched, Broken, Change(Event(true, obj)), Listed(2, [])];
      var sys := StateAfter(kind, start, steps);
      && sys.connected && sys.pos == |sys.log|
      && InCluster(kind, sys.log, KeyOf(kind, obj)).None?
      && Shown(kind, sys.v, KeyOf(kind, obj)) == Some(obj)
      && Ghost(kind, sys, KeyOf(kind, obj))
  {
    hide Shown, Passes, KeyOf, MissedDeletion, LastToldPasses;
    var add, del := Event(false, obj), Event(true, obj);
    var s1 := [Listed(0, []), Change(add), Watched];
    var s2 := s1 + [Broken];
    var s3 := s2 + [Change(del)];
    SeenAdded(kind, start, obj);
    StateStep(kind, start, s1, Broken);
    StateStep(kind, start, s2, Change(del));
    StateStep(kind, start, s3, Listed(2, []));
    assert s3 + [Listed(2, [])] == [Listed(0, []), Change(add), Watched, Broken, Change(del), Listed(2, [])];
    ListAfterGap(kind, StateAfter(kind, start, s3), obj);
  }

  lemma ListAfterGap(kind: Kind, sys: System, obj: Record)
    requires Inv(kind, sys) && !sys.connected && sys.pos == 1
    requires sys.log == [Event(false, obj)] + [Event(true, obj)]
    requires Shown(kind, sys.v, KeyOf(kind, obj)) == Some(obj)
    ensures Enabled(kind, sys, Listed(2, []))
    ensures
      var sys' := Next(kind, sys, Listed(2, []));
      && sys'.connected && sys'.pos == |sys'.log|
      && InCluster(kind, sys'.log, KeyOf(kind, obj)).None?
      && Shown(kind, sys'.v, KeyOf(kind, obj)) == Some(obj)
      && Ghost(kind, sys', KeyOf(kind, obj))
  {
    assert sys.log == [Event(false, obj), Event(true, obj)];
    assert sys.log[..2] == sys.log;
    NothingLeft(kind, obj);
    GhostSurvivesRelist(kind, sys, 2, [], KeyOf(kind, obj));
  }

  lemma NothingLeft(kind: Kind, obj: Record)
    ensures forall k: string :: InCluster(kind, [Event(false, obj), Event(true, obj)], k).None?
    ensures IsList(kind, [Event(false, obj), Event(true, obj)], [])
  {
    var log := [Event(false, obj), Event(true, obj)];
    assert log[..1] == [Event(false, obj)] && log[..1][..0] == [];
    forall k: string ensures InCluster(kind, log, k).None? {
      assert InCluster(kind, log[..1], k) == if KeyOf(kind, obj) == k then Some(obj) else InCluster(kind, [], k);
    }
  }

  lemma SeenAdded(kind: Kind, start: System, obj: Record)
    requires Initial(kind, start) && start.log == [] && Passes(kind, obj)
    ensures
      var sys := StateAfter(kind, start, [Listed(0, []), Change(Event(false, obj)), Watched]);
      && sys.log == [Event(false, obj)] && sys.pos == 1 && sys.connected
      && Shown(kind, sys.v, KeyOf(kind, obj)) == Some(obj)
  {
    hide StateAfter, Shown, Passes, KeyOf;
    var add := Event(false, obj);
    FirstList(kind, start, add);
    var steps := [Listed(0, []), Change(add)];
    StateStep(kind, start, steps, Watched);
    assert steps + [Watched] == [Listed(0, []), Change(add), Watched];
    ShownAfterApply(kind, StateAfter(kind, start, steps).v, add, KeyOf(kind, obj));
  }

  lemma NoSteps(kind: Kind, start: System)
    requires Initial(kind, start)
    ensures StateAfter(kind, start, []) == start
  {
  }

  lemma FirstList(kind: Kind, start: System, add: Event)
    requires Initial(kind, start) && start.log == []
    ensures
      var sys := StateAfter(kind, start, [Listed(0, []), Change(add)]);
      sys.log == [add] && sys.pos == 0 && sys.connected
  {
    hide StateAfter, Shown, KeyOf, RunOps, SeedOps;
    assert start.log[..0] == [] && IsList(kind, [], []);
    NoSteps(kind, start);
    StateStep(kind, start, [], Listed(0, []));
    StateStep(kind, start, [Listed(0, [])], Change(add));
    assert [] + [Listed(0, [])] == [Listed(0, [])];
    assert [Listed(0, [])] + [Change(add)] == [Listed(0, []), Change(add)];
  }

}
