/** What survives a full queue: the client gets only some of the published messages. */
module Lossy {
  import opened Json
  import opened Options
  import opened Ring
  import opened ServerState
  import opened ClientStore
  import opened Coupling

  /** The messages whose flag is set, in order. */
  function Kept<X>(log: seq<X>, kept: seq<bool>): (r: seq<X>)
    requires |kept| == |log|
    ensures |r| <= |log|
  {
    if log == [] then []
    else
      Kept(log[..|log| - 1], kept[..|log| - 1]) +
      (if kept[|log| - 1] then [log[|log| - 1]] else [])
  }

  lemma {:induction false} KeptAll<X>(log: seq<X>, kept: seq<bool>)
    requires |kept| == |log|
    requires forall i :: 0 <= i < |kept| ==> kept[i]
    ensures Kept(log, kept) == log
  {
    if log != [] {
      KeptAll(log[..|log| - 1], kept[..|log| - 1]);
    }
  }

  lemma {:induction false} KeptSplit<X>(a: seq<X>, ka: seq<bool>, b: seq<X>, kb: seq<bool>)
    requires |ka| == |a| && |kb| == |b|
    ensures Kept(a + b, ka + kb) == Kept(a, ka) + Kept(b, kb)
    decreases |b|
  {
    if b == [] {
      assert a + b == a && ka + kb == ka;
    } else {
      var n := |b| - 1;
      assert (a + b)[..|a + b| - 1] == a + b[..n];
      assert (ka + kb)[..|a + b| - 1] == ka + kb[..n];
      KeptSplit(a, ka, b[..n], kb[..n]);
    }
  }

  // ---------------- keyed entries ----------------

  /** The entries that a single message rewrites as a whole. */
  datatype Slot =
    | ObjectSlot(kind: Kind, key: string)
    | PodMetricsSlot(key: string)
    | NodeMetricsSlot(node: string)
    | SectionSlot(section: Section)
    | CheckSlot(name: string)

  predicate Touches(m: Msg, slot: Slot) {
    match m
    case ObjectUpserted(kind, _, d) => slot == ObjectSlot(kind, ObjectKey(kind, d))
    case ObjectDeleted(kind, _, d) =>
      var key := ObjectKey(kind, d);
      slot == ObjectSlot(kind, key) || (kind.Pods? && slot == PodMetricsSlot(key))
    case EventAdded(_, _) => false
    case NodeMetrics(_, d) => slot == NodeMetricsSlot(PropertyName(Get(d, Node)))
    case PodMetrics(_, d) => slot == PodMetricsSlot(PropertyName(Get(d, Key)))
    case SectionReplaced(section, _, _) => slot == SectionSlot(section)
    case Healthcheck(_, d) => slot == CheckSlot(PropertyName(Get(d, Name)))
    case HealthcheckDeleted(_, d) => slot == CheckSlot(PropertyName(Get(d, Name)))
  }

  /** A record without the field that the message adds to it. */
  function Bare(f: Field, r: Option<Record>): Option<Record> {
    match r
    case None => None
    case Some(d) => Some(d - {f})
  }

  /** A check without its result history, which is a ring. */
  function Headline(e: Option<CheckEntry>): Option<CheckEntry> {
    match e
    case None => None
    case Some(c) => Some(c.(history := []))
  }

  datatype Content =
    | Entry(r: Option<Record>)
    | Items(i: Option<map<string, Record>>)
    | Check(c: Option<CheckEntry>)

  /** What a view shows in a slot. */
  function Shown(v: View, slot: Slot): Content {
    match slot
    case ObjectSlot(kind, key) => Entry(Find(v.objects, (kind, key)))
    case PodMetricsSlot(key) => Entry(Bare(Key, Find(v.podMetrics, key)))
    case NodeMetricsSlot(node) => Entry(Bare(Node, Find(v.nodeMetrics, node)))
    case SectionSlot(section) => Items(Find(v.sections, section))
    case CheckSlot(name) => Check(Headline(Find(v.healthchecks, name)))
  }

  /** Two records with the same fields, apart from one. */
  ghost predicate SameFields(a: map<string, Record>, b: map<string, Record>, k: string, except: Field) {
    && (k in a <==> k in b)
    && forall f: Field :: f != except ==> Get(RecordOf(a, k), f) == Get(RecordOf(b, k), f)
  }

  /** Two views show the same in a slot: the same object or items, the same fields of a sample
      apart from the name the message adds, the same configuration, result and uptime of a check. */
  ghost predicate SameSlot(a: View, b: View, slot: Slot) {
    match slot
    case ObjectSlot(kind, key) => Find(a.objects, (kind, key)) == Find(b.objects, (kind, key))
    case PodMetricsSlot(key) => SameFields(a.podMetrics, b.podMetrics, key, Key)
    case NodeMetricsSlot(node) => SameFields(a.nodeMetrics, b.nodeMetrics, node, Node)
    case SectionSlot(section) => Find(a.sections, section) == Find(b.sections, section)
    case CheckSlot(name) =>
      && (name in a.healthchecks <==> name in b.healthchecks)
      && (name in a.healthchecks && name in b.healthchecks ==>
            var x, y := a.healthchecks[name], b.healthchecks[name];
            x.config == y.config && x.last == y.last && x.uptimePct == y.uptimePct)
  }

  lemma ShownAlike(a: View, b: View, slot: Slot)
    requires Shown(a, slot) == Shown(b, slot)
    ensures SameSlot(a, b, slot)
  {
    match slot
    case ObjectSlot(_, _) =>
    case PodMetricsSlot(key) => BareAlike(a.podMetrics, b.podMetrics, key, Key);
    case NodeMetricsSlot(node) => BareAlike(a.nodeMetrics, b.nodeMetrics, node, Node);
    case SectionSlot(_) =>
    case CheckSlot(name) =>
      assert Headline(Find(a.healthchecks, name)) == Headline(Find(b.healthchecks, name));
  }

  lemma BareAlike(a: map<string, Record>, b: map<string, Record>, k: string, except: Field)
    requires Bare(except, Find(a, k)) == Bare(except, Find(b, k))
    ensures SameFields(a, b, k, except)
  {
    forall f: Field | f != except ensures Get(RecordOf(a, k), f) == Get(RecordOf(b, k), f) {
      if k in a {
        assert a[k] - {except} == b[k] - {except};
        assert f in a[k] <==> f in a[k] - {except};
        assert f in b[k] <==> f in b[k] - {except};
      }
    }
  }

  /** Node records on the client never hold a field the server's lack: the server's only grow. */
  ghost predicate Covered(server: View, client: View) {
    forall n <- client.nodeMetrics ::
      RecordOf(client.nodeMetrics, n).Keys <= RecordOf(server.nodeMetrics, n).Keys + {Node}
  }

  /** A message that does not touch a slot leaves it alone, on both sides. */
  lemma UntouchedClient(client: View, m: Msg, slot: Slot)
    requires !Touches(m, slot)
    ensures Shown(ApplyDelta(client, m), slot) == Shown(client, slot)
  {
  }

  lemma UntouchedServer(server: View, op: Op, slot: Slot)
    requires ValidOp(op) && ServerInv(server)
    requires forall m <- Published(server, op) :: !Touches(m, slot)
    ensures Shown(After(server, op), slot) == Shown(server, slot)
  {
    var msgs := Published(server, op);
    if msgs != [] {
      assert !Touches(msgs[0], slot);
      match op
      case RecordNodeSample(node, sample, t, _) => UntouchedSample(server, node, sample, t, slot);
      case RecordHardware(_, _, _, _, _) => UntouchedHardware(server, op, slot);
      case RecordCheck(_, _, _, _, _, _, _) => UntouchedCheck(server, op, slot);
      case _ => UntouchedOthers(server, op, slot);
    }
  }

  lemma UntouchedHardware(server: View, op: Op, slot: Slot)
    requires ValidOp(op) && ServerInv(server) && op.RecordHardware?
    requires !Touches(Published(server, op)[0], slot)
    ensures Shown(After(server, op), slot) == Shown(server, slot)
  {
    var s1 := server.(hardware := server.hardware[op.node := op.data[T := Num(op.th)]]);
    assert Merged(s1, op.node, op.data, op.t) == Merged(server, op.node, op.data, op.t);
    UntouchedSample(s1, op.node, op.data, op.t, slot);
  }

  lemma UntouchedCheck(server: View, op: Op, slot: Slot)
    requires op.RecordCheck?
    requires !Touches(Published(server, op)[0], slot)
    ensures Shown(After(server, op), slot) == Shown(server, slot)
  {
    CheckHeadline(server, server, op);
    CheckSteps(server, server, op);
    hide Published, After, ApplyDelta, CheckAfter, CheckEntryAfter;
  }

  /** What a result does to the state and its message to the browser's. */
  lemma CheckSteps(server: View, client: View, op: Op)
    requires op.RecordCheck?
    ensures Published(server, op)[0] == Healthcheck(op.tp, Published(server, op)[0].data)
    ensures After(server, op) == server.(healthchecks := server.healthchecks[op.name := CheckEntryAfter(server, op)])
    ensures
      var d := Published(server, op)[0].data;
      ApplyDelta(client, Healthcheck(op.tp, d))
      == client.(healthchecks := client.healthchecks[PropertyName(Get(d, Name)) := CheckAfter(client, op.tp, d)])
  {
    hide CheckAfter, CheckEntryAfter, CheckMessage;
  }

  lemma UntouchedOthers(server: View, op: Op, slot: Slot)
    requires ValidOp(op)
    requires !op.RecordNodeSample? && !op.RecordHardware? && !op.RecordCheck?
    requires Published(server, op) != [] && !Touches(Published(server, op)[0], slot)
    ensures Shown(After(server, op), slot) == Shown(server, slot)
  {
  }

  lemma UntouchedSample(server: View, node: string, sample: Record, t: real, slot: Slot)
    requires forall n <- server.nodeMetrics :: Node !in server.nodeMetrics[n]
    requires Node !in sample
    requires
      var d := WithDefault(Node, Str(node), Merged(server, node, sample, t));
      slot != NodeMetricsSlot(PropertyName(Get(d, Node)))
    ensures Shown(Sampled(server, node, sample, t), slot) == Shown(server, slot)
  {
    SampleNames(server, node, sample, t);
  }

  lemma SampleNames(server: View, node: string, sample: Record, t: real)
    requires forall n <- server.nodeMetrics :: Node !in server.nodeMetrics[n]
    requires Node !in sample
    ensures Node !in Merged(server, node, sample, t)
    ensures PropertyName(Get(WithDefault(Node, Str(node), Merged(server, node, sample, t)), Node)) == node
  {
  }

  /** A delivered message brings the slot it touches up to date, whatever the client held. */
  lemma TouchedAgrees(server: View, client: View, op: Op, slot: Slot)
    requires ValidOp(op) && ServerInv(server) && Covered(server, client)
    requires Published(server, op) != [] && Touches(Published(server, op)[0], slot)
    ensures Shown(ApplyDelta(client, Published(server, op)[0]), slot) == Shown(After(server, op), slot)
  {
    hide Shown, ServerInv, Covered;
    match op
    case RecordNodeSample(node, sample, t, tp) => TouchedSample(server, client, node, sample, t, tp, slot);
    case RecordHardware(_, _, _, _, _) => TouchedHardware(server, client, op, slot);
    case RecordCheck(_, _, _, _, _, _, _) => TouchedCheck(server, client, op, slot);
    case _ => TouchedOthers(server, client, op, slot);
  }

  lemma TouchedHardware(server: View, client: View, op: Op, slot: Slot)
    requires ValidOp(op) && ServerInv(server) && Covered(server, client) && op.RecordHardware?
    requires Touches(Published(server, op)[0], slot)
    ensures Shown(ApplyDelta(client, Published(server, op)[0]), slot) == Shown(After(server, op), slot)
  {
    hide Covered, PointOf;
    var s1 := server.(hardware := server.hardware[op.node := op.data[T := Num(op.th)]]);
    TouchedSample(server, client, op.node, op.data, op.t, op.tp, slot);
    assert Sampled(s1, op.node, op.data, op.t).nodeMetrics == Sampled(server, op.node, op.data, op.t).nodeMetrics;
  }

  lemma TouchedSample(server: View, client: View, node: string, sample: Record, t: real, tp: real, slot: Slot)
    requires ServerInv(server) && Node !in sample && Covered(server, client)
    requires
      var d := WithDefault(Node, Str(node), Merged(server, node, sample, t));
      slot == NodeMetricsSlot(PropertyName(Get(d, Node)))
    ensures
      var d := WithDefault(Node, Str(node), Merged(server, node, sample, t));
      && slot == NodeMetricsSlot(node)
      && Shown(ApplyDelta(client, NodeMetrics(tp, d)), slot) == Shown(Sampled(server, node, sample, t), slot)
  {
    NodeSlotAgrees(server, client, node, sample, t);
  }

  lemma TouchedCheck(server: View, client: View, op: Op, slot: Slot)
    requires op.RecordCheck? && Touches(Published(server, op)[0], slot)
    ensures Shown(ApplyDelta(client, Published(server, op)[0]), slot) == Shown(After(server, op), slot)
  {
    CheckHeadline(server, client, op);
    CheckSteps(server, client, op);
    hide Published, After, ApplyDelta, CheckAfter, CheckEntryAfter;
  }

  lemma TouchedOthers(server: View, client: View, op: Op, slot: Slot)
    requires ValidOp(op)
    requires !op.RecordNodeSample? && !op.RecordHardware? && !op.RecordCheck?
    requires Published(server, op) != [] && Touches(Published(server, op)[0], slot)
    ensures Shown(ApplyDelta(client, Published(server, op)[0]), slot) == Shown(After(server, op), slot)
  {
    hide Shown, Touches, After, Published, ApplyDelta;
    match op
    case UpsertObject(_, _, _, _) => TouchedObject(server, client, op, slot);
    case RemoveObject(_, _, _) => TouchedRemoved(server, client, op, slot);
    case AddEvent(_, _) => EventTouchesNothing(server, op, slot);
    case RecordPodSample(_, _, _, _) => TouchedPod(server, client, op, slot);
    case SetSection(_, _, _) => TouchedSection(server, client, op, slot);
    case RemoveCheck(_, _) => TouchedGoneCheck(server, client, op, slot);
  }

  lemma EventTouchesNothing(server: View, op: Op, slot: Slot)
    requires op.AddEvent?
    ensures !Touches(Published(server, op)[0], slot)
  {
  }

  lemma TouchedRemoved(server: View, client: View, op: Op, slot: Slot)
    requires op.RemoveObject? && Touches(Published(server, op)[0], slot)
    ensures Shown(ApplyDelta(client, Published(server, op)[0]), slot) == Shown(After(server, op), slot)
  {
    hide ChartPoint, PointOf, CheckAfter, CheckEntryAfter, Merged, Sampled;
  }

  lemma TouchedSection(server: View, client: View, op: Op, slot: Slot)
    requires op.SetSection? && Touches(Published(server, op)[0], slot)
    ensures Shown(ApplyDelta(client, Published(server, op)[0]), slot) == Shown(After(server, op), slot)
  {
  }

  lemma TouchedGoneCheck(server: View, client: View, op: Op, slot: Slot)
    requires op.RemoveCheck? && Published(server, op) != [] && Touches(Published(server, op)[0], slot)
    ensures Shown(ApplyDelta(client, Published(server, op)[0]), slot) == Shown(After(server, op), slot)
  {
  }

  lemma TouchedObject(server: View, client: View, op: Op, slot: Slot)
    requires ValidOp(op) && op.UpsertObject? && Touches(Published(server, op)[0], slot)
    ensures Shown(ApplyDelta(client, Published(server, op)[0]), slot) == Shown(After(server, op), slot)
  {
    hide ChartPoint, PointOf, CheckAfter, CheckEntryAfter, Merged, Sampled;
    assert slot == ObjectSlot(op.kind, op.key);
  }

  lemma TouchedPod(server: View, client: View, op: Op, slot: Slot)
    requires ValidOp(op) && op.RecordPodSample? && Touches(Published(server, op)[0], slot)
    ensures Shown(ApplyDelta(client, Published(server, op)[0]), slot) == Shown(After(server, op), slot)
  {
    hide ChartPoint, PointOf, CheckAfter, CheckEntryAfter, Merged;
    var rec := op.sample[T := Num(op.t)];
    assert WithDefault(Key, Str(op.key), rec) - {Key} == rec - {Key};
  }

  lemma NodeSlotAgrees(server: View, client: View, node: string, sample: Record, t: real)
    requires ServerInv(server) && Node !in sample && Covered(server, client)
    ensures
      var merged := Merged(server, node, sample, t);
      var d := WithDefault(Node, Str(node), merged);
      && PropertyName(Get(d, Node)) == node
      && (RecordOf(client.nodeMetrics, node) + d) - {Node} == merged - {Node}
  {
    SampleNames(server, node, sample, t);
    var merged := Merged(server, node, sample, t);
    var held := RecordOf(client.nodeMetrics, node);
    assert held.Keys <= RecordOf(server.nodeMetrics, node).Keys + {Node};
    MergeCovers(held, merged, Str(node));
  }

  lemma StepCovered(server: View, client: View, op: Op)
    requires ValidOp(op) && ServerInv(server) && Covered(server, client)
    ensures Covered(After(server, op), client)
    ensures Published(server, op) != [] ==> Covered(After(server, op), ApplyDelta(client, Published(server, op)[0]))
  {
    match op
    case RecordNodeSample(node, sample, t, tp) => SampleCovered(server, client, node, sample, t, tp);
    case RecordHardware(node, data, _, t, tp) => SampleCovered(server, client, node, data, t, tp);
    case _ => OthersCovered(server, client, op);
  }

  lemma OthersCovered(server: View, client: View, op: Op)
    requires !op.RecordNodeSample? && !op.RecordHardware?
    ensures After(server, op).nodeMetrics == server.nodeMetrics
    ensures Published(server, op) != [] ==>
      ApplyDelta(client, Published(server, op)[0]).nodeMetrics == client.nodeMetrics
  {
    OthersPublish(server, op);
  }

  lemma OthersPublish(server: View, op: Op)
    requires !op.RecordNodeSample? && !op.RecordHardware?
    ensures After(server, op).nodeMetrics == server.nodeMetrics
    ensures Published(server, op) != [] ==> !Published(server, op)[0].NodeMetrics?
  {
  }

  lemma SampleCovered(server: View, client: View, node: string, sample: Record, t: real, tp: real)
    requires ServerInv(server) && Node !in sample && Covered(server, client)
    ensures Covered(Sampled(server, node, sample, t), client)
    ensures Covered(Sampled(server, node, sample, t),
                    ApplyDelta(client, NodeMetrics(tp, WithDefault(Node, Str(node), Merged(server, node, sample, t)))))
  {
    SampleNames(server, node, sample, t);
    var merged := Merged(server, node, sample, t);
    var d := WithDefault(Node, Str(node), merged);
    MapCovered(server.nodeMetrics, client.nodeMetrics, node, merged, d);
  }

  lemma MapCovered(server: map<string, Record>, client: map<string, Record>, node: string, merged: Record, d: Record)
    requires forall n <- client :: RecordOf(client, n).Keys <= RecordOf(server, n).Keys + {Node}
    requires RecordOf(server, node).Keys <= merged.Keys && d.Keys <= merged.Keys + {Node}
    ensures forall n <- client :: RecordOf(client, n).Keys <= RecordOf(server[node := merged], n).Keys + {Node}
    ensures
      var client' := client[node := RecordOf(client, node) + d];
      forall n <- client' :: RecordOf(client', n).Keys <= RecordOf(server[node := merged], n).Keys + {Node}
  {
    assert RecordOf(client, node).Keys <= RecordOf(server, node).Keys + {Node};
  }

  /** No message that touches the slot was dropped after, or as, the last one that does. */
  ghost predicate LastTouchKept(log: seq<Msg>, kept: seq<bool>, slot: Slot)
    requires |kept| == |log|
  {
    forall i :: 0 <= i < |log| && Touches(log[i], slot) && !kept[i]
      ==> exists j :: i < j < |log| && Touches(log[j], slot)
  }

  lemma LastIsKept(log: seq<Msg>, kept: seq<bool>, slot: Slot)
    requires |kept| == |log| && LastTouchKept(log, kept, slot)
    requires log != [] && Touches(log[|log| - 1], slot)
    ensures kept[|log| - 1]
  {
    hide Touches;
  }

  /** The last message, if any, of a log of which only some were kept. */
  lemma LastKept(v: View, log: seq<Msg>, msgs: seq<Msg>, kept: seq<bool>)
    requires |kept| == |log + msgs| && |msgs| <= 1
    ensures
      var client := ApplyAll(v, Kept(log, kept[..|log|]));
      ApplyAll(v, Kept(log + msgs, kept)) == if msgs != [] && kept[|log|] then ApplyDelta(client, msgs[0]) else client
  {
    hide ApplyDelta;
    if msgs == [] {
      assert log + msgs == log && kept[..|log|] == kept;
    } else {
      var all := log + msgs;
      assert all[..|all| - 1] == log && kept[..|all| - 1] == kept[..|log|];
      var before := Kept(log, kept[..|log|]);
      if kept[|log|] {
        assert Kept(all, kept) == before + [msgs[0]];
        assert (before + [msgs[0]])[..|before|] == before;
      } else {
        assert Kept(all, kept) == before;
      }
    }
  }

  /** The last mutation of a history, seen from a client that got only the kept messages. */
  lemma LastOp(v: View, ops: seq<Op>, kept: seq<bool>)
    requires ops != [] && |kept| == |Log(v, ops)|
    ensures
      var n := |ops| - 1;
      var server, log := RunOps(v, ops[..n]), Log(v, ops[..n]);
      var msgs := Published(server, ops[n]);
      var client := ApplyAll(v, Kept(log, kept[..|log|]));
      && Log(v, ops) == log + msgs
      && ApplyAll(v, Kept(Log(v, ops), kept))
         == if msgs != [] && kept[|log|] then ApplyDelta(client, msgs[0]) else client
  {
    hide ApplyAll, ApplyDelta, Kept, Published, After;
    var n := |ops| - 1;
    LastKept(v, Log(v, ops[..n]), Published(RunOps(v, ops[..n]), ops[n]), kept);
  }

  lemma NothingSent(v: View, kept: seq<bool>)
    requires kept == []
    ensures Log(v, []) == [] && ApplyAll(v, Kept(Log(v, []), kept)) == v == RunOps(v, [])
  {
  }

  /** Lossy convergence: a slot agrees if the last message that touches it was not dropped. */
  lemma {:induction false} SlotConverges(v: View, ops: seq<Op>, kept: seq<bool>, slot: Slot)
    requires ServerInv(v) && ValidOps(ops)
    requires |kept| == |Log(v, ops)|
    requires LastTouchKept(Log(v, ops), kept, slot)
    ensures Shown(ApplyAll(v, Kept(Log(v, ops), kept)), slot) == Shown(RunOps(v, ops), slot)
  {
    hide Shown, After, ApplyDelta, ApplyAll, Kept, ServerInv, LastTouchKept, Touches;
    if ops == [] {
      NothingSent(v, kept);
    } else {
      var n := |ops| - 1;
      var server, log := RunOps(v, ops[..n]), Log(v, ops[..n]);
      var msgs, k := Published(server, ops[n]), |log|;
      RunKeepsInv(v, ops[..n]);
      LastOp(v, ops, kept);
      var client := ApplyAll(v, Kept(log, kept[..k]));
      if msgs != [] && Touches(msgs[0], slot) {
        assert Log(v, ops)[k] == msgs[0];
        LastIsKept(Log(v, ops), kept, slot);
        LossyCovered(v, ops[..n], kept[..k]);
        TouchedAgrees(server, client, ops[n], slot);
      } else {
        PrefixTouchKept(log, msgs, kept, slot);
        SlotConverges(v, ops[..n], kept[..k], slot);
        UntouchedServer(server, ops[n], slot);
        if msgs != [] {
          UntouchedClient(client, msgs[0], slot);
        }
      }
    }
  }

  lemma PrefixTouchKept(log: seq<Msg>, msgs: seq<Msg>, kept: seq<bool>, slot: Slot)
    requires |kept| == |log + msgs| && LastTouchKept(log + msgs, kept, slot)
    requires forall m <- msgs :: !Touches(m, slot)
    ensures LastTouchKept(log, kept[..|log|], slot)
  {
    var all := log + msgs;
    forall i | 0 <= i < |log| && Touches(log[i], slot) && !kept[..|log|][i]
      ensures exists j :: i < j < |log| && Touches(log[j], slot)
    {
      assert all[i] == log[i];
      var j :| i < j < |all| && Touches(all[j], slot);
      assert all[j] in msgs || j < |log|;
    }
  }

  lemma {:induction false} LossyCovered(v: View, ops: seq<Op>, kept: seq<bool>)
    requires ServerInv(v) && ValidOps(ops)
    requires |kept| == |Log(v, ops)|
    ensures Covered(RunOps(v, ops), ApplyAll(v, Kept(Log(v, ops), kept)))
  {
    if ops != [] {
      var n := |ops| - 1;
      var server, log := RunOps(v, ops[..n]), Log(v, ops[..n]);
      RunKeepsInv(v, ops[..n]);
      LastOp(v, ops, kept);
      LossyCovered(v, ops[..n], kept[..|log|]);
      StepCovered(server, ApplyAll(v, Kept(log, kept[..|log|])), ops[n]);
    }
  }

  // ---------------- hardware ----------------

  /** The client's hardware record of a node shows the node's latest values. */
  ghost predicate ShowsLatest(server: View, client: View, n: string) {
    PartOf(RecordOf(server.nodeMetrics, n), RecordOf(client.hardware, n))
  }

  ghost predicate PartOf(d: Record, whole: Record) {
    forall f <- d :: f in whole && whole[f] == d[f]
  }

  lemma SampleShowsLatest(server: View, client: View, node: string, sample: Record, t: real, tp: real, n: string)
    requires ServerInv(server) && Node !in sample
    requires n == node || ShowsLatest(server, client, n)
    ensures
      var d := WithDefault(Node, Str(node), Merged(server, node, sample, t));
      ShowsLatest(Sampled(server, node, sample, t), ApplyDelta(client, NodeMetrics(tp, d)), n)
  {
    hide PartOf, PointOf;
    SampleNames(server, node, sample, t);
    var merged := Merged(server, node, sample, t);
    var d := WithDefault(Node, Str(node), merged);
    var server', client' := Sampled(server, node, sample, t), ApplyDelta(client, NodeMetrics(tp, d));
    var held := RecordOf(client.hardware, node);
    assert server'.nodeMetrics == server.nodeMetrics[node := merged];
    assert client'.hardware == client.hardware[node := held + d];
    ShownInMerge(held, merged, Str(node));
  }

  lemma ShownInMerge(held: Record, merged: Record, node: Val)
    ensures PartOf(merged, held + WithDefault(Node, node, merged))
  {
  }

  lemma StepShowsLatest(server: View, client: View, op: Op, n: string)
    requires ValidOp(op) && ServerInv(server) && Published(server, op) != []
    requires Touches(Published(server, op)[0], NodeMetricsSlot(n)) || ShowsLatest(server, client, n)
    ensures ShowsLatest(After(server, op), ApplyDelta(client, Published(server, op)[0]), n)
  {
    match op
    case RecordNodeSample(node, sample, t, tp) =>
      SampleNames(server, node, sample, t);
      SampleShowsLatest(server, client, node, sample, t, tp, n);
    case RecordHardware(node, data, th, t, tp) =>
      SampleNames(server, node, data, t);
      SampleShowsLatest(server, client, node, data, t, tp, n);
      assert After(server, op).nodeMetrics == Sampled(server, node, data, t).nodeMetrics;
    case _ =>
      OthersPublish(server, op);
      OthersShown(client, Published(server, op)[0]);
  }

  lemma OthersShown(client: View, m: Msg)
    requires !m.NodeMetrics?
    ensures ApplyDelta(client, m).hardware == client.hardware
    ensures forall n: string :: !Touches(m, NodeMetricsSlot(n))
  {
  }

  lemma UnheardShowsLatest(server: View, client: View, op: Op, n: string)
    requires ValidOp(op) && ServerInv(server) && ShowsLatest(server, client, n)
    requires forall m <- Published(server, op) :: !Touches(m, NodeMetricsSlot(n))
    ensures ShowsLatest(After(server, op), client, n)
  {
    var msgs := Published(server, op);
    if msgs != [] {
      assert !Touches(msgs[0], NodeMetricsSlot(n));
      match op
      case RecordNodeSample(node, sample, t, tp) => SampleNames(server, node, sample, t);
      case RecordHardware(node, data, _, t, tp) => SampleNames(server, node, data, t);
      case _ => OthersPublish(server, op);
    }
  }

  predicate Heard(log: seq<Msg>, n: string) {
    exists i :: 0 <= i < |log| && Touches(log[i], NodeMetricsSlot(n))
  }

  /** A client that has heard of a node since its snapshot, and has not lost the last message about
      it, shows the node's latest values as its hardware. */
  lemma {:induction false} HardwareIsLatest(v: View, ops: seq<Op>, kept: seq<bool>, n: string)
    requires ServerInv(v) && ValidOps(ops)
    requires |kept| == |Log(v, ops)| && Heard(Log(v, ops), n)
    requires LastTouchKept(Log(v, ops), kept, NodeMetricsSlot(n))
    ensures ShowsLatest(RunOps(v, ops), ApplyAll(v, Kept(Log(v, ops), kept)), n)
  {
    hide ShowsLatest, After, ApplyDelta, ApplyAll, Kept, ServerInv, LastTouchKept, Touches;
    if ops != [] {
      var last := |ops| - 1;
      var server, log := RunOps(v, ops[..last]), Log(v, ops[..last]);
      var msgs, k := Published(server, ops[last]), |log|;
      RunKeepsInv(v, ops[..last]);
      LastOp(v, ops, kept);
      var client := ApplyAll(v, Kept(log, kept[..k]));
      if msgs != [] && Touches(msgs[0], NodeMetricsSlot(n)) {
        assert Log(v, ops)[k] == msgs[0];
        LastIsKept(Log(v, ops), kept, NodeMetricsSlot(n));
        StepShowsLatest(server, client, ops[last], n);
      } else {
        PrefixTouchKept(log, msgs, kept, NodeMetricsSlot(n));
        HardwareIsLatest(v, ops[..last], kept[..k], n);
        if msgs != [] && kept[k] {
          StepShowsLatest(server, client, ops[last], n);
        } else {
          UnheardShowsLatest(server, client, ops[last], n);
        }
      }
    }
  }

  /** So a field of the server's hardware record agrees exactly if the server's own latest values
      still have it: if no later metrics sample of the node brought another value. */
  lemma HardwareExactly(v: View, ops: seq<Op>, kept: seq<bool>, n: string, f: Field)
    requires ServerInv(v) && ValidOps(ops)
    requires |kept| == |Log(v, ops)| && LastTouchKept(Log(v, ops), kept, NodeMetricsSlot(n))
    ensures Heard(Log(v, ops), n) && f in RecordOf(RunOps(v, ops).hardware, n) ==>
      SameAsLatest(RunOps(v, ops), ApplyAll(v, Kept(Log(v, ops), kept)), n, f)
  {
    if Heard(Log(v, ops), n) && f in RecordOf(RunOps(v, ops).hardware, n) {
      var server := RunOps(v, ops);
      RunKeepsInv(v, ops);
      HardwareIsLatest(v, ops, kept, n);
      assert HardwareKept(server.hardware[n], RecordOf(server.nodeMetrics, n));
    }
  }

  /** Both sides have the field, and they agree on it exactly if the server's latest values of the
      node have the hardware record's value. */
  ghost predicate SameAsLatest(server: View, client: View, n: string, f: Field) {
    var hardware, shown, latest :=
      RecordOf(server.hardware, n), RecordOf(client.hardware, n), RecordOf(server.nodeMetrics, n);
    && f in hardware && f in shown && f in latest
    && (shown[f] == hardware[f] <==> latest[f] == hardware[f])
  }

  /** Where a message does not touch the node's values, the client keeps its hardware record. */
  lemma ClientKeepsHardware(client: View, m: Msg, n: string)
    requires !Touches(m, NodeMetricsSlot(n))
    ensures RecordOf(ApplyDelta(client, m).hardware, n) == RecordOf(client.hardware, n)
  {
    if !m.NodeMetrics? {
      OthersShown(client, m);
    }
  }

  lemma ServerKeepsHardware(server: View, op: Op, n: string)
    requires op.RecordHardware? ==> op.node != n
    ensures RecordOf(After(server, op).hardware, n) == RecordOf(server.hardware, n)
  {
  }

  lemma HardwareIsTold(server: View, op: Op)
    requires ValidOp(op) && ServerInv(server) && op.RecordHardware?
    ensures Published(server, op) != [] && Touches(Published(server, op)[0], NodeMetricsSlot(op.node))
  {
    SampleNames(server, op.node, op.data, op.t);
  }

  lemma StepLeavesHardware(server: View, client: View, op: Op, n: string)
    requires ValidOp(op) && ServerInv(server)
    requires forall m <- Published(server, op) :: !Touches(m, NodeMetricsSlot(n))
    ensures RecordOf(After(server, op).hardware, n) == RecordOf(server.hardware, n)
    ensures Published(server, op) != [] ==>
      RecordOf(ApplyDelta(client, Published(server, op)[0]).hardware, n) == RecordOf(client.hardware, n)
  {
    hide After, ApplyDelta, Published, Touches, ServerInv, RecordOf;
    if op.RecordHardware? {
      HardwareIsTold(server, op);
    }
    ServerKeepsHardware(server, op, n);
    if Published(server, op) != [] {
      ClientKeepsHardware(client, Published(server, op)[0], n);
    }
  }

  /** A node that has not been heard of since the snapshot keeps its hardware record, on the server
      and on a client that got any of the messages. */
  lemma {:induction false} UnheardHardware(v: View, ops: seq<Op>, kept: seq<bool>, n: string)
    requires ServerInv(v) && ValidOps(ops) && |kept| == |Log(v, ops)|
    requires !Heard(Log(v, ops), n)
    ensures RecordOf(RunOps(v, ops).hardware, n) == RecordOf(v.hardware, n)
    ensures RecordOf(ApplyAll(v, Kept(Log(v, ops), kept)).hardware, n) == RecordOf(v.hardware, n)
  {
    hide After, ApplyDelta, ApplyAll, Kept, ServerInv, Touches;
    if ops == [] {
      NothingSent(v, kept);
    } else {
      var last := |ops| - 1;
      var server, log := RunOps(v, ops[..last]), Log(v, ops[..last]);
      var msgs := Published(server, ops[last]);
      RunKeepsInv(v, ops[..last]);
      LastOp(v, ops, kept);
      UnheardParts(log, msgs, n);
      UnheardHardware(v, ops[..last], kept[..|log|], n);
      StepLeavesHardware(server, ApplyAll(v, Kept(log, kept[..|log|])), ops[last], n);
    }
  }

  lemma UnheardParts(log: seq<Msg>, msgs: seq<Msg>, n: string)
    requires !Heard(log + msgs, n)
    ensures !Heard(log, n) && forall m <- msgs :: !Touches(m, NodeMetricsSlot(n))
  {
    hide Touches;
    forall i | 0 <= i < |log| ensures !Touches(log[i], NodeMetricsSlot(n)) {
      assert (log + msgs)[i] == log[i];
    }
    forall i | 0 <= i < |msgs| ensures !Touches(msgs[i], NodeMetricsSlot(n)) {
      assert (log + msgs)[|log| + i] == msgs[i];
    }
  }

  /** After a metrics sample the server's hardware record is as before, while the browser's has
      the sample's values. */
  lemma MetricsOverride(server: View, client: View, n: string, sample: Record, f: Field, t: real, tp: real)
    requires ServerInv(server) && sample.Keys <= METRICS_SERVER_FIELDS && f in sample
    ensures
      var d := WithDefault(Node, Str(n), Merged(server, n, sample, t));
      && Sampled(server, n, sample, t).hardware == server.hardware
      && Get(RecordOf(ApplyDelta(client, NodeMetrics(tp, d)).hardware, n), f) == sample[f]
  {
    SampleShowsLatest(server, client, n, sample, t, tp, n);
    assert Sampled(server, n, sample, t).nodeMetrics == server.nodeMetrics[n := Merged(server, n, sample, t)];
  }

  /** The difference is real: from any state, after a hardware sample and a metrics sample that
      both carry a field (both collectors write the memory share), the server's hardware record
      holds the first value and the browser's the second. */
  lemma HardwareDiffers(v: View, n: string, data: Record, sample: Record, f: Field, t: real)
    requires ServerInv(v) && Node !in data && sample.Keys <= METRICS_SERVER_FIELDS
    requires f in data && f in sample
    ensures
      var ops := [RecordHardware(n, data, t, t, t), RecordNodeSample(n, sample, t, t)];
      var server, client := RunOps(v, ops), ApplyAll(v, Log(v, ops));
      && ValidOps(ops)
      && Get(RecordOf(server.hardware, n), f) == data[f]
      && Get(RecordOf(client.hardware, n), f) == sample[f]
  {
    hide Published, After, ApplyDelta, ServerInv, Merged, Sampled, RunOps, ApplyAll, Log;
    var op1, op2 := RecordHardware(n, data, t, t, t), RecordNodeSample(n, sample, t, t);
    var s1 := After(v, op1);
    var m1 := NodeMetrics(t, WithDefault(Node, Str(n), Merged(v, n, data, t)));
    var m2 := NodeMetrics(t, WithDefault(Node, Str(n), Merged(s1, n, sample, t)));
    AfterKeepsInv(v, op1);
    HardwarePublishes(v, n, data, t);
    SamplePublishes(s1, n, sample, t);
    TwoOps(v, op1, op2, m1, m2);
    MetricsOverride(s1, ApplyDelta(v, m1), n, sample, f, t, t);
    ReplacedHardware(v, op1);
  }

  lemma HardwarePublishes(v: View, n: string, data: Record, t: real)
    ensures Published(v, RecordHardware(n, data, t, t, t))
         == [NodeMetrics(t, WithDefault(Node, Str(n), Merged(v, n, data, t)))]
  {
  }

  lemma SamplePublishes(v: View, n: string, sample: Record, t: real)
    ensures Published(v, RecordNodeSample(n, sample, t, t))
         == [NodeMetrics(t, WithDefault(Node, Str(n), Merged(v, n, sample, t)))]
    ensures After(v, RecordNodeSample(n, sample, t, t)) == Sampled(v, n, sample, t)
  {
  }

  lemma ReplacedHardware(v: View, op: Op)
    requires op.RecordHardware?
    ensures RecordOf(After(v, op).hardware, op.node) == op.data[T := Num(op.th)]
  {
  }

  lemma TwoOps(v: View, op1: Op, op2: Op, m1: Msg, m2: Msg)
    requires Published(v, op1) == [m1] && Published(After(v, op1), op2) == [m2]
    ensures RunOps(v, [op1, op2]) == After(After(v, op1), op2)
    ensures ApplyAll(v, Log(v, [op1, op2])) == ApplyDelta(ApplyDelta(v, m1), m2)
  {
    OneOp(v, [], op1);
    OneOp(v, [op1], op2);
    assert [] + [op1] == [op1] && [op1] + [op2] == [op1, op2] && [] + [m1] == [m1];
    ApplyAllSplit(v, [m1], [m2]);
  }

  lemma OneOp(v: View, ops: seq<Op>, op: Op)
    ensures RunOps(v, ops + [op]) == After(RunOps(v, ops), op)
    ensures Log(v, ops + [op]) == Log(v, ops) + Published(RunOps(v, ops), op)
  {
    assert (ops + [op])[..|ops|] == ops;
  }

  // ---------------- bounded histories ----------------

  datatype RingId = NodeRing(node: string) | CheckRing(name: string) | EventRing

  function Capacity(id: RingId): nat {
    match id
    case NodeRing(_) => HISTORY_LEN
    case CheckRing(_) => CHECK_HISTORY_LEN
    case EventRing => EVENTS_LEN
  }

  datatype Sample = OfNode(p: HistoryPoint) | OfRecord(d: Record)

  function NodeSamples(h: seq<HistoryPoint>): seq<Sample> {
    seq(|h|, i requires 0 <= i < |h| => OfNode(h[i].(t := Null)))
  }

  function RecordSamples(h: seq<Record>): seq<Sample> {
    seq(|h|, i requires 0 <= i < |h| => OfRecord(h[i]))
  }

  /** A view's history, apart from the times in a node's series. */
  function RingOf(v: View, id: RingId): seq<Sample> {
    match id
    case NodeRing(node) => NodeSamples(HistoryOf(v.nodeHistory, node))
    case CheckRing(name) => RecordSamples(CheckHistory(v, name))
    case EventRing => RecordSamples(v.events)
  }

  /** Two views hold the same history: the same charted values at every place of a node's series,
      the same results of a check, the same events. */
  ghost predicate SameRing(a: View, b: View, id: RingId) {
    match id
    case NodeRing(node) =>
      var x, y := HistoryOf(a.nodeHistory, node), HistoryOf(b.nodeHistory, node);
      |x| == |y| && forall i :: 0 <= i < |x| ==> x[i].(t := Null) == y[i].(t := Null)
    case CheckRing(name) => CheckHistory(a, name) == CheckHistory(b, name)
    case EventRing => a.events == b.events
  }

  lemma RingsAlike(a: View, b: View, id: RingId)
    requires RingOf(a, id) == RingOf(b, id)
    ensures SameRing(a, b, id)
  {
    match id
    case NodeRing(node) =>
      var x, y := HistoryOf(a.nodeHistory, node), HistoryOf(b.nodeHistory, node);
      assert |NodeSamples(x)| == |NodeSamples(y)|;
      forall i | 0 <= i < |x| ensures x[i].(t := Null) == y[i].(t := Null) {
        assert NodeSamples(x)[i] == NodeSamples(y)[i];
      }
    case CheckRing(name) => RecordsAlike(CheckHistory(a, name), CheckHistory(b, name));
    case EventRing => RecordsAlike(a.events, b.events);
  }

  lemma RecordsAlike(x: seq<Record>, y: seq<Record>)
    requires RecordSamples(x) == RecordSamples(y)
    ensures x == y
  {
    assert |RecordSamples(x)| == |RecordSamples(y)|;
    forall i | 0 <= i < |x| ensures x[i] == y[i] {
      assert RecordSamples(x)[i] == RecordSamples(y)[i];
    }
  }

  lemma RecordSamplesPush(cap: nat, h: seq<Record>, d: Record)
    requires 1 <= cap && |h| <= cap
    ensures RecordSamples(Push(cap, h, d)) == Push(cap, RecordSamples(h), OfRecord(d))
    ensures Last(cap - 1, h) + [d] == Push(cap, h, d)
  {
    SliceIsPush(cap, h, d);
  }

  function ResultOf(t: real, d: Record): Record {
    map[T := Coalesce(Get(d, T), Num(t)), Ok := Get(d, Ok), Ms := Get(d, Ms), Detail := Get(d, Detail)]
  }

  /** What a message means for a ring. */
  function Effect(m: Msg, id: RingId): Act<Sample> {
    match m
    case EventAdded(_, d) => if id.EventRing? then Append(OfRecord(d)) else Ignore
    case NodeMetrics(_, d) =>
      if id == NodeRing(PropertyName(Get(d, Node))) then Append(OfNode(PointOf(Null, d))) else Ignore
    case Healthcheck(t, d) =>
      if id == CheckRing(PropertyName(Get(d, Name))) then Append(OfRecord(ResultOf(t, d))) else Ignore
    case HealthcheckDeleted(_, d) =>
      if id == CheckRing(PropertyName(Get(d, Name))) then Reset else Ignore
    case _ => Ignore
  }

  function Effects(msgs: seq<Msg>, id: RingId): (r: seq<Act<Sample>>)
    ensures |r| == |msgs|
    ensures forall i :: 0 <= i < |msgs| ==> r[i] == Effect(msgs[i], id)
  {
    seq(|msgs|, i requires 0 <= i < |msgs| => Effect(msgs[i], id))
  }

  lemma ClientRing(client: View, m: Msg, id: RingId)
    requires |RingOf(client, id)| <= Capacity(id)
    ensures RingOf(ApplyDelta(client, m), id) == Do(Capacity(id), RingOf(client, id), Effect(m, id))
  {
    match m
    case NodeMetrics(t, d) => ClientNodeRing(client, m, id);
    case Healthcheck(t, d) => ClientCheckRing(client, m, id);
    case EventAdded(_, d) => ClientEventRing(client, m, id);
    case _ => OtherMessages(client, m, id);
  }

  lemma ClientNodeRing(client: View, m: Msg, id: RingId)
    requires m.NodeMetrics? && |RingOf(client, id)| <= Capacity(id)
    ensures RingOf(ApplyDelta(client, m), id) == Do(Capacity(id), RingOf(client, id), Effect(m, id))
  {
    var node := PropertyName(Get(m.data, Node));
    var p := PointOf(Num(m.t), m.data);
    SamePoint(m.t, m.data);
    var hist := HistoryOf(client.nodeHistory, node);
    if id == NodeRing(node) {
      assert HistoryOf(ApplyDelta(client, m).nodeHistory, node) == Last(HISTORY_LEN - 1, hist) + [p];
      assert p.(t := Null) == PointOf(Null, m.data);
    }
  }

  lemma ClientCheckRing(client: View, m: Msg, id: RingId)
    requires m.Healthcheck? && |RingOf(client, id)| <= Capacity(id)
    ensures RingOf(ApplyDelta(client, m), id) == Do(Capacity(id), RingOf(client, id), Effect(m, id))
  {
    var name := PropertyName(Get(m.data, Name));
    var entry := CheckAfter(client, m.t, m.data);
    assert ApplyDelta(client, m) == client.(healthchecks := client.healthchecks[name := entry]);
    if id == CheckRing(name) {
      RecordSamplesPush(CHECK_HISTORY_LEN, CheckHistory(client, name), ResultOf(m.t, m.data));
    }
  }

  lemma ClientEventRing(client: View, m: Msg, id: RingId)
    requires m.EventAdded? && |RingOf(client, id)| <= Capacity(id)
    ensures RingOf(ApplyDelta(client, m), id) == Do(Capacity(id), RingOf(client, id), Effect(m, id))
  {
    if id.EventRing? {
      RecordSamplesPush(EVENTS_LEN, client.events, m.data);
    }
  }

  lemma OtherMessages(client: View, m: Msg, id: RingId)
    requires !m.NodeMetrics? && !m.Healthcheck? && !m.EventAdded?
    ensures RingOf(ApplyDelta(client, m), id) == Do(Capacity(id), RingOf(client, id), Effect(m, id))
  {
  }

  lemma ServerRing(server: View, op: Op, id: RingId)
    requires ServerInv(server) && ValidOp(op)
    ensures RingOf(After(server, op), id)
         == DoAll(Capacity(id), RingOf(server, id), Effects(Published(server, op), id))
  {
    hide RingOf, Effect;
    var msgs := Published(server, op);
    var acts := Effects(msgs, id);
    if msgs != [] {
      assert acts == [Effect(msgs[0], id)] && acts[..0] == [];
      match op
      case RecordNodeSample(node, sample, t, tp) => SampledRing(server, node, sample, t, tp, id);
      case RecordHardware(_, _, _, _, _) => HardwareRing(server, op, id);
      case RecordCheck(_, _, _, _, _, _, _) => RecordedRing(server, op, id);
      case _ => OthersRing(server, op, id);
    }
  }

  lemma HardwareRing(server: View, op: Op, id: RingId)
    requires ServerInv(server) && ValidOp(op) && op.RecordHardware?
    ensures RingOf(After(server, op), id)
         == Do(Capacity(id), RingOf(server, id), Effect(Published(server, op)[0], id))
  {
    hide Effect;
    var s1 := server.(hardware := server.hardware[op.node := op.data[T := Num(op.th)]]);
    assert RingOf(s1, id) == RingOf(server, id);
    SampledRing(s1, op.node, op.data, op.t, op.tp, id);
    assert Merged(s1, op.node, op.data, op.t) == Merged(server, op.node, op.data, op.t);
  }

  lemma SampledRing(server: View, node: string, sample: Record, t: real, tp: real, id: RingId)
    requires |HistoryOf(server.nodeHistory, node)| <= HISTORY_LEN
    requires forall n <- server.nodeMetrics :: Node !in server.nodeMetrics[n]
    requires Node !in sample
    ensures RingOf(Sampled(server, node, sample, t), id)
         == Do(Capacity(id), RingOf(server, id),
               Effect(NodeMetrics(tp, WithDefault(Node, Str(node), Merged(server, node, sample, t))), id))
  {
    SampleNames(server, node, sample, t);
    if id == NodeRing(node) {
      SampledNodeRing(server, node, sample, t);
    }
  }

  lemma SampledNodeRing(server: View, node: string, sample: Record, t: real)
    requires |HistoryOf(server.nodeHistory, node)| <= HISTORY_LEN
    requires Node !in Merged(server, node, sample, t)
    ensures
      var d := WithDefault(Node, Str(node), Merged(server, node, sample, t));
      RingOf(Sampled(server, node, sample, t), NodeRing(node))
      == Push(HISTORY_LEN, RingOf(server, NodeRing(node)), OfNode(PointOf(Null, d)))
  {
    var merged := Merged(server, node, sample, t);
    assert PointOf(Null, WithDefault(Node, Str(node), merged)) == PointOf(Null, merged);
  }

  lemma RecordedRing(server: View, op: Op, id: RingId)
    requires ServerInv(server) && op.RecordCheck?
    ensures RingOf(After(server, op), id)
         == Do(Capacity(id), RingOf(server, id), Effect(Published(server, op)[0], id))
  {
    RecordedServer(server, op, id);
    RecordedEffect(server, op, id);
  }

  lemma RingWithCheck(server: View, name: string, entry: CheckEntry, id: RingId)
    ensures RingOf(server.(healthchecks := server.healthchecks[name := entry]), id)
         == if id == CheckRing(name) then RecordSamples(entry.history) else RingOf(server, id)
  {
  }

  lemma RecordedServer(server: View, op: Op, id: RingId)
    requires op.RecordCheck? && |CheckHistory(server, op.name)| <= CHECK_HISTORY_LEN
    ensures RingOf(After(server, op), id)
         == if id == CheckRing(op.name)
            then Push(CHECK_HISTORY_LEN, RecordSamples(CheckHistory(server, op.name)), OfRecord(CheckResult(op)))
            else RingOf(server, id)
  {
    hide RingOf, RecordSamples, CheckResult;
    RingWithCheck(server, op.name, CheckEntryAfter(server, op), id);
    RecordSamplesPush(CHECK_HISTORY_LEN, CheckHistory(server, op.name), CheckResult(op));
  }

  lemma RecordedEffect(server: View, op: Op, id: RingId)
    requires op.RecordCheck?
    ensures Effect(Published(server, op)[0], id)
         == if id == CheckRing(op.name) then Append(OfRecord(CheckResult(op))) else Ignore
  {
    hide Effect, CheckMessage, CheckResult, Says;
    var uptimePct := CheckEntryAfter(server, op).uptimePct;
    var d := CheckMessage(op.name, op.config, CheckResult(op), uptimePct);
    CheckFields(op, uptimePct);
    SaidEffect(d, op, uptimePct, id);
    assert Published(server, op) == [Healthcheck(op.tp, d)];
  }

  lemma SaidEffect(d: Record, op: Op, uptimePct: Val, id: RingId)
    requires op.RecordCheck? && Says(d, op, uptimePct)
    ensures Effect(Healthcheck(op.tp, d), id)
         == if id == CheckRing(op.name) then Append(OfRecord(CheckResult(op))) else Ignore
  {
    assert ResultOf(op.tp, d) == CheckResult(op);
  }

  lemma OthersRing(server: View, op: Op, id: RingId)
    requires ServerInv(server) && Published(server, op) != []
    requires !op.RecordNodeSample? && !op.RecordHardware? && !op.RecordCheck?
    ensures RingOf(After(server, op), id)
         == Do(Capacity(id), RingOf(server, id), Effect(Published(server, op)[0], id))
  {
    if op.AddEvent? {
      RecordSamplesPush(EVENTS_LEN, server.events, op.obj);
      assert After(server, op) == server.(events := Push(EVENTS_LEN, server.events, op.obj));
      assert Published(server, op)[0] == EventAdded(op.tp, op.obj);
    } else if op.RemoveCheck? {
      assert After(server, op) == server.(healthchecks := server.healthchecks - {op.name});
      assert Published(server, op)[0] == HealthcheckDeleted(op.tp, map[Name := Str(op.name)]);
    }
  }

  // ---------------- healing over whole histories ----------------

  lemma EffectsAdd(a: seq<Msg>, b: seq<Msg>, id: RingId)
    ensures Effects(a + b, id) == Effects(a, id) + Effects(b, id)
  {
  }

  lemma {:induction false} ServerRings(v: View, ops: seq<Op>, id: RingId)
    requires ServerInv(v) && ValidOps(ops)
    ensures RingOf(RunOps(v, ops), id) == DoAll(Capacity(id), RingOf(v, id), Effects(Log(v, ops), id))
  {
    if ops != [] {
      var n := |ops| - 1;
      ServerRings(v, ops[..n], id);
      RunKeepsInv(v, ops[..n]);
      var server := RunOps(v, ops[..n]);
      var msgs := Published(server, ops[n]);
      ServerRing(server, ops[n], id);
      EffectsAdd(Log(v, ops[..n]), msgs, id);
      DoAllSplit(Capacity(id), RingOf(v, id), Effects(Log(v, ops[..n]), id), Effects(msgs, id));
    }
  }

  lemma {:induction false} ClientRings(c: View, msgs: seq<Msg>, id: RingId)
    requires |RingOf(c, id)| <= Capacity(id)
    ensures RingOf(ApplyAll(c, msgs), id) == DoAll(Capacity(id), RingOf(c, id), Effects(msgs, id))
    ensures |RingOf(ApplyAll(c, msgs), id)| <= Capacity(id)
  {
    if msgs != [] {
      var n := |msgs| - 1;
      ClientRings(c, msgs[..n], id);
      ClientRing(ApplyAll(c, msgs[..n]), msgs[n], id);
      assert msgs == msgs[..n] + [msgs[n]];
      EffectsStep(Capacity(id), RingOf(c, id), msgs[..n], msgs[n], id);
    }
  }

  lemma {:induction false} KeptActs<T>(cap: nat, ring: seq<T>, acts: seq<Act<T>>, kept: seq<bool>)
    requires |kept| == |acts|
    requires forall i :: 0 <= i < |acts| && !kept[i] ==> acts[i] == Ignore
    ensures DoAll(cap, ring, Kept(acts, kept)) == DoAll(cap, ring, acts)
  {
    if acts != [] {
      var n := |acts| - 1;
      KeptActs(cap, ring, acts[..n], kept[..n]);
      var rest := Kept(acts[..n], kept[..n]);
      if kept[n] {
        assert (rest + [acts[n]])[..|rest|] == rest;
      } else {
        assert Kept(acts, kept) == rest;
      }
    }
  }

  lemma {:induction false} KeptOfEffects(log: seq<Msg>, kept: seq<bool>, id: RingId)
    requires |kept| == |log|
    ensures Effects(Kept(log, kept), id) == Kept(Effects(log, id), kept)
  {
    if log != [] {
      var n := |log| - 1;
      KeptOfEffects(log[..n], kept[..n], id);
      assert Effects(log, id)[..n] == Effects(log[..n], id);
    }
  }

  /** Messages that leave a ring alone can be left out. */
  lemma KeptEffects(cap: nat, ring: seq<Sample>, log: seq<Msg>, kept: seq<bool>, id: RingId)
    requires |kept| == |log|
    requires forall i :: 0 <= i < |log| && !kept[i] ==> Effect(log[i], id) == Ignore
    ensures DoAll(cap, ring, Effects(Kept(log, kept), id)) == DoAll(cap, ring, Effects(log, id))
  {
    KeptOfEffects(log, kept, id);
    KeptActs(cap, ring, Effects(log, id), kept);
  }

  lemma EffectsStep(cap: nat, ring: seq<Sample>, msgs: seq<Msg>, m: Msg, id: RingId)
    ensures DoAll(cap, ring, Effects(msgs + [m], id)) == Do(cap, DoAll(cap, ring, Effects(msgs, id)), Effect(m, id))
  {
    assert Effects(msgs + [m], id)[..|msgs|] == Effects(msgs, id);
  }

  /** Rings heal: once enough appends (or one reset) for a ring lie in a stretch of the log of
      which no message for that ring was dropped, both sides hold the same history, whatever
      was dropped before the stretch. */
  lemma RingHeals(v: View, ops: seq<Op>, kept: seq<bool>, id: RingId, from: nat)
    requires ServerInv(v) && ValidOps(ops)
    requires |kept| == |Log(v, ops)| && from <= |kept|
    requires forall i :: from <= i < |kept| && !kept[i] ==> Effect(Log(v, ops)[i], id) == Ignore
    requires var late := Effects(Log(v, ops)[from..], id);
             Appends(late) >= Capacity(id) || Reset in late
    ensures RingOf(ApplyAll(v, Kept(Log(v, ops), kept)), id) == RingOf(RunOps(v, ops), id)
  {
    var log, cap := Log(v, ops), Capacity(id);
    var early, late := log[..from], Effects(log[from..], id);
    LateClient(v, log, kept, id, from);
    LateServer(v, ops, id, from);
    var a := RingOf(ApplyAll(v, Kept(early, kept[..from])), id);
    var b := DoAll(cap, RingOf(v, id), Effects(early, id));
    Heal(cap, a, b, late);
  }

  lemma LateClient(v: View, log: seq<Msg>, kept: seq<bool>, id: RingId, from: nat)
    requires |kept| == |log| && from <= |kept|
    requires |RingOf(v, id)| <= Capacity(id)
    requires forall i :: from <= i < |kept| && !kept[i] ==> Effect(log[i], id) == Ignore
    ensures
      var client := ApplyAll(v, Kept(log[..from], kept[..from]));
      && |RingOf(client, id)| <= Capacity(id)
      && RingOf(ApplyAll(v, Kept(log, kept)), id) == DoAll(Capacity(id), RingOf(client, id), Effects(log[from..], id))
  {
    var early, late := log[..from], log[from..];
    assert log == early + late && kept == kept[..from] + kept[from..];
    KeptSplit(early, kept[..from], late, kept[from..]);
    ApplyAllSplit(v, Kept(early, kept[..from]), Kept(late, kept[from..]));
    var client := ApplyAll(v, Kept(early, kept[..from]));
    ClientRings(v, Kept(early, kept[..from]), id);
    ClientRings(client, Kept(late, kept[from..]), id);
    KeptEffects(Capacity(id), RingOf(client, id), late, kept[from..], id);
  }

  lemma LateServer(v: View, ops: seq<Op>, id: RingId, from: nat)
    requires ServerInv(v) && ValidOps(ops) && from <= |Log(v, ops)|
    ensures
      var log := Log(v, ops);
      RingOf(RunOps(v, ops), id)
      == DoAll(Capacity(id), DoAll(Capacity(id), RingOf(v, id), Effects(log[..from], id)), Effects(log[from..], id))
  {
    ServerRings(v, ops, id);
    EffectsSplit(Capacity(id), RingOf(v, id), Log(v, ops), id, from);
  }

  lemma EffectsSplit(cap: nat, ring: seq<Sample>, log: seq<Msg>, id: RingId, from: nat)
    requires from <= |log|
    ensures DoAll(cap, ring, Effects(log, id))
         == DoAll(cap, DoAll(cap, ring, Effects(log[..from], id)), Effects(log[from..], id))
  {
    assert log == log[..from] + log[from..];
    EffectsAdd(log[..from], log[from..], id);
    DoAllSplit(cap, ring, Effects(log[..from], id), Effects(log[from..], id));
  }
}
