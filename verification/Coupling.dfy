/** The browser's copy follows the server: one step, then whole histories of mutations. */
module Coupling {
  import opened Json
  import opened Ring
  import opened ServerState
  import opened ClientStore

  /** A time series with the times taken out. */
  function Untimed(h: seq<HistoryPoint>): (r: seq<HistoryPoint>)
    ensures |r| == |h|
    ensures forall i :: 0 <= i < |h| ==> r[i] == h[i].(t := Null)
  {
    seq(|h|, i requires 0 <= i < |h| => h[i].(t := Null))
  }

  /** Equal keys, and equal records apart from field `f`. */
  ghost predicate SameBut(f: Field, a: map<string, Record>, b: map<string, Record>) {
    && a.Keys == b.Keys
    && forall k <- a :: a[k] - {f} == b[k] - {f}
  }

  ghost predicate SameHistories(a: map<string, seq<HistoryPoint>>, b: map<string, seq<HistoryPoint>>) {
    forall n: string :: Untimed(HistoryOf(a, n)) == Untimed(HistoryOf(b, n))
  }

  /** The hardware fields that metrics-server samples never write, where the server has them. */
  ghost predicate SameHardware(server: map<string, Record>, client: map<string, Record>) {
    forall n <- server :: n in client && HardwareKept(server[n], client[n])
  }

  /** The client's snapshot shows the server's state. */
  ghost predicate Agrees(server: View, client: View) {
    && client.startedAt == server.startedAt
    && client.demoMode == server.demoMode
    && client.objects == server.objects
    && client.events == server.events
    && SameBut(Node, server.nodeMetrics, client.nodeMetrics)
    && SameBut(Key, server.podMetrics, client.podMetrics)
    && SameHardware(server.hardware, client.hardware)
    && SameHistories(server.nodeHistory, client.nodeHistory)
    && client.sections == server.sections
    && client.healthchecks == server.healthchecks
  }

  lemma UntimedPush(cap: nat, s: seq<HistoryPoint>, p: HistoryPoint)
    ensures Untimed(Push(cap, s, p)) == Push(cap, Untimed(s), p.(t := Null))
  {
  }

  /** The central step: a mutation and the delta it publishes keep the two sides together. */
  lemma StepAgrees(server: View, client: View, op: Op)
    requires ServerInv(server) && ValidOp(op)
    requires Agrees(server, client)
    ensures Agrees(After(server, op), ApplyAll(client, Published(server, op)))
  {
    hide Agrees, ServerInv;
    var msgs := Published(server, op);
    if msgs != [] {
      assert msgs == [msgs[0]];
      match op
      case UpsertObject(_, _, _, _) => UpsertAgrees(server, client, op);
      case RecordNodeSample(node, sample, t, tp) => SampleAgrees(server, client, node, sample, t, tp);
      case RecordHardware(_, _, _, _, _) => HardwareAgrees(server, client, op);
      case RecordPodSample(_, _, _, _) => PodSampleAgrees(server, client, op);
      case RecordCheck(_, _, _, _, _, _, _) => CheckAgrees(server, client, op);
      case RemoveObject(_, _, _) => RemoveAgrees(server, client, op);
      case _ => OthersAgree(server, client, op);
    }
  }

  lemma UpsertAgrees(server: View, client: View, op: Op)
    requires Agrees(server, client) && ValidOp(op) && op.UpsertObject?
    ensures Agrees(After(server, op), ApplyDelta(client, Published(server, op)[0]))
  {
    var s' := After(server, op);
    forall n: string ensures Untimed(HistoryOf(s'.nodeHistory, n)) == Untimed(HistoryOf(client.nodeHistory, n)) {
      assert HistoryOf(s'.nodeHistory, n) == HistoryOf(server.nodeHistory, n);
    }
  }

  lemma SampleAgrees(server: View, client: View, node: string, sample: Record, t: real, tp: real)
    requires ServerInv(server) && Agrees(server, client)
    requires sample.Keys <= METRICS_SERVER_FIELDS
    ensures Agrees(Sampled(server, node, sample, t),
                   ApplyDelta(client, NodeMetrics(tp, WithDefault(Node, Str(node), Merged(server, node, sample, t)))))
  {
    hide SameBut, SameHistories, SameHardware, HardwareKept;
    var merged := Merged(server, node, sample, t);
    var d := WithDefault(Node, Str(node), merged);
    SampleSeries(server, client, node, merged, t, tp);
    SampleMetrics(server, client, node, sample, t);
    MetricsKeepHardware(server, node, sample, t);
    HardwareUpdate(server.hardware, client.hardware, node, d);
  }

  lemma HardwareAgrees(server: View, client: View, op: Op)
    requires ServerInv(server) && ValidOp(op) && op.RecordHardware?
    requires Agrees(server, client)
    ensures Agrees(After(server, op), ApplyDelta(client, Published(server, op)[0]))
  {
    hide SameBut, SameHistories, SameHardware, HardwareKept;
    var merged := Merged(server, op.node, op.data, op.t);
    var d := WithDefault(Node, Str(op.node), merged);
    var hw := op.data[T := Num(op.th)];
    SampleSeries(server, client, op.node, merged, op.t, op.tp);
    SampleMetrics(server, client, op.node, op.data, op.t);
    HardwareReplaced(server.hardware, client.hardware, op.node, hw, d);
  }

  lemma HardwareReplaced(server: map<string, Record>, client: map<string, Record>, node: string, hw: Record, d: Record)
    requires SameHardware(server, client) && HardwareKept(hw, d)
    ensures SameHardware(server[node := hw], client[node := RecordOf(client, node) + d])
  {
  }

  lemma HardwareUpdate(server: map<string, Record>, client: map<string, Record>, node: string, d: Record)
    requires SameHardware(server, client)
    requires node in server ==> HardwareKept(server[node], d)
    ensures SameHardware(server, client[node := RecordOf(client, node) + d])
  {
  }

  /** A metrics-server sample leaves the hardware fields of the latest values alone. */
  lemma MetricsKeepHardware(server: View, node: string, sample: Record, t: real)
    requires ServerInv(server) && sample.Keys <= METRICS_SERVER_FIELDS
    ensures node in server.hardware ==>
      HardwareKept(server.hardware[node], WithDefault(Node, Str(node), Merged(server, node, sample, t)))
  {
    if node in server.hardware {
      assert HardwareKept(server.hardware[node], RecordOf(server.nodeMetrics, node));
    }
  }

  lemma SampleSeries(server: View, client: View, node: string, merged: Record, t: real, tp: real)
    requires SameHistories(server.nodeHistory, client.nodeHistory)
    requires |HistoryOf(server.nodeHistory, node)| <= HISTORY_LEN
    ensures SameHistories(
      server.nodeHistory[node := Push(HISTORY_LEN, HistoryOf(server.nodeHistory, node), PointOf(Num(t), merged))],
      client.nodeHistory[node := Last(CLIENT_HISTORY_LEN - 1, HistoryOf(client.nodeHistory, node))
                                 + [ChartPoint(tp, WithDefault(Node, Str(node), merged))]])
  {
    var h1, h2 := HistoryOf(server.nodeHistory, node), HistoryOf(client.nodeHistory, node);
    var p1, p2 := PointOf(Num(t), merged), PointOf(Num(tp), WithDefault(Node, Str(node), merged));
    SamePoint(tp, WithDefault(Node, Str(node), merged));
    assert Untimed(h1) == Untimed(h2);
    assert |h1| == |Untimed(h1)| == |h2|;
    SliceIsPush(HISTORY_LEN, h2, p2);
    UntimedPush(HISTORY_LEN, h1, p1);
    UntimedPush(HISTORY_LEN, h2, p2);
    SeriesUpdate(server.nodeHistory, client.nodeHistory, node, Push(HISTORY_LEN, h1, p1), Push(HISTORY_LEN, h2, p2));
  }

  lemma SeriesUpdate(a: map<string, seq<HistoryPoint>>, b: map<string, seq<HistoryPoint>>, node: string,
                     ha: seq<HistoryPoint>, hb: seq<HistoryPoint>)
    requires SameHistories(a, b) && Untimed(ha) == Untimed(hb)
    ensures SameHistories(a[node := ha], b[node := hb])
  {
    var a', b' := a[node := ha], b[node := hb];
    forall n: string ensures Untimed(HistoryOf(a', n)) == Untimed(HistoryOf(b', n)) {
      assert Untimed(HistoryOf(a, n)) == Untimed(HistoryOf(b, n));
    }
  }

  lemma SampleMetrics(server: View, client: View, node: string, sample: Record, t: real)
    requires ServerInv(server) && SameBut(Node, server.nodeMetrics, client.nodeMetrics)
    requires Node !in sample
    ensures
      var merged := Merged(server, node, sample, t);
      SameBut(Node, server.nodeMetrics[node := merged],
              client.nodeMetrics[node := RecordOf(client.nodeMetrics, node) + WithDefault(Node, Str(node), merged)])
    ensures PropertyName(Get(WithDefault(Node, Str(node), Merged(server, node, sample, t)), Node)) == node
  {
    var merged := Merged(server, node, sample, t);
    assert Node !in merged;
    var held := RecordOf(client.nodeMetrics, node);
    assert held - {Node} == RecordOf(server.nodeMetrics, node) - {Node};
    forall f <- held.Keys - {Node} ensures f in merged {
      assert f in held - {Node};
    }
    MergeCovers(held, merged, Str(node));
  }

  /** The message carries every field the client can hold for the node, so merging it is
      replacing by it. */
  lemma MergeCovers(held: Record, merged: Record, node: Val)
    requires Node !in merged && held.Keys - {Node} <= merged.Keys
    ensures (held + WithDefault(Node, node, merged)) - {Node} == merged - {Node}
  {
  }

  /** What a browser draws for a sample, whatever it held before: its newest point has the nine
      latest values of the server, at the time of the message. */
  lemma BrowserCharts(server: View, client: View, op: Op)
    requires ServerInv(server) && ValidOp(op) && (op.RecordNodeSample? || op.RecordHardware?)
    ensures Published(server, op) != []
    ensures
      var hist := HistoryOf(ApplyDelta(client, Published(server, op)[0]).nodeHistory, op.node);
      && hist != [] && hist[..|hist| - 1] == Last(CLIENT_HISTORY_LEN - 1, HistoryOf(client.nodeHistory, op.node))
      && hist[|hist| - 1].t == Num(op.tp)
      && Charts(hist[|hist| - 1], RecordOf(After(server, op).nodeMetrics, op.node))
  {
    var merged := RecordOf(After(server, op).nodeMetrics, op.node);
    var d := WithDefault(Node, Str(op.node), merged);
    hide After, Published, Charts, ChartPoint, ServerInv, ApplyDelta;
    SampleMessage(server, op, merged);
    SampleArrives(client, op.tp, op.node, d);
    DrawnPoint(op.tp, op.node, merged);
  }

  lemma SampleArrives(client: View, t: real, node: string, d: Record)
    requires Get(d, Node) == Str(node)
    ensures ApplyDelta(client, NodeMetrics(t, d)).nodeHistory == client.nodeHistory[node :=
              Last(CLIENT_HISTORY_LEN - 1, HistoryOf(client.nodeHistory, node)) + [ChartPoint(t, d)]]
  {
  }

  lemma SampleMessage(server: View, op: Op, merged: Record)
    requires ServerInv(server) && ValidOp(op) && (op.RecordNodeSample? || op.RecordHardware?)
    requires merged == RecordOf(After(server, op).nodeMetrics, op.node)
    ensures Published(server, op) == [NodeMetrics(op.tp, WithDefault(Node, Str(op.node), merged))]
    ensures Get(WithDefault(Node, Str(op.node), merged), Node) == Str(op.node)
    ensures Get(merged, T) == Num(op.t)
  {
    hide PointOf;
    SampledParts(server, op, Merged(server, op.node, if op.RecordHardware? then op.data else op.sample, op.t));
  }

  lemma DrawnPoint(t: real, node: string, merged: Record)
    ensures Charts(ChartPoint(t, WithDefault(Node, Str(node), merged)), merged)
    ensures ChartPoint(t, WithDefault(Node, Str(node), merged)).t == Num(t)
  {
  }

  lemma PodSampleAgrees(server: View, client: View, op: Op)
    requires Agrees(server, client) && ValidOp(op) && op.RecordPodSample?
    ensures Agrees(After(server, op), ApplyDelta(client, Published(server, op)[0]))
  {
    var rec := op.sample[T := Num(op.t)];
    assert WithDefault(Key, Str(op.key), rec) - {Key} == rec - {Key};
  }

  lemma CheckAgrees(server: View, client: View, op: Op)
    requires ServerInv(server) && op.RecordCheck?
    requires Agrees(server, client)
    ensures Agrees(After(server, op), ApplyDelta(client, Published(server, op)[0]))
  {
    hide SameBut, SameHistories, SameHardware, CheckEntryAfter;
    CheckEntryAgrees(server, client, op);
    CheckHeadline(server, client, op);
    var s', c' := After(server, op), ApplyDelta(client, Published(server, op)[0]);
    assert c'.healthchecks == s'.healthchecks;
    assert s' == server.(healthchecks := s'.healthchecks);
    assert c' == client.(healthchecks := c'.healthchecks);
  }

  /** The client computes the server's entry from the message alone, given the same history. */
  lemma CheckEntryAgrees(server: View, client: View, op: Op)
    requires op.RecordCheck?
    requires CheckHistory(server, op.name) == CheckHistory(client, op.name)
    requires |CheckHistory(server, op.name)| <= CHECK_HISTORY_LEN
    ensures CheckAfter(client, op.tp, Published(server, op)[0].data) == CheckEntryAfter(server, op)
  {
    CheckHeadline(server, client, op);
    SliceIsPush(CHECK_HISTORY_LEN, CheckHistory(client, op.name), CheckResult(op));
  }

  /** Whatever the client held, a result message gives it the server's configuration, latest
      result and uptime, and appends that result. */
  lemma CheckHeadline(server: View, client: View, op: Op)
    requires op.RecordCheck?
    ensures
      var d := Published(server, op)[0].data;
      var e := CheckAfter(client, op.tp, d);
      && PropertyName(Get(d, Name)) == op.name
      && e.(history := []) == CheckEntryAfter(server, op).(history := [])
      && e.history == Last(CHECK_HISTORY_LEN - 1, CheckHistory(client, op.name)) + [CheckResult(op)]
  {
    var uptimePct := CheckEntryAfter(server, op).uptimePct;
    assert Published(server, op)[0].data == CheckMessage(op.name, op.config, CheckResult(op), uptimePct);
    CheckFields(op, uptimePct);
  }

  /** What a result message says. */
  ghost predicate Says(d: Record, op: Op, uptimePct: Val)
    requires op.RecordCheck?
  {
    && Get(d, Name) == Str(op.name) && Get(d, Config) == Dict(op.config) && Get(d, Field.UptimePct) == uptimePct
    && Get(d, T) == Num(op.t) && Get(d, Ok) == Bool(op.ok) && Get(d, Ms) == op.ms && Get(d, Detail) == Str(op.detail)
  }

  lemma CheckFields(op: Op, uptimePct: Val)
    requires op.RecordCheck?
    ensures Says(CheckMessage(op.name, op.config, CheckResult(op), uptimePct), op, uptimePct)
  {
  }

  lemma RemoveAgrees(server: View, client: View, op: Op)
    requires Agrees(server, client) && op.RemoveObject?
    ensures Agrees(After(server, op), ApplyDelta(client, Published(server, op)[0]))
  {
    hide SameHistories, SameHardware, ChartPoint, PointOf, CheckAfter, CheckEntryAfter;
    var d := Published(server, op)[0].data;
    assert Get(d, KeyField(op.kind)) == Str(op.key);
    assert ObjectKey(op.kind, d) == op.key;
  }

  lemma OthersAgree(server: View, client: View, op: Op)
    requires ServerInv(server) && Agrees(server, client)
    requires op.AddEvent? || op.SetSection? || op.RemoveCheck?
    requires Published(server, op) != []
    ensures Agrees(After(server, op), ApplyDelta(client, Published(server, op)[0]))
  {
    hide SameBut, SameHistories, SameHardware, ChartPoint, PointOf, CheckAfter, CheckEntryAfter;
  }

  // ---------------- whole histories ----------------

  function RunOps(v: View, ops: seq<Op>): View {
    if ops == [] then v
    else After(RunOps(v, ops[..|ops| - 1]), ops[|ops| - 1])
  }

  /** Everything the mutations publish, in order. */
  function Log(v: View, ops: seq<Op>): seq<Msg> {
    if ops == [] then []
    else Log(v, ops[..|ops| - 1]) + Published(RunOps(v, ops[..|ops| - 1]), ops[|ops| - 1])
  }

  ghost predicate ValidOps(ops: seq<Op>) {
    forall op <- ops :: ValidOp(op)
  }

  lemma {:induction false} RunKeepsInv(v: View, ops: seq<Op>)
    requires ServerInv(v) && ValidOps(ops)
    ensures ServerInv(RunOps(v, ops))
  {
    if ops != [] {
      var n := |ops| - 1;
      RunKeepsInv(v, ops[..n]);
      AfterKeepsInv(RunOps(v, ops[..n]), ops[n]);
    }
  }

  /** A client that starts from a snapshot and gets every delta agrees with the server. */
  lemma {:induction false} ReplayAgrees(v: View, ops: seq<Op>)
    requires ServerInv(v) && ValidOps(ops)
    ensures Agrees(RunOps(v, ops), ApplyAll(v, Log(v, ops)))
  {
    if ops != [] {
      var n := |ops| - 1;
      ReplayAgrees(v, ops[..n]);
      RunKeepsInv(v, ops[..n]);
      var server := RunOps(v, ops[..n]);
      StepAgrees(server, ApplyAll(v, Log(v, ops[..n])), ops[n]);
      ApplyAllSplit(v, Log(v, ops[..n]), Published(server, ops[n]));
    }
  }
}
