/** The backend's in-memory cluster state (backend/app/state.py): what every mutation does
    to the state and which delta it publishes, first as functions on values, then as the
    class whose methods update dictionaries, ring buffers and subscriber queues in place. */
module ServerState {
  import opened Basics
  import opened Json
  import opened Ring
  import opened Rounding

  const HISTORY_LEN: nat := 1080
  const EVENTS_LEN: nat := 200
  const CHECK_HISTORY_LEN: nat := 500
  const QUEUE_LEN: nat := 512

  /** The fields that the metrics-server collector samples (backend/app/collectors/metrics.py). */
  const METRICS_SERVER_FIELDS: set<Field> := {Field.CpuPct, Field.MemPct, CpuCores, MemBytes}

  /** The collections with one upsert and one delete message each. */
  datatype Kind =
    | Nodes | Pods | Deployments | StatefulSets | DaemonSets | Services | Hpas
    | NetworkPolicies | Secrets | ConfigMaps | OrphanedPvs

  /** The collections that every poll replaces as a whole. */
  datatype Section =
    | FluxKustomizations | FluxGitRepositories | FluxImagePolicies | FluxImageAutomations
    | Pvcs | Gateways | HttpRoutes | RateLimitPolicies

  /** Nodes are keyed by "name", all other objects by "key". */
  function KeyField(kind: Kind): Field {
    if kind.Nodes? then Name else Key
  }

  /** One entry of a node's time series: the time and the nine chartable fields
      (NODE_HISTORY_FIELDS), null where a sample has none. */
  datatype HistoryPoint = HistoryPoint(
    t: Val, cpuPct: Val, memPct: Val, tempC: Val,
    nvmeReadBytesPerS: Val, nvmeWriteBytesPerS: Val,
    sdReadBytesPerS: Val, sdWriteBytesPerS: Val,
    netRxBytesPerS: Val, netTxBytesPerS: Val
  )

  datatype CheckEntry = CheckEntry(config: Val, last: Val, uptimePct: Val, history: seq<Record>)

  /** The content of `snapshot()`, which is also what a browser holds. The eleven keyed
      dictionaries are one map from (kind, key). */
  datatype View = View(
    startedAt: Val,
    demoMode: Val,
    objects: map<(Kind, string), Record>,
    events: seq<Record>,
    nodeMetrics: map<string, Record>,
    hardware: map<string, Record>,
    podMetrics: map<string, Record>,
    nodeHistory: map<string, seq<HistoryPoint>>,
    sections: map<Section, map<string, Record>>,
    healthchecks: map<string, CheckEntry>
  )

  /** The deltas on the wire; the constructor stands for the message's "type". */
  datatype Msg =
    | ObjectUpserted(kind: Kind, t: real, data: Record)
    | ObjectDeleted(kind: Kind, t: real, data: Record)
    | EventAdded(t: real, data: Record)
    | NodeMetrics(t: real, data: Record)
    | PodMetrics(t: real, data: Record)
    | SectionReplaced(section: Section, t: real, items: map<string, Record>)
    | Healthcheck(t: real, data: Record)
    | HealthcheckDeleted(t: real, data: Record)

  /** The mutations; `t` and `tp` are the clock readings in the mutation and in `publish`. */
  datatype Op =
    | UpsertObject(kind: Kind, key: string, obj: Record, tp: real)
    | RemoveObject(kind: Kind, key: string, tp: real)
    | AddEvent(obj: Record, tp: real)
    | RecordNodeSample(node: string, sample: Record, t: real, tp: real)
    | RecordPodSample(key: string, sample: Record, t: real, tp: real)
    | RecordHardware(node: string, data: Record, th: real, t: real, tp: real)
    | SetSection(section: Section, items: map<string, Record>, tp: real)
    | RecordCheck(name: string, config: Record, ok: bool, ms: Val, detail: string, t: real, tp: real)
    | RemoveCheck(name: string, tp: real)

  /** What the collectors guarantee about their arguments: an object carries its own key (as
      `_apply` passes it), the hardware collector has popped "node" from its samples, pod
      samples have no "key", and the metrics collector writes its four fields. */
  ghost predicate ValidOp(op: Op) {
    match op
    case UpsertObject(kind, key, obj, _) => Get(obj, KeyField(kind)) == Str(key)
    case RecordNodeSample(_, sample, _, _) => sample.Keys <= METRICS_SERVER_FIELDS
    case RecordPodSample(_, sample, _, _) => Key !in sample
    case RecordHardware(_, data, _, _, _) => Node !in data
    case _ => true
  }

  function HistoryOf(m: map<string, seq<HistoryPoint>>, node: string): seq<HistoryPoint> {
    if node in m then m[node] else []
  }

  function RecordOf(m: map<string, Record>, k: string): Record {
    if k in m then m[k] else map[]
  }

  function PointOf(t: Val, d: Record): HistoryPoint {
    HistoryPoint(t, Get(d, Field.CpuPct), Get(d, Field.MemPct), Get(d, Field.TempC),
                 Get(d, NvmeReadBytesPerS), Get(d, NvmeWriteBytesPerS),
                 Get(d, SdReadBytesPerS), Get(d, SdWriteBytesPerS),
                 Get(d, NetRxBytesPerS), Get(d, NetTxBytesPerS))
  }

  /** The nine chart values of a point are a record's. */
  ghost predicate Charts(p: HistoryPoint, d: Record) {
    && p.cpuPct == Get(d, Field.CpuPct)
    && p.memPct == Get(d, Field.MemPct)
    && p.tempC == Get(d, Field.TempC)
    && p.nvmeReadBytesPerS == Get(d, NvmeReadBytesPerS)
    && p.nvmeWriteBytesPerS == Get(d, NvmeWriteBytesPerS)
    && p.sdReadBytesPerS == Get(d, SdReadBytesPerS)
    && p.sdWriteBytesPerS == Get(d, SdWriteBytesPerS)
    && p.netRxBytesPerS == Get(d, NetRxBytesPerS)
    && p.netTxBytesPerS == Get(d, NetTxBytesPerS)
  }

  function Merged(v: View, node: string, sample: Record, t: real): Record {
    (RecordOf(v.nodeMetrics, node) + sample)[T := Num(t)]
  }

  function CheckResult(op: Op): Record
    requires op.RecordCheck?
  {
    map[T := Num(op.t), Ok := Bool(op.ok), Ms := op.ms, Detail := Str(op.detail)]
  }

  /** `{"name": name, "config": config, **result, "uptime_pct": uptime_pct}`. */
  function CheckMessage(name: string, config: Record, result: Record, uptimePct: Val): Record {
    WithDefault(Name, Str(name), WithDefault(Config, Dict(config), result))[Field.UptimePct := uptimePct]
  }

  function UpCount(history: seq<Record>): (n: nat)
    ensures n <= |history|
  {
    if history == [] then 0
    else
      UpCount(history[..|history| - 1]) +
      (if Get(history[|history| - 1], Ok) == Bool(true) then 1 else 0)
  }

  function UptimePct(history: seq<Record>): real
    requires history != []
  {
    Round(Share(UpCount(history), |history|)) as real / 100.0
  }

  lemma {:induction false} UpCountExtremes(history: seq<Record>)
    ensures UpCount(history) == |history| <==> forall r <- history :: Get(r, Ok) == Bool(true)
    ensures UpCount(history) == 0 <==> forall r <- history :: Get(r, Ok) != Bool(true)
  {
    if history != [] {
      UpCountExtremes(history[..|history| - 1]);
      SplitLast(history);
    }
  }

  lemma QuotientBounds(a: real, n: real, low: real, high: real)
    requires 0.0 < n && low * n <= a <= high * n
    ensures low <= a / n <= high
  {
    var q := a / n;
    assert q * n == a;
    assert q < low ==> (low - q) * n > 0.0;
    assert q > high ==> (q - high) * n > 0.0;
  }

  /** Hundredths of a percent of `up` in `n`. */
  function Share(up: nat, n: nat): real
    requires 0 < n
  {
    10000.0 * up as real / n as real
  }

  lemma ShareBounds(up: nat, n: nat)
    requires up <= n && 0 < n <= CHECK_HISTORY_LEN
    ensures 0.0 <= Share(up, n) <= 10000.0
    ensures if up == n then Share(up, n) == 10000.0 else Share(up, n) <= 9980.0
    ensures if up == 0 then Share(up, n) == 0.0 else Share(up, n) >= 20.0
  {
    var low := if up == n then 10000.0 else if up == 0 then 0.0 else 20.0;
    var high := if up == 0 then 0.0 else if up == n then 10000.0 else 9980.0;
    QuotientBounds(10000.0 * up as real, n as real, low, high);
  }

  lemma RoundedShare(x: real)
    requires 0.0 <= x <= 10000.0
    ensures 0 <= Round(x) <= 10000
    ensures -0.005 <= Round(x) as real / 100.0 - x / 100.0 <= 0.005
    ensures x <= 9980.0 ==> Round(x) <= 9980
    ensures x >= 20.0 ==> Round(x) >= 20
    ensures x == 0.0 ==> Round(x) == 0
    ensures x == 10000.0 ==> Round(x) == 10000
  {
  }

  /** The good results of a history. */
  ghost function Good(history: seq<Record>): set<nat> {
    set i: nat | i < |history| && Get(history[i], Ok) == Bool(true)
  }

  lemma {:induction false} UpCountIsGood(history: seq<Record>)
    ensures UpCount(history) == |Good(history)|
  {
    if history != [] {
      var n := |history| - 1;
      UpCountIsGood(history[..n]);
      assert Good(history) == Good(history[..n]) + if Get(history[n], Ok) == Bool(true) then {n} else {};
    }
  }

  /** The uptime is the share of good results in percent, rounded to two decimals with ties to
      even; a history never being longer than 500, rounding cannot hide a single failure, nor a
      single success. */
  lemma UptimeIsShare(history: seq<Record>)
    requires 0 < |history| <= CHECK_HISTORY_LEN
    ensures
      var hundredths := (100.0 * UptimePct(history)).Floor;
      && UptimePct(history) == hundredths as real / 100.0
      && Nearest(hundredths, 10000 * |Good(history)|, |history|)
    ensures -0.005 <= UptimePct(history) - 100.0 * |Good(history)| as real / |history| as real <= 0.005
    ensures 0.0 <= UptimePct(history) <= 100.0
    ensures UptimePct(history) == 100.0 <==> forall r <- history :: Get(r, Ok) == Bool(true)
    ensures UptimePct(history) == 0.0 <==> forall r <- history :: Get(r, Ok) != Bool(true)
  {
    hide Round;
    UpCountExtremes(history);
    UpCountIsGood(history);
    var up, n := UpCount(history), |history|;
    assert Share(up, n) == (10000 * up) as real / n as real;
    RoundedQuotient(10000 * up, n);
    ShareBounds(up, n);
    RoundedShare(Share(up, n));
    HundredthPart(10000.0 * up as real, n as real);
  }

  lemma HundredthPart(x: real, n: real)
    requires 0.0 < n
    ensures x / n / 100.0 == x / 100.0 / n
  {
    var q := x / n;
    assert (q / 100.0) * n == x / 100.0;
  }

  function CheckHistory(v: View, name: string): seq<Record> {
    if name in v.healthchecks then v.healthchecks[name].history else []
  }

  function CheckEntryAfter(v: View, op: Op): CheckEntry
    requires op.RecordCheck?
  {
    var history := Push(CHECK_HISTORY_LEN, CheckHistory(v, op.name), CheckResult(op));
    CheckEntry(Dict(op.config), Dict(CheckResult(op)), Num(UptimePct(history)), history)
  }

  function Sampled(v: View, node: string, sample: Record, t: real): View {
    var merged := Merged(v, node, sample, t);
    v.(nodeMetrics := v.nodeMetrics[node := merged],
       nodeHistory := v.nodeHistory[node :=
         Push(HISTORY_LEN, HistoryOf(v.nodeHistory, node), PointOf(Num(t), merged))])
  }

  /** The state after a mutation. */
  function After(v: View, op: Op): View {
    match op
    case UpsertObject(kind, key, obj, _) =>
      v.(objects := v.objects[(kind, key) := obj],
         nodeHistory := if kind.Nodes? then v.nodeHistory[key := HistoryOf(v.nodeHistory, key)]
                        else v.nodeHistory)
    case RemoveObject(kind, key, _) =>
      v.(objects := v.objects - {(kind, key)},
         podMetrics := if kind.Pods? then v.podMetrics - {key} else v.podMetrics)
    case AddEvent(obj, _) => v.(events := Push(EVENTS_LEN, v.events, obj))
    case RecordNodeSample(node, sample, t, _) => Sampled(v, node, sample, t)
    case RecordPodSample(key, sample, t, _) =>
      v.(podMetrics := v.podMetrics[key := sample[T := Num(t)]])
    case RecordHardware(node, data, th, t, _) =>
      Sampled(v.(hardware := v.hardware[node := data[T := Num(th)]]), node, data, t)
    case SetSection(section, items, _) => v.(sections := v.sections[section := items])
    case RecordCheck(name, _, _, _, _, _, _) =>
      v.(healthchecks := v.healthchecks[name := CheckEntryAfter(v, op)])
    case RemoveCheck(name, _) => v.(healthchecks := v.healthchecks - {name})
  }

  /** The deltas a mutation publishes: one, or none for a check that is not there. */
  function Published(v: View, op: Op): (msgs: seq<Msg>)
    ensures |msgs| <= 1
    ensures msgs == [] ==> After(v, op) == v
  {
    match op
    case UpsertObject(kind, _, obj, tp) => [ObjectUpserted(kind, tp, obj)]
    case RemoveObject(kind, key, tp) => [ObjectDeleted(kind, tp, map[KeyField(kind) := Str(key)])]
    case AddEvent(obj, tp) => [EventAdded(tp, obj)]
    case RecordNodeSample(node, sample, t, tp) =>
      [NodeMetrics(tp, WithDefault(Node, Str(node), Merged(v, node, sample, t)))]
    case RecordPodSample(key, sample, t, tp) =>
      [PodMetrics(tp, WithDefault(Key, Str(key), sample[T := Num(t)]))]
    case RecordHardware(node, data, _, t, tp) =>
      [NodeMetrics(tp, WithDefault(Node, Str(node), Merged(v, node, data, t)))]
    case SetSection(section, items, tp) => [SectionReplaced(section, tp, items)]
    case RecordCheck(name, config, _, _, _, _, tp) =>
      [Healthcheck(tp, CheckMessage(name, config, CheckResult(op), CheckEntryAfter(v, op).uptimePct))]
    case RemoveCheck(name, tp) =>
      if name in v.healthchecks then [HealthcheckDeleted(tp, map[Name := Str(name)])]
      else assert v.healthchecks - {name} == v.healthchecks; []
  }

  /** What a sample leaves behind: the newest entry of the node's series is at the clock reading
      and has the nine latest values; a latest value is the sample's where it has one, otherwise
      the one before; older entries and other nodes are as they were. */
  lemma SampleIsCharted(v: View, op: Op)
    requires op.RecordNodeSample? || op.RecordHardware?
    ensures
      var hist, latest := HistoryOf(After(v, op).nodeHistory, op.node), RecordOf(After(v, op).nodeMetrics, op.node);
      && hist != [] && hist[..|hist| - 1] == Last(HISTORY_LEN - 1, HistoryOf(v.nodeHistory, op.node))
      && hist[|hist| - 1].t == Num(op.t) && Charts(hist[|hist| - 1], latest)
      && Latest(RecordOf(v.nodeMetrics, op.node), if op.RecordHardware? then op.data else op.sample, op.t, latest)
    ensures forall n: string :: n != op.node ==>
      && HistoryOf(After(v, op).nodeHistory, n) == HistoryOf(v.nodeHistory, n)
      && RecordOf(After(v, op).nodeMetrics, n) == RecordOf(v.nodeMetrics, n)
  {
    hide PointOf, Charts, Latest, After, Merged;
    var sample := if op.RecordHardware? then op.data else op.sample;
    var merged := Merged(v, op.node, sample, op.t);
    SampledParts(v, op, merged);
    LastOfAppend(HISTORY_LEN, HistoryOf(v.nodeHistory, op.node), PointOf(Num(op.t), merged));
    PointCharts(Num(op.t), merged);
    MergedIsLatest(v, op.node, sample, op.t);
  }

  lemma SampledParts(v: View, op: Op, merged: Record)
    requires op.RecordNodeSample? || op.RecordHardware?
    requires merged == Merged(v, op.node, if op.RecordHardware? then op.data else op.sample, op.t)
    ensures After(v, op).nodeMetrics == v.nodeMetrics[op.node := merged]
    ensures After(v, op).nodeHistory
         == v.nodeHistory[op.node := Push(HISTORY_LEN, HistoryOf(v.nodeHistory, op.node), PointOf(Num(op.t), merged))]
  {
  }

  lemma MergedIsLatest(v: View, node: string, sample: Record, t: real)
    ensures Latest(RecordOf(v.nodeMetrics, node), sample, t, Merged(v, node, sample, t))
  {
  }

  lemma PointCharts(t: Val, d: Record)
    ensures Charts(PointOf(t, d), d) && PointOf(t, d).t == t
  {
  }

  /** The latest values after a sample, field by field. */
  ghost predicate Latest(before: Record, sample: Record, t: real, after: Record) {
    forall f: Field ::
      Get(after, f) == if f == T then Num(t) else if f in sample then sample[f] else Get(before, f)
  }

  /** A recorded result becomes the check's latest and the newest of its history, next to the
      configuration it was probed with; other checks are as they were. */
  lemma ResultIsRecorded(v: View, op: Op)
    requires op.RecordCheck?
    ensures op.name in After(v, op).healthchecks
    ensures
      var e := After(v, op).healthchecks[op.name];
      && e.config == Dict(op.config) && e.last.Dict?
      && Get(e.last.fields, T) == Num(op.t) && Get(e.last.fields, Ok) == Bool(op.ok)
      && Get(e.last.fields, Ms) == op.ms && Get(e.last.fields, Detail) == Str(op.detail)
      && e.history == Last(CHECK_HISTORY_LEN - 1, CheckHistory(v, op.name)) + [e.last.fields]
      && e.uptimePct == Num(UptimePct(e.history))
    ensures forall name <- v.healthchecks | name != op.name ::
      name in After(v, op).healthchecks && After(v, op).healthchecks[name] == v.healthchecks[name]
  {
    LastOfAppend(CHECK_HISTORY_LEN, CheckHistory(v, op.name), CheckResult(op));
  }

  /** What putting one message does to a subscriber's queue: the oldest goes when it is full. */
  function Offer(q: seq<Msg>, m: Msg): (r: seq<Msg>)
    ensures |q| <= QUEUE_LEN ==> |r| <= QUEUE_LEN
  {
    if |q| < QUEUE_LEN then q + [m] else q[1..] + [m]
  }

  /** The queue after a mutation that published `ms`, at most one message. */
  function OfferAll(q: seq<Msg>, ms: seq<Msg>): (r: seq<Msg>)
    requires |ms| <= 1
    ensures |q| <= QUEUE_LEN ==> |r| <= QUEUE_LEN
  {
    if ms == [] then q else Offer(q, ms[0])
  }

  /** The queue after several messages, oldest first. */
  function OfferEach(q: seq<Msg>, ms: seq<Msg>): (r: seq<Msg>)
    ensures |q| <= QUEUE_LEN ==> r == Last(QUEUE_LEN, q + ms)
  {
    if ms == [] then
      assert q + ms == q;
      q
    else
      assert q + ms == q + ms[..|ms| - 1] + [ms[|ms| - 1]];
      Offer(OfferEach(q, ms[..|ms| - 1]), ms[|ms| - 1])
  }

  lemma {:induction false} OfferedMore(q: seq<Msg>, a: seq<Msg>, b: seq<Msg>)
    ensures OfferEach(q, a + b) == OfferEach(OfferEach(q, a), b)
    decreases |b|
  {
    if b == [] {
      assert a + b == a;
    } else {
      assert (a + b)[..|a + b| - 1] == a + b[..|b| - 1];
      OfferedMore(q, a, b[..|b| - 1]);
    }
  }

  lemma OfferedOnce(q: seq<Msg>, ms: seq<Msg>)
    requires |ms| <= 1
    ensures OfferEach(q, ms) == OfferAll(q, ms)
  {
    if ms != [] {
      assert ms[..0] == [];
    }
  }

  /** `asyncio.Queue(maxsize=512)`, without its waiting half. */
  class Queue {
    var items: seq<Msg>

    constructor ()
      ensures items == []
    {
      items := [];
    }

    /** `put_nowait`; `ok` is false where Python raises QueueFull. */
    method PutNowait(m: Msg) returns (ok: bool)
      modifies this
      ensures ok == (|old(items)| < QUEUE_LEN)
      ensures items == if ok then old(items) + [m] else old(items)
    {
      ok := |items| < QUEUE_LEN;
      if ok {
        items := items + [m];
      }
    }

    /** `get_nowait`; None where Python raises QueueEmpty. */
    method GetNowait() returns (m: seq<Msg>)
      modifies this
      ensures |m| == (if old(items) == [] then 0 else 1)
      ensures m == old(items)[..|m|]
      ensures items == old(items)[|m|..]
    {
      m := [];
      if items != [] {
        m := items[..1];
        items := items[1..];
      }
    }
  }

  class ClusterState {
    var startedAt: Val
    var demoMode: Val
    var objects: map<(Kind, string), Record>
    var events: seq<Record>
    var nodeMetrics: map<string, Record>
    var hardware: map<string, Record>
    var podMetrics: map<string, Record>
    var nodeHistory: map<string, seq<HistoryPoint>>
    var sections: map<Section, map<string, Record>>
    var healthchecks: map<string, CheckEntry>
    var subscribers: set<Queue>

    constructor (now: real)
      ensures Snapshot() == EmptyView(now) && ServerInv(Snapshot())
      ensures subscribers == {}
    {
      startedAt, demoMode := Num(now), Bool(false);
      objects, events := map[], [];
      nodeMetrics, hardware, podMetrics, nodeHistory := map[], map[], map[], map[];
      sections := EmptyView(now).sections;
      healthchecks := map[];
      subscribers := {};
      new;
      EmptyViewInv(now);
    }

    function Snapshot(): View
      reads this
    {
      View(startedAt, demoMode, objects, events, nodeMetrics, hardware, podMetrics,
           nodeHistory, sections, healthchecks)
    }

    method Subscribe() returns (q: Queue)
      modifies this`subscribers
      ensures fresh(q) && q.items == []
      ensures subscribers == old(subscribers) + {q}
    {
      q := new Queue();
      subscribers := subscribers + {q};
    }

    method Unsubscribe(q: Queue)
      modifies this`subscribers
      ensures subscribers == old(subscribers) - {q}
    {
      subscribers := subscribers - {q};
    }

    /** No queue is longer than its maxsize. */
    ghost predicate Valid()
      reads this, subscribers
    {
      forall q <- subscribers :: |q.items| <= QUEUE_LEN
    }

    /** Every subscriber gets the message, each according to its own queue alone. */
    method Publish(m: Msg)
      requires Valid()
      modifies subscribers
      ensures Valid()
      ensures forall q <- subscribers :: q.items == Offer(old(q.items), m)
    {
      var todo := subscribers;
      while todo != {}
        invariant todo <= subscribers
        invariant forall q <- subscribers - todo :: q.items == Offer(old(q.items), m)
        invariant forall q <- todo :: q.items == old(q.items)
        decreases |todo|
      {
        var q :| q in todo;
        var ok := q.PutNowait(m);
        if !ok {
          var dropped := q.GetNowait();
          ok := q.PutNowait(m);
        }
        todo := todo - {q};
      }
    }

    /** What each mutation below promises: the new state and every queue. */
    twostate predicate Performed(op: Op)
      reads this, subscribers
    {
      && subscribers == old(subscribers)
      && Snapshot() == After(old(Snapshot()), op)
      && forall q <- subscribers :: q.items == OfferAll(old(q.items), Published(old(Snapshot()), op))
    }

    method Upsert(kind: Kind, key: string, obj: Record, tp: real)
      requires Valid()
      modifies this, subscribers
      ensures Valid()
      ensures Performed(UpsertObject(kind, key, obj, tp))
    {
      objects := objects[(kind, key) := obj];
      if kind.Nodes? && key !in nodeHistory {
        nodeHistory := nodeHistory[key := []];
      }
      Publish(ObjectUpserted(kind, tp, obj));
    }

    method Remove(kind: Kind, key: string, tp: real)
      requires Valid()
      modifies this, subscribers
      ensures Valid()
      ensures Performed(RemoveObject(kind, key, tp))
    {
      objects := objects - {(kind, key)};
      if kind.Pods? {
        podMetrics := podMetrics - {key};
      }
      Publish(ObjectDeleted(kind, tp, map[KeyField(kind) := Str(key)]));
    }

    method AddEventObject(obj: Record, tp: real)
      requires Valid()
      modifies this, subscribers
      ensures Valid()
      ensures Performed(AddEvent(obj, tp))
    {
      events := Push(EVENTS_LEN, events, obj);
      Publish(EventAdded(tp, obj));
    }

    /** Merges a sample into the node's latest values and appends to its time series. */
    method MergeSample(node: string, sample: Record, t: real) returns (merged: Record)
      modifies this`nodeMetrics, this`nodeHistory
      ensures merged == Merged(old(Snapshot()), node, sample, t)
      ensures Snapshot() == Sampled(old(Snapshot()), node, sample, t)
    {
      var hist := HistoryOf(nodeHistory, node);
      merged := (RecordOf(nodeMetrics, node) + sample)[T := Num(t)];
      nodeMetrics := nodeMetrics[node := merged];
      nodeHistory := nodeHistory[node := Push(HISTORY_LEN, hist, PointOf(Num(t), merged))];
    }

    method RecordNode(node: string, sample: Record, t: real, tp: real)
      requires Valid()
      modifies this, subscribers
      ensures Valid()
      ensures Performed(RecordNodeSample(node, sample, t, tp))
    {
      var merged := MergeSample(node, sample, t);
      Publish(NodeMetrics(tp, WithDefault(Node, Str(node), merged)));
    }

    method RecordPod(key: string, sample: Record, t: real, tp: real)
      requires Valid()
      modifies this, subscribers
      ensures Valid()
      ensures Performed(RecordPodSample(key, sample, t, tp))
    {
      podMetrics := podMetrics[key := sample[T := Num(t)]];
      Publish(PodMetrics(tp, WithDefault(Key, Str(key), podMetrics[key])));
    }

    method RecordHardwareSample(node: string, data: Record, th: real, t: real, tp: real)
      requires Valid()
      modifies this, subscribers
      ensures Valid()
      ensures Performed(RecordHardware(node, data, th, t, tp))
    {
      hide PointOf, Offer, ServerInv;
      hardware := hardware[node := data[T := Num(th)]];
      ghost var kept := Snapshot();
      assert kept == old(Snapshot()).(hardware := old(hardware)[node := data[T := Num(th)]]);
      var merged := MergeSample(node, data, t);
      assert merged == Merged(old(Snapshot()), node, data, t);
      assert Snapshot() == After(old(Snapshot()), RecordHardware(node, data, th, t, tp));
      Publish(NodeMetrics(tp, WithDefault(Node, Str(node), merged)));
    }

    method ReplaceSection(section: Section, items: map<string, Record>, tp: real)
      requires Valid()
      modifies this, subscribers
      ensures Valid()
      ensures Performed(SetSection(section, items, tp))
    {
      sections := sections[section := items];
      Publish(SectionReplaced(section, tp, items));
    }

    /** `sum(1 for r in history if r["ok"])`. */
    static method CountUp(history: seq<Record>) returns (up: nat)
      ensures up == UpCount(history)
    {
      up := 0;
      for i := 0 to |history|
        invariant up == UpCount(history[..i])
      {
        assert history[..i + 1][..i] == history[..i];
        if Get(history[i], Ok) == Bool(true) {
          up := up + 1;
        }
      }
      assert history[..|history|] == history;
    }

    method RecordCheckResult(name: string, config: Record, ok: bool, ms: Val, detail: string, t: real, tp: real)
      requires Valid()
      modifies this, subscribers
      ensures Valid()
      ensures Performed(RecordCheck(name, config, ok, ms, detail, t, tp))
    {
      hide Offer, ServerInv;
      var entry := if name in healthchecks then healthchecks[name]
                   else CheckEntry(Dict(config), Null, Null, []);
      entry := entry.(config := Dict(config));
      var result: Record := map[T := Num(t), Ok := Bool(ok), Ms := ms, Detail := Str(detail)];
      entry := entry.(last := Dict(result));
      entry := entry.(history := Push(CHECK_HISTORY_LEN, entry.history, result));
      var up := CountUp(entry.history);
      entry := entry.(uptimePct := Num(Round(Share(up, |entry.history|)) as real / 100.0));
      assert entry == CheckEntryAfter(old(Snapshot()), RecordCheck(name, config, ok, ms, detail, t, tp));
      healthchecks := healthchecks[name := entry];
      Publish(Healthcheck(tp, CheckMessage(name, config, result, entry.uptimePct)));
    }

    method RemoveCheckEntry(name: string, tp: real)
      requires Valid()
      modifies this, subscribers
      ensures Valid()
      ensures Performed(RemoveCheck(name, tp))
    {
      if name in healthchecks {
        healthchecks := healthchecks - {name};
        Publish(HealthcheckDeleted(tp, map[Name := Str(name)]));
      } else {
        assert healthchecks - {name} == healthchecks;
      }
    }
  }

  function EmptyView(now: real): View {
    View(Num(now), Bool(false), map[], [], map[], map[], map[], map[],
         map[FluxKustomizations := map[], FluxGitRepositories := map[], FluxImagePolicies := map[],
             FluxImageAutomations := map[], Pvcs := map[], Gateways := map[], HttpRoutes := map[],
             RateLimitPolicies := map[]],
         map[])
  }

  /** What the server itself keeps true. */
  ghost predicate ServerInv(v: View) {
    && |v.events| <= EVENTS_LEN
    && (forall n <- v.nodeHistory :: |v.nodeHistory[n]| <= HISTORY_LEN)
    && (forall c <- v.healthchecks :: |v.healthchecks[c].history| <= CHECK_HISTORY_LEN)
    && (forall n <- v.nodeMetrics :: Node !in v.nodeMetrics[n])
    && (forall n <- v.hardware :: HardwareKept(v.hardware[n], RecordOf(v.nodeMetrics, n)))
  }

  /** Every hardware field is there, and those that metrics-server samples never overwrite have
      the hardware record's value. */
  ghost predicate HardwareKept(hw: Record, d: Record) {
    forall f <- hw :: f in d && (f !in METRICS_SERVER_FIELDS && f != T ==> d[f] == hw[f])
  }

  lemma EmptyViewInv(now: real)
    ensures ServerInv(EmptyView(now))
  {
  }

  lemma AfterKeepsInv(v: View, op: Op)
    requires ServerInv(v) && ValidOp(op)
    ensures ServerInv(After(v, op))
  {
    match op
    case RecordNodeSample(node, sample, t, _) => SampledKeepsInv(v, node, sample, t);
    case RecordHardware(node, data, th, t, tp) => HardwareKeepsInv(v, op);
    case RecordCheck(_, _, _, _, _, _, _) => CheckKeepsInv(v, op);
    case _ => OthersKeepInv(v, op);
  }

  lemma SampledKeepsInv(v: View, node: string, sample: Record, t: real)
    requires ServerInv(v) && sample.Keys <= METRICS_SERVER_FIELDS
    ensures ServerInv(Sampled(v, node, sample, t))
  {
    hide HardwareKept;
    var w := Sampled(v, node, sample, t);
    assert Node !in Merged(v, node, sample, t);
    forall n <- w.hardware ensures HardwareKept(w.hardware[n], RecordOf(w.nodeMetrics, n)) {
      SampledKeepsHardware(v, node, sample, t, n);
    }
  }

  lemma SampledKeepsHardware(v: View, node: string, sample: Record, t: real, n: string)
    requires n in v.hardware && HardwareKept(v.hardware[n], RecordOf(v.nodeMetrics, n))
    requires sample.Keys <= METRICS_SERVER_FIELDS
    ensures HardwareKept(v.hardware[n], RecordOf(Sampled(v, node, sample, t).nodeMetrics, n))
  {
  }

  lemma HardwareKeepsInv(v: View, op: Op)
    requires ServerInv(v) && ValidOp(op) && op.RecordHardware?
    ensures ServerInv(After(v, op))
  {
    var w := After(v, op);
    assert Node !in Merged(v, op.node, op.data, op.t);
    forall n <- w.hardware ensures HardwareKept(w.hardware[n], RecordOf(w.nodeMetrics, n)) {
      if n != op.node {
        assert HardwareKept(v.hardware[n], RecordOf(v.nodeMetrics, n));
      }
    }
  }

  lemma CheckKeepsInv(v: View, op: Op)
    requires ServerInv(v) && op.RecordCheck?
    ensures ServerInv(After(v, op))
  {
    var w := After(v, op);
    forall c <- w.healthchecks ensures |w.healthchecks[c].history| <= CHECK_HISTORY_LEN {
    }
    assert w.hardware == v.hardware && w.nodeMetrics == v.nodeMetrics;
  }

  lemma OthersKeepInv(v: View, op: Op)
    requires ServerInv(v)
    requires !op.RecordNodeSample? && !op.RecordHardware? && !op.RecordCheck?
    ensures ServerInv(After(v, op))
  {
    OthersFrame(v, op);
    var w := After(v, op);
    forall n <- w.nodeHistory ensures |w.nodeHistory[n]| <= HISTORY_LEN {
      assert n in v.nodeHistory || w.nodeHistory[n] == [];
    }
  }

  lemma OthersFrame(v: View, op: Op)
    requires !op.RecordNodeSample? && !op.RecordHardware? && !op.RecordCheck?
    ensures After(v, op).nodeMetrics == v.nodeMetrics
    ensures After(v, op).hardware == v.hardware
    ensures After(v, op).healthchecks.Keys <= v.healthchecks.Keys
    ensures forall c <- After(v, op).healthchecks :: After(v, op).healthchecks[c] == v.healthchecks[c]
    ensures |v.events| <= EVENTS_LEN ==> |After(v, op).events| <= EVENTS_LEN
  {
  }
}
