/** The browser's reducer (frontend/src/store.ts): how a snapshot changes with each message. */
module ClientStore {
  import opened Json
  import opened Options
  import opened Ring
  import opened ServerState

  const CLIENT_HISTORY_LEN: nat := 1080

  /** `d.name` for a node, `d.key` for everything else. */
  function ObjectKey(kind: Kind, d: Record): string {
    match kind
    case Nodes => PropertyName(Get(d, Name))
    case _ => PropertyName(Get(d, Key))
  }

  /** The chart point of a "node_metrics" message. The browser keeps its own list of fields. */
  function ChartPoint(t: real, d: Record): HistoryPoint {
    HistoryPoint(
      t := Num(t),
      cpuPct := Get(d, Field.CpuPct),
      memPct := Get(d, Field.MemPct),
      tempC := Get(d, Field.TempC),
      nvmeReadBytesPerS := Get(d, NvmeReadBytesPerS),
      nvmeWriteBytesPerS := Get(d, NvmeWriteBytesPerS),
      sdReadBytesPerS := Get(d, SdReadBytesPerS),
      sdWriteBytesPerS := Get(d, SdWriteBytesPerS),
      netRxBytesPerS := Get(d, NetRxBytesPerS),
      netTxBytesPerS := Get(d, NetTxBytesPerS))
  }

  /** The browser's list of fields is the server's. */
  lemma SamePoint(t: real, d: Record)
    ensures ChartPoint(t, d) == PointOf(Num(t), d)
  {
  }

  function ApplyDelta(snap: View, msg: Msg): View {
    match msg
    case ObjectUpserted(kind, _, d) =>
      snap.(objects := snap.objects[(kind, ObjectKey(kind, d)) := d])
    case ObjectDeleted(kind, _, d) =>
      var key := ObjectKey(kind, d);
      snap.(objects := snap.objects - {(kind, key)},
            podMetrics := if kind.Pods? then snap.podMetrics - {key} else snap.podMetrics)
    case EventAdded(_, d) => snap.(events := Last(199, snap.events) + [d])
    case NodeMetrics(t, d) =>
      var node := PropertyName(Get(d, Node));
      var hist := HistoryOf(snap.nodeHistory, node);
      snap.(nodeMetrics := snap.nodeMetrics[node := RecordOf(snap.nodeMetrics, node) + d],
            hardware := snap.hardware[node := RecordOf(snap.hardware, node) + d],
            nodeHistory := snap.nodeHistory[node :=
              Last(CLIENT_HISTORY_LEN - 1, hist) + [ChartPoint(t, d)]])
    case PodMetrics(_, d) =>
      snap.(podMetrics := snap.podMetrics[PropertyName(Get(d, Key)) := d])
    case SectionReplaced(section, _, items) =>
      snap.(sections := snap.sections[section := items])
    case Healthcheck(t, d) =>
      var name := PropertyName(Get(d, Name));
      snap.(healthchecks := snap.healthchecks[name := CheckAfter(snap, t, d)])
    case HealthcheckDeleted(_, d) =>
      snap.(healthchecks := snap.healthchecks - {PropertyName(Get(d, Name))})
  }

  /** The client's entry for a check after a "healthcheck" message. */
  function CheckAfter(snap: View, t: real, d: Record): CheckEntry {
    var name := PropertyName(Get(d, Name));
    var entry := if name in snap.healthchecks then snap.healthchecks[name]
                 else CheckEntry(Coalesce(Get(d, Config), Dict(map[Name := Str(name)])), Null, Null, []);
    var result: Record := map[T := Coalesce(Get(d, T), Num(t)), Ok := Get(d, Ok),
                              Ms := Get(d, Ms), Detail := Get(d, Detail)];
    CheckEntry(Coalesce(Get(d, Config), entry.config), Dict(result),
               Coalesce(Get(d, Field.UptimePct), entry.uptimePct),
               Last(499, entry.history) + [result])
  }

  /** Folding the reducer over a sequence of messages, oldest first. */
  function ApplyAll(snap: View, msgs: seq<Msg>): View {
    if msgs == [] then snap
    else ApplyDelta(ApplyAll(snap, msgs[..|msgs| - 1]), msgs[|msgs| - 1])
  }

  lemma {:induction false} ApplyAllSplit(snap: View, a: seq<Msg>, b: seq<Msg>)
    ensures ApplyAll(snap, a + b) == ApplyAll(ApplyAll(snap, a), b)
    decreases |b|
  {
    if b == [] {
      assert a + b == a;
    } else {
      var n := |b| - 1;
      assert (a + b)[..|a + b| - 1] == a + b[..n];
      ApplyAllSplit(snap, a, b[..n]);
    }
  }

  /** What arrives on a socket: the full state, deltas and heartbeats. */
  datatype Frame = FullState(v: View) | Delta(msg: Msg) | Ping

  /** `ws.onmessage`: a full state replaces the snapshot, a delta before it is ignored. */
  function Receive(snap: Option<View>, f: Frame): Option<View> {
    match f
    case FullState(v) => Some(v)
    case Delta(msg) => if snap.Some? then Some(ApplyDelta(snap.value, msg)) else None
    case Ping => snap
  }

  function ReceiveAll(snap: Option<View>, fs: seq<Frame>): Option<View> {
    if fs == [] then snap
    else Receive(ReceiveAll(snap, fs[..|fs| - 1]), fs[|fs| - 1])
  }

  /** The messages of the delta frames, in order. */
  function Deltas(fs: seq<Frame>): seq<Msg> {
    if fs == [] then []
    else
      Deltas(fs[..|fs| - 1]) +
      (if fs[|fs| - 1].Delta? then [fs[|fs| - 1].msg] else [])
  }

  /** After a full state in front, the old snapshot is forgotten and the deltas are folded. */
  lemma {:induction false} ReceiveFullState(snap: Option<View>, fs: seq<Frame>)
    requires fs != [] && fs[0].FullState?
    requires forall i :: 1 <= i < |fs| ==> !fs[i].FullState?
    ensures ReceiveAll(snap, fs) == Some(ApplyAll(fs[0].v, Deltas(fs)))
  {
    var n := |fs| - 1;
    if n == 0 {
      assert Deltas(fs[..0]) == [] && Deltas(fs) == [];
      assert ReceiveAll(snap, fs) == Receive(snap, fs[0]);
    } else {
      ReceiveFullState(snap, fs[..n]);
      assert Deltas(fs[..n]) + [] == Deltas(fs[..n]);
      if fs[n].Delta? {
        var ds := Deltas(fs);
        assert ds == Deltas(fs[..n]) + [fs[n].msg];
        assert ds[..|ds| - 1] == Deltas(fs[..n]);
      }
    }
  }
}
