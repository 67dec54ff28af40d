/** The persister of backend/app/collectors/history.py with its real queue: any messages arrive
    while its loop lives, at most 512 wait, the oldest is dropped when more come, and a crash loses
    what waits. */
module Persister {
  import opened Basics
  import opened Json
  import opened Options
  import opened Ring
  import opened ServerState
  import opened Coupling
  import opened Lossy
  import H = History

  const PRUNE_INTERVAL := 3600.0

  /** The row that a message carries: node samples are written, all else is passed over. */
  function RowIn(m: Msg): Option<H.Row> {
    if m.NodeMetrics? && Get(m.data, T).Num?
    then Some(H.Row(PropertyName(Get(m.data, Node)), PointOf(Get(m.data, T), m.data)))
    else None
  }

  function RowsIn(msgs: seq<Msg>): seq<H.Row> {
    if msgs == [] then []
    else RowsIn(msgs[..|msgs| - 1]) + RowOrNone(msgs[|msgs| - 1])
  }

  function RowOrNone(m: Msg): seq<H.Row> {
    if RowIn(m).Some? then [RowIn(m).value] else []
  }

  lemma RowsInMore(msgs: seq<Msg>, m: Msg)
    ensures RowsIn(msgs + [m]) == RowsIn(msgs) + RowOrNone(m)
  {
    assert (msgs + [m])[..|msgs|] == msgs;
  }

  lemma {:induction false} RowsInSplit(a: seq<Msg>, b: seq<Msg>)
    ensures RowsIn(a + b) == RowsIn(a) + RowsIn(b)
    decreases |b|
  {
    if b == [] {
      assert a + b == a;
    } else {
      assert (a + b)[..|a + b| - 1] == a + b[..|b| - 1];
      RowsInSplit(a, b[..|b| - 1]);
    }
  }

  // ---------------- the machine ----------------

  /** What became of a message that left the queue. */
  datatype Fate = Taken | Dropped | Crashed

  /** `queue` and `table` are the program's; `log` is everything published to the persister, `fates`
      what became of those no longer waiting, `cutoff` the highest prune cut-off, and `clock` each
      node's newest timestamp (`epoch` before its first). */
  datatype System = System(
    log: seq<Msg>, fates: seq<Fate>, queue: seq<Msg>, table: seq<H.Row>,
    cutoff: real, epoch: real, clock: map<string, real>
  )

  datatype Step =
    | Publish(m: Msg)
    | Take             // `q.get()` and the insert, if the message is a node sample
    | Prune(cutoff: real)
    | Crash            // and a new subscription

  function ClockOf(sys: System, n: string): real {
    if n in sys.clock then sys.clock[n] else sys.epoch
  }

  function Clocked(clock: map<string, real>, m: Msg): map<string, real> {
    if RowIn(m).Some? then clock[RowIn(m).value.node := H.TimeOf(RowIn(m).value.point)] else clock
  }

  function Lost(n: nat): (r: seq<Fate>)
    ensures |r| == n && forall i :: 0 <= i < n ==> r[i] == Crashed
  {
    seq(n, _ => Crashed)
  }

  function Next(sys: System, step: Step): System {
    match step
    case Publish(m) =>
      sys.(log := sys.log + [m], queue := Offer(sys.queue, m), clock := Clocked(sys.clock, m),
           fates := if |sys.queue| >= QUEUE_LEN then sys.fates + [Dropped] else sys.fates)
    case Take =>
      if sys.queue == [] then sys
      else sys.(queue := sys.queue[1..], fates := sys.fates + [Taken],
                table := sys.table + RowOrNone(sys.queue[0]))
    case Prune(c) =>
      sys.(table := H.SinceRows(c, sys.table), cutoff := if c > sys.cutoff then c else sys.cutoff)
    case Crash => sys.(queue := [], fates := sys.fates + Lost(|sys.queue|))
  }

  function StateAfter(start: System, steps: seq<Step>): System {
    if steps == [] then start
    else Next(StateAfter(start, steps[..|steps| - 1]), steps[|steps| - 1])
  }

  ghost predicate Initial(sys: System) {
    sys.log == [] && sys.fates == [] && sys.queue == [] && sys.table == []
  }

  /** A sample is later than all earlier ones of its node. */
  predicate Later(sys: System, m: Msg) {
    RowIn(m).Some? ==> H.TimeOf(RowIn(m).value.point) > ClockOf(sys, RowIn(m).value.node)
  }

  predicate RisingAt(sys: System, step: Step) {
    step.Publish? ==> Later(sys, step.m)
  }

  ghost predicate Rising(start: System, steps: seq<Step>) {
    forall i :: 0 <= i < |steps| ==> RisingAt(StateAfter(start, steps[..i]), steps[i])
  }

  lemma RisingPrefix(start: System, steps: seq<Step>)
    requires Rising(start, steps) && steps != []
    ensures Rising(start, steps[..|steps| - 1])
    ensures RisingAt(StateAfter(start, steps[..|steps| - 1]), steps[|steps| - 1])
  {
    hide StateAfter, RisingAt;
    var n := |steps| - 1;
    forall i | 0 <= i < n ensures RisingAt(StateAfter(start, steps[..n][..i]), steps[..n][i]) {
      assert steps[..n][..i] == steps[..i];
    }
  }

  // ---------------- what has been written ----------------

  function TakenFlags(fates: seq<Fate>): (r: seq<bool>)
    ensures |r| == |fates|
    ensures forall i :: 0 <= i < |r| ==> r[i] == (fates[i] == Taken)
  {
    seq(|fates|, i requires 0 <= i < |fates| => fates[i] == Taken)
  }

  /** The messages that were neither dropped nor lost in a crash. */
  function Survivors(sys: System): seq<Msg>
    requires |sys.fates| <= |sys.log|
  {
    Kept(sys.log[..|sys.fates|], TakenFlags(sys.fates))
  }

  /** The queue is the end of the log, and a message is dropped only when 512 newer ones wait. */
  ghost predicate QueueInv(sys: System) {
    && |sys.fates| <= |sys.log| && sys.queue == sys.log[|sys.fates|..] && |sys.queue| <= QUEUE_LEN
    && forall i :: 0 <= i < |sys.fates| && sys.fates[i] == Dropped ==> i + QUEUE_LEN < |sys.log|
  }

  lemma {:induction false} NoneTaken<X>(log: seq<X>, flags: seq<bool>, k: nat)
    requires |flags| == |log| && k <= |log| && forall i :: k <= i < |log| ==> !flags[i]
    ensures Kept(log, flags) == Kept(log[..k], flags[..k])
    decreases |log|
  {
    if k < |log| {
      var log', flags' := log[..|log| - 1], flags[..|log| - 1];
      NoneTaken(log', flags', k);
      assert log'[..k] == log[..k] && flags'[..k] == flags[..k];
    } else {
      assert log[..k] == log && flags[..k] == flags;
    }
  }

  /** The survivors after a step: a message taken is one more, otherwise they are the same. */
  lemma SurvivorsAfter(sys: System, step: Step)
    requires QueueInv(sys)
    ensures |Next(sys, step).fates| <= |Next(sys, step).log|
    ensures Survivors(Next(sys, step))
         == if step.Take? && sys.queue != [] then Survivors(sys) + [sys.queue[0]] else Survivors(sys)
  {
    hide Clocked, RowOrNone, Kept;
    var sys', k := Next(sys, step), |sys.fates|;
    var log', flags' := sys'.log[..|sys'.fates|], TakenFlags(sys'.fates);
    if step.Take? && sys.queue != [] {
      assert log' == sys.log[..k] + [sys.queue[0]] && flags' == TakenFlags(sys.fates) + [true];
      OneMoreKept(sys.log[..k], TakenFlags(sys.fates), sys.queue[0]);
    } else {
      assert log'[..k] == sys.log[..k] && flags'[..k] == TakenFlags(sys.fates);
      NoneTaken(log', flags', k);
    }
  }

  lemma OneMoreKept<X>(log: seq<X>, flags: seq<bool>, x: X)
    requires |flags| == |log|
    ensures Kept(log + [x], flags + [true]) == Kept(log, flags) + [x]
  {
    assert (log + [x])[..|log|] == log && (flags + [true])[..|log|] == flags;
  }

  // ---------------- one node's rows ----------------

  /** The rows of a node that are written or wait, in time order. */
  ghost predicate InOrder(sys: System, n: string) {
    H.Timely(H.RowsOf(n, sys.table) + H.RowsOf(n, RowsIn(sys.queue)), ClockOf(sys, n))
  }

  /** The table shows the survivors, as far as the cut-off lets one tell. */
  ghost predicate ShowsSurvivors(sys: System, n: string)
    requires |sys.fates| <= |sys.log|
  {
    H.Since(sys.cutoff, H.RowsOf(n, sys.table)) == H.Since(sys.cutoff, H.RowsOf(n, RowsIn(Survivors(sys))))
  }

  function Mine(n: string, m: Msg): seq<H.Stamped> {
    H.RowsOf(n, RowOrNone(m))
  }

  lemma MineIs(n: string, m: Msg)
    ensures Mine(n, m)
         == if RowIn(m).Some? && RowIn(m).value.node == n then [RowIn(m).value.point] else []
  {
    if RowIn(m).Some? {
      var row := RowIn(m).value;
      assert [row][..0] == [];
      H.RowsStep(n, [], row);
      assert [] + [row] == [row] && H.RowsOf(n, []) == [];
    }
  }

  /** The rows of a node in a sequence of messages with one more at either end. */
  lemma RowsOfMore(n: string, msgs: seq<Msg>, m: Msg)
    ensures H.RowsOf(n, RowsIn(msgs + [m])) == H.RowsOf(n, RowsIn(msgs)) + Mine(n, m)
  {
    hide H.RowsOf, RowOrNone;
    RowsInMore(msgs, m);
    H.RowsSplit(n, RowsIn(msgs), RowOrNone(m));
  }

  lemma RowsOfFirst(n: string, msgs: seq<Msg>)
    requires msgs != []
    ensures H.RowsOf(n, RowsIn(msgs)) == Mine(n, msgs[0]) + H.RowsOf(n, RowsIn(msgs[1..]))
  {
    hide H.RowsOf;
    assert msgs == [msgs[0]] + msgs[1..];
    RowsInSplit([msgs[0]], msgs[1..]);
    assert RowsIn([msgs[0]]) == RowOrNone(msgs[0]) by {
      assert [msgs[0]][..0] == [];
    }
    H.RowsSplit(n, RowOrNone(msgs[0]), RowsIn(msgs[1..]));
  }

  lemma WrittenMore(n: string, table: seq<H.Row>, m: Msg)
    ensures H.RowsOf(n, table + RowOrNone(m)) == H.RowsOf(n, table) + Mine(n, m)
  {
    H.RowsSplit(n, table, RowOrNone(m));
  }

  /** Leaving out an entry of a series in time order. */
  lemma TimelyWithout(a: seq<H.Stamped>, x: seq<H.Stamped>, b: seq<H.Stamped>, clock: real)
    requires |x| <= 1 && H.Timely(a + (x + b), clock)
    ensures H.Timely(a + b, clock)
  {
    var s, t := a + (x + b), a + b;
    hide H.Timely, H.Increasing;
    assert H.Increasing(s) && (s == [] || H.TimeOf(s[|s| - 1]) <= clock) by {
      TimelyIs(s, clock);
    }
    forall i | 0 < i < |t| ensures H.TimeOf(t[i - 1]) < H.TimeOf(t[i]) {
      LaterBoth(a, x, b, i - 1, i);
    }
    H.IncreasingFromPairs(t);
    if t != [] && b == [] && x != [] {
      LaterBoth(a, x, b, |a| - 1, |a| - 1);
      H.IncreasingAt(s, |a| - 1, |s| - 1);
    }
    assert t != [] && b != [] ==> t[|t| - 1] == s[|s| - 1];
    assert b == [] && x == [] ==> t == s;
    TimelyIs(t, clock);
  }

  lemma TimelyIs(s: seq<H.Stamped>, clock: real)
    ensures H.Timely(s, clock) <==> H.Increasing(s) && (s == [] || H.TimeOf(s[|s| - 1]) <= clock)
  {
  }

  lemma LaterBoth(a: seq<H.Stamped>, x: seq<H.Stamped>, b: seq<H.Stamped>, i: nat, j: nat)
    requires H.Increasing(a + (x + b)) && i <= j < |a + b|
    ensures i < j ==> H.TimeOf((a + b)[i]) < H.TimeOf((a + b)[j])
    ensures i == j < |a| ==> (a + b)[i] == (a + (x + b))[i]
  {
    hide H.Increasing;
    var s := a + (x + b);
    var p, q := if i < |a| then i else i + |x|, if j < |a| then j else j + |x|;
    assert s[p] == (a + b)[i] && s[q] == (a + b)[j];
    if i < j {
      H.IncreasingAt(s, p, q);
    }
  }

  lemma PublishKeepsOrder(sys: System, m: Msg, n: string)
    requires InOrder(sys, n) && Later(sys, m)
    ensures InOrder(Next(sys, Publish(m)), n)
  {
    hide H.RowsOf, RowsIn;
    var rows := H.RowsOf(n, sys.table);
    var queue := if |sys.queue| >= QUEUE_LEN then sys.queue[1..] else sys.queue;
    var rest := H.RowsOf(n, RowsIn(queue));
    RowsOfMore(n, queue, m);
    if |sys.queue| >= QUEUE_LEN {
      RowsOfFirst(n, sys.queue);
      MineIs(n, sys.queue[0]);
      TimelyWithout(rows, Mine(n, sys.queue[0]), rest, ClockOf(sys, n));
    }
    MineIs(n, m);
    TimelyMore(rows, rest, Mine(n, m), ClockOf(sys, n), ClockOf(Next(sys, Publish(m)), n));
  }

  lemma TimelyMore(rows: seq<H.Stamped>, rest: seq<H.Stamped>, mine: seq<H.Stamped>, clock: real, later: real)
    requires H.Timely(rows + rest, clock) && |mine| <= 1
    requires mine == [] ==> later == clock
    requires mine != [] ==> H.TimeOf(mine[0]) > clock && later == H.TimeOf(mine[0])
    ensures H.Timely(rows + (rest + mine), later)
  {
    if mine == [] {
      assert rest + mine == rest;
    } else {
      H.TimelyPush(rows + rest, clock, mine[0]);
      assert rows + (rest + mine) == (rows + rest) + [mine[0]];
    }
  }

  lemma TakeKeepsOrder(sys: System, n: string)
    requires InOrder(sys, n)
    ensures InOrder(Next(sys, Take), n)
  {
    hide H.RowsOf, RowsIn, H.Timely;
    if sys.queue != [] {
      RowsOfFirst(n, sys.queue);
      WrittenMore(n, sys.table, sys.queue[0]);
      var rows, mine, rest := H.RowsOf(n, sys.table), Mine(n, sys.queue[0]), H.RowsOf(n, RowsIn(sys.queue[1..]));
      assert (rows + mine) + rest == rows + (mine + rest);
    }
  }

  lemma PruneKeepsOrder(sys: System, c: real, n: string)
    requires InOrder(sys, n)
    ensures InOrder(Next(sys, Prune(c)), n)
  {
    hide H.RowsOf, RowsIn, H.Timely;
    H.PrunedRows(n, c, sys.table);
    H.PrunedIncreasing(c, H.RowsOf(n, sys.table), H.RowsOf(n, RowsIn(sys.queue)), ClockOf(sys, n));
  }

  lemma CrashKeepsOrder(sys: System, n: string)
    requires InOrder(sys, n)
    ensures InOrder(Next(sys, Crash), n)
  {
    hide H.RowsOf;
    var rows, all := H.RowsOf(n, sys.table), H.RowsOf(n, sys.table) + H.RowsOf(n, RowsIn(sys.queue));
    assert H.RowsOf(n, []) == [] by {
      NoRowsOf(n);
    }
    assert rows + [] == rows == all[..|rows|];
    H.IncreasingPrefix(all, |rows|);
    if 0 < |rows| < |all| {
      H.IncreasingAt(all, |rows| - 1, |all| - 1);
    }
  }

  lemma NoRowsOf(n: string)
    ensures H.RowsOf(n, []) == []
  {
  }

  lemma TakeShowsSurvivors(sys: System, n: string)
    requires QueueInv(sys) && ShowsSurvivors(sys, n) && sys.queue != []
    ensures |Next(sys, Take).fates| <= |Next(sys, Take).log| && ShowsSurvivors(Next(sys, Take), n)
  {
    hide H.RowsOf, RowsIn, Survivors, H.Since;
    SurvivorsAfter(sys, Take);
    WrittenMore(n, sys.table, sys.queue[0]);
    RowsOfMore(n, Survivors(sys), sys.queue[0]);
    H.SinceSplit(sys.cutoff, H.RowsOf(n, sys.table), Mine(n, sys.queue[0]));
    H.SinceSplit(sys.cutoff, H.RowsOf(n, RowsIn(Survivors(sys))), Mine(n, sys.queue[0]));
  }

  lemma PruneShowsSurvivors(sys: System, c: real, n: string)
    requires QueueInv(sys) && ShowsSurvivors(sys, n)
    ensures ShowsSurvivors(Next(sys, Prune(c)), n)
  {
    hide H.RowsOf, RowsIn, H.Since;
    var cutoff' := if c > sys.cutoff then c else sys.cutoff;
    var rows, written := H.RowsOf(n, sys.table), H.RowsOf(n, RowsIn(Survivors(sys)));
    H.PrunedRows(n, c, sys.table);
    H.SinceTwice(c, cutoff', rows);
    H.SinceTwice(sys.cutoff, cutoff', rows);
    H.SinceTwice(sys.cutoff, cutoff', written);
  }

  ghost predicate Inv(sys: System, n: string) {
    QueueInv(sys) && InOrder(sys, n) && ShowsSurvivors(sys, n)
  }

  lemma StepKeepsInv(sys: System, step: Step, n: string)
    requires Inv(sys, n) && RisingAt(sys, step)
    ensures Inv(Next(sys, step), n)
  {
    hide InOrder, Survivors, Later, H.RowsOf, H.Since;
    SurvivorsAfter(sys, step);
    match step
    case Publish(m) => PublishKeepsOrder(sys, m, n);
    case Take =>
      TakeKeepsOrder(sys, n);
      if sys.queue != [] {
        TakeShowsSurvivors(sys, n);
      }
    case Prune(c) =>
      PruneKeepsOrder(sys, c, n);
      PruneShowsSurvivors(sys, c, n);
    case Crash => CrashKeepsOrder(sys, n);
  }

  lemma {:induction false} RunKeepsInv(start: System, steps: seq<Step>, n: string)
    requires Initial(start) && Rising(start, steps)
    ensures Inv(StateAfter(start, steps), n)
  {
    if steps != [] {
      hide Inv, Next, Rising;
      RisingPrefix(start, steps);
      RunKeepsInv(start, steps[..|steps| - 1], n);
      StepKeepsInv(StateAfter(start, steps[..|steps| - 1]), steps[|steps| - 1], n);
    }
  }

  /** With any losses: after any run, what a restart reloads for a node is the newest 1080 of its
      rows in the table, and from the latest prune cut-off on these are the newest of exactly the
      samples that were neither dropped from a full queue nor lost in a crash. */
  lemma ReloadShowsSurvivors(start: System, steps: seq<Step>, n: string)
    requires Initial(start) && Rising(start, steps)
    ensures QueueInv(StateAfter(start, steps))
    ensures
      var sys := StateAfter(start, steps);
      var reloaded := H.Loaded(n, sys.table);
      && reloaded == Last(HISTORY_LEN, H.RowsOf(n, sys.table))
      && H.Since(sys.cutoff, reloaded)
         == Last(HISTORY_LEN, H.Since(sys.cutoff, H.RowsOf(n, RowsIn(Survivors(sys)))))
  {
    var sys := StateAfter(start, steps);
    RunKeepsInv(start, steps, n);
    CrashKeepsOrder(sys, n);
    TableIncreasing(sys, n);
    H.LoadedIsLast(n, sys.table);
    H.SinceLast(sys.cutoff, H.RowsOf(n, sys.table), HISTORY_LEN);
  }

  lemma TableIncreasing(sys: System, n: string)
    requires InOrder(sys, n)
    ensures H.Increasing(H.RowsOf(n, sys.table))
  {
    hide H.RowsOf, RowsIn;
    var rows, all := H.RowsOf(n, sys.table), H.RowsOf(n, sys.table) + H.RowsOf(n, RowsIn(sys.queue));
    assert rows == all[..|rows|];
    H.IncreasingPrefix(all, |rows|);
  }

  // ---------------- what the samples appended in memory ----------------

  /** The entry that a mutation appends to a node's series in memory, with its node. */
  function Appended(v: View, op: Op): seq<H.Row> {
    if op.RecordNodeSample? || op.RecordHardware? then
      SampleIsCharted(v, op);
      var hist := HistoryOf(After(v, op).nodeHistory, op.node);
      [H.Row(op.node, hist[|hist| - 1])]
    else []
  }

  /** The row taken from a published message is the entry that the mutation appended in memory,
      and there is none where it appended nothing. */
  lemma RowIsAppended(v: View, op: Op)
    requires ServerInv(v) && ValidOp(op) && Published(v, op) != []
    ensures RowOrNone(Published(v, op)[0]) == Appended(v, op)
  {
    if op.RecordNodeSample? || op.RecordHardware? {
      hide After, Published, ServerInv, RowOrNone;
      H.PersistedIsAppended(v, op);
      SampleIsCharted(v, op);
      var merged := RecordOf(After(v, op).nodeMetrics, op.node);
      SampleMessage(v, op, merged);
      RowOfSample(op.tp, op.node, merged, op.t);
    }
  }

  lemma RowOfSample(tp: real, node: string, merged: Record, t: real)
    requires Get(WithDefault(Node, Str(node), merged), Node) == Str(node) && Get(merged, T) == Num(t)
    ensures
      var d := WithDefault(Node, Str(node), merged);
      Get(d, T) == Num(t) && RowOrNone(NodeMetrics(tp, d)) == [H.Row(node, PointOf(Get(d, T), d))]
  {
  }

  /** For every message that some mutations publish, the entries appended in memory with it. */
  function Appendings(v: View, ops: seq<Op>): (r: seq<seq<H.Row>>)
    ensures |r| == |Log(v, ops)|
  {
    if ops == [] then []
    else
      var n := |ops| - 1;
      var w := RunOps(v, ops[..n]);
      Appendings(v, ops[..n]) + if Published(w, ops[n]) == [] then [] else [Appended(w, ops[n])]
  }

  lemma {:induction false} RowsAreAppended(v: View, ops: seq<Op>)
    requires ServerInv(v) && ValidOps(ops)
    ensures forall i :: 0 <= i < |Log(v, ops)| ==> RowOrNone(Log(v, ops)[i]) == Appendings(v, ops)[i]
  {
    if ops != [] {
      hide ServerInv, RowOrNone, Published, Appended;
      var n := |ops| - 1;
      RowsAreAppended(v, ops[..n]);
      Coupling.RunKeepsInv(v, ops[..n]);
      var w := RunOps(v, ops[..n]);
      if Published(w, ops[n]) != [] {
        RowIsAppended(w, ops[n]);
      }
    }
  }

  function Joined<X>(xss: seq<seq<X>>): seq<X> {
    if xss == [] then [] else Joined(xss[..|xss| - 1]) + xss[|xss| - 1]
  }

  lemma {:induction false} RowsOfKept(log: seq<Msg>, entries: seq<seq<H.Row>>, flags: seq<bool>)
    requires |entries| == |log| == |flags|
    requires forall i :: 0 <= i < |log| ==> RowOrNone(log[i]) == entries[i]
    ensures RowsIn(Kept(log, flags)) == Joined(Kept(entries, flags))
  {
    if log != [] {
      hide RowOrNone;
      var n := |log| - 1;
      RowsOfKept(log[..n], entries[..n], flags[..n]);
      if flags[n] {
        RowsInMore(Kept(log[..n], flags[..n]), log[n]);
        assert Kept(entries, flags)[..|Kept(entries, flags)| - 1] == Kept(entries[..n], flags[..n]);
      } else {
        assert Kept(log, flags) == Kept(log[..n], flags[..n]) && Kept(entries, flags) == Kept(entries[..n], flags[..n]);
      }
    }
  }

  /** So when the queue was fed by mutations, a reload shows, from the latest prune cut-off on, the
      newest of exactly the entries that those mutations appended in memory and whose message
      was neither dropped nor lost. */
  lemma ReloadShowsAppended(v: View, ops: seq<Op>, start: System, steps: seq<Step>, n: string)
    requires ServerInv(v) && ValidOps(ops) && Initial(start) && Rising(start, steps)
    requires StateAfter(start, steps).log == Log(v, ops)
    ensures |StateAfter(start, steps).fates| <= |Log(v, ops)|
    ensures
      var sys := StateAfter(start, steps);
      var survivors := Joined(Kept(Appendings(v, ops)[..|sys.fates|], TakenFlags(sys.fates)));
      H.Since(sys.cutoff, H.Loaded(n, sys.table)) == Last(HISTORY_LEN, H.Since(sys.cutoff, H.RowsOf(n, survivors)))
  {
    hide StateAfter, H.Since, H.Loaded, H.RowsOf, Log, Appendings, Kept, RowOrNone;
    var sys := StateAfter(start, steps);
    ReloadShowsSurvivors(start, steps, n);
    RowsAreAppended(v, ops);
    RowsOfKept(sys.log[..|sys.fates|], Appendings(v, ops)[..|sys.fates|], TakenFlags(sys.fates));
  }

  // ---------------- without losses ----------------

  /** The step of the machine without a bound on the queue, where there is one. */
  function Unbounded(sys: System, step: Step): seq<H.Step> {
    match step
    case Publish(m) => if RowIn(m).Some? then [H.Record(RowIn(m).value)] else []
    case Take => if sys.queue != [] && RowIn(sys.queue[0]).Some? then [H.Persist] else []
    case Prune(c) => [H.Prune(c)]
    case Crash => [H.Restart]
  }

  function UnboundedRun(start: System, steps: seq<Step>): seq<H.Step> {
    if steps == [] then []
    else
      var before := steps[..|steps| - 1];
      UnboundedRun(start, before) + Unbounded(StateAfter(start, before), steps[|steps| - 1])
  }

  ghost predicate Refines(sys: System, h: H.System) {
    && h.table == sys.table && h.cutoff == sys.cutoff && h.epoch == sys.epoch && h.clock == sys.clock
    && H.WaitingRows(h.queue) == RowsIn(sys.queue)
  }

  lemma OneStep(h: H.System, step: H.Step)
    ensures H.StateAfter(h, [step]) == if H.Enabled(h, step) then H.Next(h, step) else h
    ensures H.StateAfter(h, []) == h
  {
    assert [step][..0] == [];
  }

  lemma PublishRefines(sys: System, m: Msg, h: H.System)
    requires Refines(sys, h) && Later(sys, m) && |sys.queue| < QUEUE_LEN
    ensures Refines(Next(sys, Publish(m)), H.StateAfter(h, Unbounded(sys, Publish(m))))
  {
    hide RowIn, RowsIn, H.StateAfter;
    RowsInMore(sys.queue, m);
    if RowIn(m).Some? {
      var row := RowIn(m).value;
      OneStep(h, H.Record(row));
      var ring := Push(HISTORY_LEN, H.At(h.ring, row.node), row.point);
      assert H.WaitingRows(h.queue + [H.Waiting(row, ring)]) == H.WaitingRows(h.queue) + [row];
    } else {
      OneStep(h, H.Persist);
      assert RowsIn(sys.queue) + [] == RowsIn(sys.queue);
    }
  }

  lemma RowsInFirst(msgs: seq<Msg>)
    requires msgs != []
    ensures RowsIn(msgs) == RowOrNone(msgs[0]) + RowsIn(msgs[1..])
  {
    assert msgs == [msgs[0]] + msgs[1..];
    RowsInSplit([msgs[0]], msgs[1..]);
    assert [msgs[0]][..0] == [] && RowsIn([msgs[0]]) == RowsIn([]) + RowOrNone(msgs[0]);
  }

  lemma TakeRefines(sys: System, h: H.System)
    requires Refines(sys, h)
    ensures Refines(Next(sys, Take), H.StateAfter(h, Unbounded(sys, Take)))
  {
    hide RowIn, RowsIn, H.StateAfter;
    OneStep(h, H.Persist);
    if sys.queue != [] {
      RowsInFirst(sys.queue);
      var rest := RowsIn(sys.queue[1..]);
      if RowIn(sys.queue[0]).Some? {
        assert h.queue[0].row == H.WaitingRows(h.queue)[0] == RowIn(sys.queue[0]).value;
        assert H.WaitingRows(h.queue[1..]) == H.WaitingRows(h.queue)[1..] == rest;
      } else {
        assert [] + rest == rest && sys.table + [] == sys.table;
      }
    }
  }

  lemma StepRefines(sys: System, step: Step, h: H.System)
    requires Refines(sys, h) && RisingAt(sys, step) && Dropped !in Next(sys, step).fates
    ensures Refines(Next(sys, step), H.StateAfter(h, Unbounded(sys, step)))
    ensures Dropped !in sys.fates
  {
    hide RowIn, RowsIn, RowOrNone, Clocked, H.StateAfter, Later;
    assert sys.fates <= Next(sys, step).fates;
    match step
    case Publish(m) =>
      assert Dropped in sys.fates + [Dropped];
      PublishRefines(sys, m, h);
    case Take => TakeRefines(sys, h);
    case Prune(c) => OneStep(h, H.Prune(c));
    case Crash =>
      OneStep(h, H.Restart);
      NothingWaits();
  }

  lemma NothingWaits()
    ensures RowsIn([]) == [] == H.WaitingRows([])
  {
  }

  lemma {:induction false} UnboundedSplit(h: H.System, a: seq<H.Step>, b: seq<H.Step>)
    requires |b| <= 1
    ensures H.StateAfter(h, a + b) == H.StateAfter(H.StateAfter(h, a), b)
  {
    if b == [] {
      assert a + b == a;
    } else {
      assert b == [b[0]];
      H.StateStep(h, a, b[0]);
      OneStep(H.StateAfter(h, a), b[0]);
    }
  }

  /** As long as nothing is dropped, this is the machine whose restarts are invisible. */
  lemma {:induction false} RunRefines(start: System, h: H.System, steps: seq<Step>)
    requires Refines(start, h) && Rising(start, steps)
    requires Dropped !in StateAfter(start, steps).fates
    ensures Refines(StateAfter(start, steps), H.StateAfter(h, UnboundedRun(start, steps)))
  {
    if steps != [] {
      hide Next, Refines, Rising, H.StateAfter;
      var before := steps[..|steps| - 1];
      var sys, step := StateAfter(start, before), steps[|steps| - 1];
      RisingPrefix(start, steps);
      RunRefines(start, h, before);
      StepRefines(sys, step, H.StateAfter(h, UnboundedRun(start, before)));
      UnboundedSplit(h, UnboundedRun(start, before), Unbounded(sys, step));
    }
  }

  /** So a run without drops, with any crashes, reloads what the ring buffer showed at the last
      written sample, from the latest prune cut-off on. */
  lemma LosslessReload(start: System, h: H.System, steps: seq<Step>, n: string)
    requires Initial(start) && H.Initial(h) && Refines(start, h) && Rising(start, steps)
    requires Dropped !in StateAfter(start, steps).fates
    ensures
      var sys, shown := StateAfter(start, steps), H.At(H.StateAfter(h, UnboundedRun(start, steps)).shot, n);
      H.Since(sys.cutoff, H.Loaded(n, sys.table)) == H.Since(sys.cutoff, shown)
  {
    hide StateAfter, H.StateAfter, H.Since, H.Loaded, Survivors;
    var h' := H.StateAfter(h, UnboundedRun(start, steps));
    RunRefines(start, h, steps);
    H.RunKeepsInv(h, UnboundedRun(start, steps), n);
    H.Reloaded(h', n);
    ReloadShowsSurvivors(start, steps, n);
  }

  // ---------------- the program ----------------

  /** One turn of the loop: what was published before `q.get()` returned, and the clock readings
      before, in and after a prune. */
  datatype Turn = Turn(arriving: seq<Msg>, checked: real, pruned: real, noted: real)

  /** The machine's steps so far and the time of the last prune. */
  datatype Loop = Loop(steps: seq<Step>, lastPrune: real)

  function Publishes(msgs: seq<Msg>): seq<Step> {
    if msgs == [] then [] else Publishes(msgs[..|msgs| - 1]) + [Publish(msgs[|msgs| - 1])]
  }

  /** With nothing in the queue `q.get()` goes on waiting. */
  function AfterTurn(start: System, loop: Loop, turn: Turn, retention: real): Loop {
    var arrived := loop.steps + Publishes(turn.arriving);
    if StateAfter(start, arrived).queue == [] then Loop(arrived, loop.lastPrune)
    else if turn.checked - loop.lastPrune > PRUNE_INTERVAL
    then Loop(arrived + [Take] + [Prune(turn.pruned - retention)], turn.noted)
    else Loop(arrived + [Take], loop.lastPrune)
  }

  /** Everything published during some turns. */
  function Arriving(turns: seq<Turn>): seq<Msg> {
    if turns == [] then [] else Arriving(turns[..|turns| - 1]) + turns[|turns| - 1].arriving
  }

  function AfterTurns(start: System, loop: Loop, turns: seq<Turn>, retention: real): Loop {
    if turns == [] then loop
    else AfterTurn(start, AfterTurns(start, loop, turns[..|turns| - 1], retention), turns[|turns| - 1], retention)
  }

  /** Table and queue are those of the machine. */
  ghost predicate Follows(rows: seq<H.Row>, items: seq<Msg>, start: System, steps: seq<Step>) {
    rows == StateAfter(start, steps).table && items == StateAfter(start, steps).queue
  }

  lemma StateStep(start: System, steps: seq<Step>, step: Step)
    ensures StateAfter(start, steps + [step]) == Next(StateAfter(start, steps), step)
  {
    assert (steps + [step])[..|steps|] == steps;
  }

  /** Other tasks publish while the loop waits. */
  method Arrive(state: ClusterState, q: Queue, msgs: seq<Msg>,
                ghost rows: seq<H.Row>, ghost start: System, ghost steps: seq<Step>)
    requires state.Valid() && q in state.subscribers && Follows(rows, q.items, start, steps)
    modifies state.subscribers
    ensures state.Valid() && Follows(rows, q.items, start, steps + Publishes(msgs))
    ensures forall other <- state.subscribers :: other.items == OfferEach(old(other.items), msgs)
  {
    hide StateAfter;
    assert steps + Publishes(msgs[..0]) == steps;
    for i := 0 to |msgs|
      invariant state.Valid() && Follows(rows, q.items, start, steps + Publishes(msgs[..i]))
      invariant forall other <- state.subscribers :: other.items == OfferEach(old(other.items), msgs[..i])
    {
      StateStep(start, steps + Publishes(msgs[..i]), Publish(msgs[i]));
      assert msgs[..i + 1][..i] == msgs[..i];
      assert steps + Publishes(msgs[..i + 1]) == steps + Publishes(msgs[..i]) + [Publish(msgs[i])];
      state.Publish(msgs[i]);
    }
    assert msgs[..|msgs|] == msgs;
  }

  /** `q.get()` and the insert. */
  method TakeOne(db: H.Database, q: Queue, ghost start: System, ghost steps: seq<Step>)
    requires Follows(db.rows, q.items, start, steps) && q.items != []
    modifies db, q
    ensures Follows(db.rows, q.items, start, steps + [Take]) && |q.items| < |old(q.items)|
  {
    hide StateAfter;
    StateStep(start, steps, Take);
    var m := q.GetNowait();
    if RowIn(m[0]).Some? {
      db.Insert(RowIn(m[0]).value);
    } else {
      assert db.rows + [] == db.rows;
    }
  }

  method PruneOnce(db: H.Database, q: Queue, cutoff: real, ghost start: System, ghost steps: seq<Step>)
    requires Follows(db.rows, q.items, start, steps)
    modifies db
    ensures Follows(db.rows, q.items, start, steps + [Prune(cutoff)])
  {
    hide StateAfter;
    StateStep(start, steps, Prune(cutoff));
    var _ := db.Prune(cutoff);
  }

  /** One turn of `run`'s loop. */
  method RunTurn(db: H.Database, state: ClusterState, q: Queue, lastPrune: real, turn: Turn, retention: real,
                 ghost start: System, ghost steps: seq<Step>) returns (noted: real)
    requires state.Valid() && q in state.subscribers && Follows(db.rows, q.items, start, steps)
    modifies db, state.subscribers
    ensures state.Valid()
    ensures forall other <- state.subscribers - {q} :: other.items == OfferEach(old(other.items), turn.arriving)
    ensures
      var loop := AfterTurn(start, Loop(steps, lastPrune), turn, retention);
      noted == loop.lastPrune && Follows(db.rows, q.items, start, loop.steps)
  {
    hide StateAfter, Publishes;
    Arrive(state, q, turn.arriving, db.rows, start, steps);
    ghost var arrived := steps + Publishes(turn.arriving);
    noted := lastPrune;
    if q.items != [] {
      TakeOne(db, q, start, arrived);
      if turn.checked - lastPrune > PRUNE_INTERVAL {
        PruneOnce(db, q, turn.pruned - retention, start, arrived + [Take]);
        noted := turn.noted;
      }
    }
  }

  /** `run`, until it is cancelled: whatever is published meanwhile, its inserts and deletes make
      the table that the machine's steps make. */
  method RunPersister(db: H.Database, state: ClusterState, begun: real, pruned: real, turns: seq<Turn>,
                      retention: real, ghost start: System)
    requires state.Valid() && start.table == db.rows && start.queue == []
    modifies db, state, state.subscribers
    ensures state.Valid() && state.subscribers == old(state.subscribers) && state.Snapshot() == old(state.Snapshot())
    ensures forall other <- state.subscribers :: other.items == OfferEach(old(other.items), Arriving(turns))
    ensures
      var loop := AfterTurns(start, Loop([Prune(pruned - retention)], begun), turns, retention);
      db.rows == StateAfter(start, loop.steps).table
  {
    hide AfterTurn;
    var q := state.Subscribe();
    PruneOnce(db, q, pruned - retention, start, []);
    ghost var first := Loop([Prune(pruned - retention)], begun);
    assert [] + first.steps == first.steps;
    var lastPrune := begun;
    for i := 0 to |turns|
      invariant state.Valid() && state.subscribers == old(state.subscribers) + {q}
      invariant state.Snapshot() == old(state.Snapshot())
      invariant forall other <- old(state.subscribers) :: other.items == OfferEach(old(other.items), Arriving(turns[..i]))
      invariant lastPrune == AfterTurns(start, first, turns[..i], retention).lastPrune
      invariant Follows(db.rows, q.items, start, AfterTurns(start, first, turns[..i], retention).steps)
    {
      ghost var loop := AfterTurns(start, first, turns[..i], retention);
      assert turns[..i + 1][..i] == turns[..i];
      lastPrune := RunTurn(db, state, q, lastPrune, turns[i], retention, start, loop.steps);
      forall other <- old(state.subscribers)
        ensures other.items == OfferEach(old(other.items), Arriving(turns[..i + 1]))
      {
        OfferedMore(old(other.items), Arriving(turns[..i]), turns[i].arriving);
      }
    }
    assert turns[..|turns|] == turns;
    state.Unsubscribe(q);
  }
}
