/** Persistence of the node time series (backend/app/collectors/history.py): a subscriber that
    writes every sample to a table, prunes old rows, and reloads the table after a restart. */
module History {
  import opened Basics
  import opened Json
  import opened Ring
  import opened ServerState

  /** A time series entry with its time set, as `record_node_sample` always does. */
  type Stamped = p: HistoryPoint | p.t.Num?
    witness HistoryPoint(Num(0.0), Null, Null, Null, Null, Null, Null, Null, Null, Null)

  datatype Row = Row(node: string, point: Stamped)

  function TimeOf(p: Stamped): real { p.t.n }

  /** The rows of one node, in table order. */
  function RowsOf(node: string, rows: seq<Row>): seq<Stamped> {
    if rows == [] then []
    else
      RowsOf(node, rows[..|rows| - 1]) +
      (if rows[|rows| - 1].node == node then [rows[|rows| - 1].point] else [])
  }

  /** The entries that are not older than a cut-off. */
  function Since(cutoff: real, s: seq<Stamped>): seq<Stamped> {
    if s == [] then []
    else
      Since(cutoff, s[..|s| - 1]) +
      (if TimeOf(s[|s| - 1]) >= cutoff then [s[|s| - 1]] else [])
  }

  function SinceRows(cutoff: real, rows: seq<Row>): (r: seq<Row>)
    ensures |r| <= |rows|
  {
    if rows == [] then []
    else
      SinceRows(cutoff, rows[..|rows| - 1]) +
      (if TimeOf(rows[|rows| - 1].point) >= cutoff then [rows[|rows| - 1]] else [])
  }

  /** Every entry is later than the one before. */
  ghost predicate Increasing(s: seq<Stamped>) {
    |s| < 2 || (Increasing(s[..|s| - 1]) && TimeOf(s[|s| - 2]) < TimeOf(s[|s| - 1]))
  }

  lemma {:induction false} IncreasingAt(s: seq<Stamped>, i: nat, j: nat)
    requires Increasing(s) && i < j < |s|
    ensures TimeOf(s[i]) < TimeOf(s[j])
  {
    var n := |s| - 1;
    if j < n {
      IncreasingAt(s[..n], i, j);
    } else if i < n - 1 {
      IncreasingAt(s[..n], i, n - 1);
    }
  }

  lemma {:induction false} IncreasingFromPairs(s: seq<Stamped>)
    requires forall i :: 0 < i < |s| ==> TimeOf(s[i - 1]) < TimeOf(s[i])
    ensures Increasing(s)
  {
    if |s| >= 2 {
      IncreasingFromPairs(s[..|s| - 1]);
    }
  }

  lemma {:induction false} IncreasingPrefix(s: seq<Stamped>, k: nat)
    requires Increasing(s) && k <= |s|
    ensures Increasing(s[..k])
  {
    if k < |s| {
      IncreasingPrefix(s[..|s| - 1], k);
      assert s[..|s| - 1][..k] == s[..k];
    } else {
      assert s[..k] == s;
    }
  }

  lemma {:induction false} IncreasingSuffix(s: seq<Stamped>, d: nat)
    requires Increasing(s) && d <= |s|
    ensures Increasing(s[d..])
  {
    if |s| - d >= 2 {
      IncreasingSuffix(s[..|s| - 1], d);
      assert s[d..][..|s| - d - 1] == s[..|s| - 1][d..];
    }
  }

  // ---------------- the database ----------------

  function InsertByT(p: Stamped, s: seq<Stamped>): (r: seq<Stamped>)
    ensures multiset(r) == multiset(s) + multiset{p}
  {
    if s == [] || TimeOf(p) >= TimeOf(s[0]) then [p] + s
    else
      assert s == [s[0]] + s[1..];
      [s[0]] + InsertByT(p, s[1..])
  }

  ghost predicate Descending(s: seq<Stamped>) {
    forall i, j :: 0 <= i < j < |s| ==> TimeOf(s[i]) >= TimeOf(s[j])
  }

  /** The answers that ORDER BY t DESC allows. */
  ghost predicate NewestFirst(rows: seq<Stamped>, r: seq<Stamped>) {
    multiset(r) == multiset(rows) && Descending(r)
  }

  lemma DescendingCons(p: Stamped, s: seq<Stamped>)
    requires Descending(s) && forall x <- s :: TimeOf(p) >= TimeOf(x)
    ensures Descending([p] + s)
  {
  }

  lemma {:induction false} InsertByTMembers(p: Stamped, s: seq<Stamped>, x: Stamped)
    requires x in InsertByT(p, s)
    ensures x == p || x in s
  {
    if s != [] && TimeOf(p) < TimeOf(s[0]) && x != s[0] {
      InsertByTMembers(p, s[1..], x);
    }
  }

  lemma {:induction false} InsertByTDescending(p: Stamped, s: seq<Stamped>)
    requires Descending(s)
    ensures Descending(InsertByT(p, s))
  {
    if s == [] || TimeOf(p) >= TimeOf(s[0]) {
      DescendingCons(p, s);
    } else {
      InsertByTDescending(p, s[1..]);
      forall x <- InsertByT(p, s[1..]) ensures TimeOf(s[0]) >= TimeOf(x) {
        InsertByTMembers(p, s[1..], x);
      }
      DescendingCons(s[0], InsertByT(p, s[1..]));
    }
  }

  function OrderByTDesc(rows: seq<Stamped>): (r: seq<Stamped>)
    ensures NewestFirst(rows, r)
  {
    if rows == [] then []
    else
      hide Descending, InsertByT, TimeOf;
      var rest := OrderByTDesc(rows[1..]);
      InsertByTDescending(rows[0], rest);
      FirstCounted(rows);
      InsertByT(rows[0], rest)
  }

  lemma FirstCounted<X>(s: seq<X>)
    requires s != []
    ensures multiset(s) == multiset(s[1..]) + multiset{s[0]}
  {
    assert s == [s[0]] + s[1..];
  }

  function Reversed<X>(s: seq<X>): (r: seq<X>)
    ensures |r| == |s|
    ensures forall i :: 0 <= i < |s| ==> r[i] == s[|s| - 1 - i]
  {
    if s == [] then [] else Reversed(s[1..]) + [s[0]]
  }

  lemma FirstIsNewest(rows: seq<Stamped>, r: seq<Stamped>)
    requires Increasing(rows) && NewestFirst(rows, r) && rows != []
    ensures r != [] && r[0] == rows[|rows| - 1]
  {
    assert |r| == |multiset(r)| == |multiset(rows)| == |rows|;
    var newest := rows[|rows| - 1];
    assert newest in multiset(rows);
    assert newest in r;
    var k :| 0 <= k < |r| && r[k] == newest;
    assert r[0] in multiset(r);
    assert r[0] in rows;
    var i :| 0 <= i < |rows| && rows[i] == r[0];
    if i < |rows| - 1 {
      IncreasingAt(rows, i, |rows| - 1);
    }
  }

  lemma RestIsOrdered(rows: seq<Stamped>, r: seq<Stamped>)
    requires NewestFirst(rows, r) && rows != [] && r != [] && r[0] == rows[|rows| - 1]
    ensures NewestFirst(rows[..|rows| - 1], r[1..])
  {
    var n := |rows| - 1;
    assert rows == rows[..n] + [rows[n]];
    assert r == [r[0]] + r[1..];
    assert multiset(r[1..]) == multiset(r) - multiset{r[0]};
    assert multiset(rows[..n]) == multiset(rows) - multiset{rows[n]};
  }

  /** With distinct times the order is no longer the database's choice. */
  lemma {:induction false} OrderIsUnique(rows: seq<Stamped>, r: seq<Stamped>)
    requires Increasing(rows) && NewestFirst(rows, r)
    ensures r == Reversed(rows)
    decreases |rows|
  {
    if rows == [] {
      assert |multiset(r)| == 0;
    } else {
      FirstIsNewest(rows, r);
      RestIsOrdered(rows, r);
      OrderIsUnique(rows[..|rows| - 1], r[1..]);
      assert r == [r[0]] + r[1..];
    }
  }

  class Database {
    var rows: seq<Row>

    method Insert(row: Row)
      modifies this
      ensures rows == old(rows) + [row]
    {
      rows := rows + [row];
    }

    /** DELETE ... WHERE t < cutoff; the number of deleted rows. */
    method Prune(cutoff: real) returns (removed: nat)
      modifies this
      ensures rows == SinceRows(cutoff, old(rows))
      ensures removed == |old(rows)| - |rows|
    {
      var before := rows;
      var rest := [];
      for i := 0 to |before|
        invariant rest == SinceRows(cutoff, before[..i])
      {
        assert before[..i + 1][..i] == before[..i];
        if TimeOf(before[i].point) >= cutoff {
          rest := rest + [before[i]];
        }
      }
      assert before[..|before|] == before;
      rows := rest;
      removed := |before| - |rows|;
    }

    method DistinctNodes() returns (nodes: set<string>)
      ensures nodes == set row <- rows :: row.node
    {
      nodes := set row <- rows :: row.node;
    }

    /** SELECT ... WHERE node = ? ORDER BY t DESC LIMIT ?. */
    method SelectNewest(node: string, limit: nat) returns (r: seq<Stamped>)
      ensures
        var all := OrderByTDesc(RowsOf(node, rows));
        r == if |all| <= limit then all else all[..limit]
    {
      var mine := [];
      for i := 0 to |rows|
        invariant mine == RowsOf(node, rows[..i])
      {
        assert rows[..i + 1][..i] == rows[..i];
        if rows[i].node == node {
          mine := mine + [rows[i].point];
        }
      }
      assert rows[..|rows|] == rows;
      r := OrderByTDesc(mine);
      if |r| > limit {
        r := r[..limit];
      }
    }
  }

  /** What a reload finds for one node. */
  function Loaded(node: string, rows: seq<Row>): seq<Stamped> {
    var all := OrderByTDesc(RowsOf(node, rows));
    Reversed(if |all| <= HISTORY_LEN then all else all[..HISTORY_LEN])
  }

  /** Reloading gives the newest rows, oldest first. */
  lemma LoadedIsLast(node: string, rows: seq<Row>)
    requires Increasing(RowsOf(node, rows))
    ensures Loaded(node, rows) == Last(HISTORY_LEN, RowsOf(node, rows))
  {
    hide Increasing, NewestFirst, RowsOf;
    var mine := RowsOf(node, rows);
    OrderIsUnique(mine, OrderByTDesc(mine));
    ReversedTwice(mine, HISTORY_LEN);
  }

  lemma ReversedTwice<X>(s: seq<X>, k: nat)
    ensures Reversed(if |s| <= k then Reversed(s) else Reversed(s)[..k]) == Last(k, s)
  {
  }

  lemma {:induction false} NoRows(node: string, rows: seq<Row>)
    ensures node in (set row <- rows :: row.node) || RowsOf(node, rows) == []
  {
    if rows != [] {
      NoRows(node, rows[..|rows| - 1]);
    }
  }

  lemma NothingLoaded(node: string, rows: seq<Row>)
    requires node !in (set row <- rows :: row.node)
    ensures Loaded(node, rows) == []
  {
    NoRows(node, rows);
  }

  method LoadNode(db: Database, node: string) returns (hist: seq<Stamped>)
    ensures hist == Loaded(node, db.rows)
  {
    var rows := db.SelectNewest(node, HISTORY_LEN);
    hist := Last(HISTORY_LEN, Reversed(rows));
  }

  /** `load_startup_history`, on a state whose histories are still empty. */
  method LoadStartupHistory(db: Database, state: ClusterState)
    requires state.nodeHistory == map[]
    modifies state`nodeHistory
    ensures forall n: string :: HistoryOf(state.nodeHistory, n) == Loaded(n, db.rows)
  {
    hide Loaded;
    var todo := db.DistinctNodes();
    ghost var all := todo;
    while todo != {}
      invariant todo <= all
      invariant state.nodeHistory.Keys == all - todo
      invariant forall n <- state.nodeHistory :: state.nodeHistory[n] == Loaded(n, db.rows)
      decreases |todo|
    {
      var node :| node in todo;
      var hist := LoadNode(db, node);
      state.nodeHistory := state.nodeHistory[node := hist];
      todo := todo - {node};
    }
    forall n: string ensures HistoryOf(state.nodeHistory, n) == Loaded(n, db.rows) {
      if n !in all {
        NothingLoaded(n, db.rows);
      }
    }
  }

  /** The row written for a published sample is the very entry that was appended in memory. */
  lemma PersistedIsAppended(v: View, op: Op)
    requires ServerInv(v) && ValidOp(op) && (op.RecordNodeSample? || op.RecordHardware?)
    ensures
      var d := Published(v, op)[0].data;
      var hist := HistoryOf(After(v, op).nodeHistory, op.node);
      && Get(d, Node) == Str(op.node)
      && hist != [] && PointOf(Get(d, T), d) == hist[|hist| - 1]
  {
    var sample := if op.RecordHardware? then op.data else op.sample;
    var merged := Merged(v, op.node, sample, op.t);
    assert Published(v, op)[0].data == WithDefault(Node, Str(op.node), merged);
    assert HistoryOf(After(v, op).nodeHistory, op.node)
        == Push(HISTORY_LEN, HistoryOf(v.nodeHistory, op.node), PointOf(Num(op.t), merged));
  }

  // ---------------- runs with crashes ----------------

  /** A sample waiting to be written, and its node's ring buffer right after it was recorded. */
  datatype Waiting = Waiting(row: Row, ringAfter: seq<Stamped>)

  /** `ring`, `queue` and `table` are the program's state; `clock` is each node's newest
      timestamp (`epoch` before its first), `cutoff` the highest prune cut-off, and `shot` each
      node's ring buffer as it stood when its last written sample was recorded. */
  datatype System = System(
    ring: map<string, seq<Stamped>>, queue: seq<Waiting>, table: seq<Row>,
    epoch: real, clock: map<string, real>, cutoff: real, shot: map<string, seq<Stamped>>
  )

  datatype Step =
    | Record(row: Row)
    | Persist
    | Prune(cutoff: real)
    | Restart

  function ClockOf(sys: System, n: string): real {
    if n in sys.clock then sys.clock[n] else sys.epoch
  }

  /** A node's timestamps rise; those of different nodes are unrelated. */
  predicate Enabled(sys: System, step: Step) {
    match step
    case Record(row) => TimeOf(row.point) > ClockOf(sys, row.node)
    case Persist => sys.queue != []
    case _ => true
  }

  function At(m: map<string, seq<Stamped>>, n: string): seq<Stamped> {
    if n in m then m[n] else []
  }

  function Next(sys: System, step: Step): System
    requires Enabled(sys, step)
  {
    match step
    case Record(row) =>
      var ring := Push(HISTORY_LEN, At(sys.ring, row.node), row.point);
      sys.(ring := sys.ring[row.node := ring], queue := sys.queue + [Waiting(row, ring)],
           clock := sys.clock[row.node := TimeOf(row.point)])
    case Persist =>
      var w := sys.queue[0];
      sys.(queue := sys.queue[1..], table := sys.table + [w.row],
           shot := sys.shot[w.row.node := w.ringAfter])
    case Prune(c) =>
      sys.(table := SinceRows(c, sys.table), cutoff := if c > sys.cutoff then c else sys.cutoff)
    case Restart =>
      sys.(queue := [],
           ring := map n | n in (set row <- sys.table :: row.node) :: Loaded(n, sys.table))
  }

  function StateAfter(start: System, steps: seq<Step>): System {
    if steps == [] then start
    else
      var prev := StateAfter(start, steps[..|steps| - 1]);
      var step := steps[|steps| - 1];
      if Enabled(prev, step) then Next(prev, step) else prev
  }

  ghost predicate Initial(sys: System) {
    sys.ring == map[] && sys.queue == [] && sys.table == [] && sys.shot == map[]
  }

  function WaitingRows(queue: seq<Waiting>): (r: seq<Row>)
    ensures |r| == |queue|
    ensures forall i :: 0 <= i < |r| ==> r[i] == queue[i].row
  {
    seq(|queue|, i requires 0 <= i < |queue| => queue[i].row)
  }

  /** Everything written or waiting for a node, up to the k-th waiting sample. */
  function Chain(sys: System, n: string, k: nat): seq<Stamped>
    requires k <= |sys.queue|
  {
    RowsOf(n, sys.table + WaitingRows(sys.queue[..k]))
  }

  ghost predicate Timely(s: seq<Stamped>, clock: real) {
    Increasing(s) && (s == [] || TimeOf(s[|s| - 1]) <= clock)
  }

  /** A ring that shows the newest of a chain, as far as the cut-off lets one tell. */
  ghost predicate Mirrors(ring: seq<Stamped>, chain: seq<Stamped>, cutoff: real) {
    |ring| <= HISTORY_LEN && Since(cutoff, ring) == Last(HISTORY_LEN, Since(cutoff, chain))
  }

  /** A ring that mirrors a chain, both in time order. */
  ghost predicate Tracks(ring: seq<Stamped>, chain: seq<Stamped>, cutoff: real, clock: real) {
    Timely(chain, clock) && Timely(ring, clock) && Mirrors(ring, chain, cutoff)
  }

  /** The ring shows what has been written or waits for the node, up to the k-th waiting sample. */
  ghost predicate Shows(sys: System, n: string, ring: seq<Stamped>, k: nat)
    requires k <= |sys.queue|
  {
    Tracks(ring, Chain(sys, n, k), sys.cutoff, ClockOf(sys, n))
  }

  ghost predicate NodeInv(sys: System, n: string) {
    && Shows(sys, n, At(sys.ring, n), |sys.queue|)
    && Shows(sys, n, At(sys.shot, n), 0)
    && WaitingOk(sys, n)
  }

  ghost predicate WaitingOk(sys: System, n: string) {
    forall k :: 0 <= k < |sys.queue| && sys.queue[k].row.node == n ==> WaitingInv(sys, n, k)
  }

  ghost predicate WaitingInv(sys: System, n: string, k: nat)
    requires k < |sys.queue|
  {
    Shows(sys, n, sys.queue[k].ringAfter, k + 1)
  }

  // ---------------- sequences in time order ----------------

  lemma {:induction false} SinceFrom(cutoff: real, s: seq<Stamped>, m: nat)
    requires m <= |s|
    requires forall i :: 0 <= i < m ==> TimeOf(s[i]) < cutoff
    requires forall i :: m <= i < |s| ==> TimeOf(s[i]) >= cutoff
    ensures Since(cutoff, s) == s[m..]
  {
    if s != [] {
      var n := |s| - 1;
      if m <= n {
        SinceFrom(cutoff, s[..n], m);
        assert s[m..] == s[..n][m..] + [s[n]];
      } else {
        SinceFrom(cutoff, s[..n], n);
      }
    }
  }

  lemma {:induction false} Cut(cutoff: real, s: seq<Stamped>) returns (m: nat)
    requires Increasing(s)
    ensures m <= |s|
    ensures forall i :: 0 <= i < m ==> TimeOf(s[i]) < cutoff
    ensures forall i :: m <= i < |s| ==> TimeOf(s[i]) >= cutoff
    ensures Since(cutoff, s) == s[m..]
  {
    m := |s|;
    while m > 0 && TimeOf(s[m - 1]) >= cutoff
      invariant 0 <= m <= |s|
      invariant forall i :: m <= i < |s| ==> TimeOf(s[i]) >= cutoff
    {
      m := m - 1;
    }
    forall i | 0 <= i < m ensures TimeOf(s[i]) < cutoff {
      if i < m - 1 {
        IncreasingAt(s, i, m - 1);
      }
    }
    SinceFrom(cutoff, s, m);
  }

  /** In time order, dropping old entries and keeping the newest commute. */
  lemma SinceLast(cutoff: real, s: seq<Stamped>, k: nat)
    requires Increasing(s)
    ensures Since(cutoff, Last(k, s)) == Last(k, Since(cutoff, s))
  {
    var m := Cut(cutoff, s);
    var j := if |s| <= k then 0 else |s| - k;
    SinceWithin(cutoff, s, m, j);
    assert Last(k, s) == s[j..];
  }

  lemma SinceWithin(cutoff: real, s: seq<Stamped>, m: nat, j: nat)
    requires m <= |s| && j <= |s|
    requires forall i :: 0 <= i < m ==> TimeOf(s[i]) < cutoff
    requires forall i :: m <= i < |s| ==> TimeOf(s[i]) >= cutoff
    ensures Since(cutoff, s[j..]) == s[j..][if m <= j then 0 else m - j..]
  {
    SinceFrom(cutoff, s[j..], if m <= j then 0 else m - j);
  }

  lemma {:induction false} SinceSplit(cutoff: real, a: seq<Stamped>, b: seq<Stamped>)
    ensures Since(cutoff, a + b) == Since(cutoff, a) + Since(cutoff, b)
    decreases |b|
  {
    if b == [] {
      assert a + b == a;
    } else {
      assert (a + b)[..|a + b| - 1] == a + b[..|b| - 1];
      SinceSplit(cutoff, a, b[..|b| - 1]);
    }
  }

  lemma SinceStep(cutoff: real, s: seq<Stamped>, p: Stamped)
    ensures Since(cutoff, s + [p]) == if TimeOf(p) >= cutoff then Since(cutoff, s) + [p] else Since(cutoff, s)
  {
    assert (s + [p])[..|s|] == s;
    assert Since(cutoff, s) + [] == Since(cutoff, s);
  }

  lemma {:induction false} SinceTwice(c: real, c': real, s: seq<Stamped>)
    requires c <= c'
    ensures Since(c', Since(c, s)) == Since(c', s)
    ensures Since(c, Since(c', s)) == Since(c', s)
  {
    if s != [] {
      var n := |s| - 1;
      SinceTwice(c, c', s[..n]);
      assert s == s[..n] + [s[n]];
      SinceStep(c, s[..n], s[n]);
      SinceStep(c', s[..n], s[n]);
      SinceStep(c', Since(c, s[..n]), s[n]);
      SinceStep(c, Since(c', s[..n]), s[n]);
    }
  }

  lemma {:induction false} RowsSplit(n: string, a: seq<Row>, b: seq<Row>)
    ensures RowsOf(n, a + b) == RowsOf(n, a) + RowsOf(n, b)
    decreases |b|
  {
    if b == [] {
      assert a + b == a;
    } else {
      assert (a + b)[..|a + b| - 1] == a + b[..|b| - 1];
      RowsSplit(n, a, b[..|b| - 1]);
    }
  }

  lemma RowsStep(n: string, rows: seq<Row>, row: Row)
    ensures RowsOf(n, rows + [row]) == if row.node == n then RowsOf(n, rows) + [row.point] else RowsOf(n, rows)
  {
    assert (rows + [row])[..|rows|] == rows;
    assert RowsOf(n, rows) + [] == RowsOf(n, rows);
  }

  lemma SinceRowsStep(cutoff: real, rows: seq<Row>, row: Row)
    ensures SinceRows(cutoff, rows + [row])
         == if TimeOf(row.point) >= cutoff then SinceRows(cutoff, rows) + [row] else SinceRows(cutoff, rows)
  {
    assert (rows + [row])[..|rows|] == rows;
    assert SinceRows(cutoff, rows) + [] == SinceRows(cutoff, rows);
  }

  lemma {:induction false} PrunedRows(n: string, cutoff: real, rows: seq<Row>)
    ensures RowsOf(n, SinceRows(cutoff, rows)) == Since(cutoff, RowsOf(n, rows))
  {
    if rows != [] {
      var k := |rows| - 1;
      PrunedRows(n, cutoff, rows[..k]);
      assert rows == rows[..k] + [rows[k]];
      SinceRowsStep(cutoff, rows[..k], rows[k]);
      RowsStep(n, rows[..k], rows[k]);
      RowsStep(n, SinceRows(cutoff, rows[..k]), rows[k]);
      SinceStep(cutoff, RowsOf(n, rows[..k]), rows[k].point);
    }
  }

  lemma {:induction false} SinceMembers(cutoff: real, s: seq<Stamped>)
    ensures forall p <- Since(cutoff, s) :: p in s && TimeOf(p) >= cutoff
  {
    if s != [] {
      SinceMembers(cutoff, s[..|s| - 1]);
    }
  }

  // ---------------- the invariant ----------------

  lemma TimelyPush(s: seq<Stamped>, clock: real, p: Stamped)
    requires Timely(s, clock) && TimeOf(p) > clock
    ensures Timely(s + [p], TimeOf(p))
    ensures Timely(Push(HISTORY_LEN, s, p), TimeOf(p))
  {
    var t := s + [p];
    assert t[..|t| - 1] == s;
    TimelyLast(t, TimeOf(p));
  }

  lemma TimelyLast(s: seq<Stamped>, clock: real)
    requires Timely(s, clock)
    ensures Timely(Last(HISTORY_LEN, s), clock)
  {
    IncreasingSuffix(s, if |s| <= HISTORY_LEN then 0 else |s| - HISTORY_LEN);
  }

  lemma LastPush(cap: nat, b: seq<Stamped>, p: Stamped)
    ensures Last(cap, Last(cap, b) + [p]) == Last(cap, b + [p])
  {
  }

  /** Appending to a mirror and to what it mirrors. */
  lemma MirrorsPush(ring: seq<Stamped>, chain: seq<Stamped>, cutoff: real, clock: real, p: Stamped)
    requires Mirrors(ring, chain, cutoff)
    requires Timely(ring, clock) && Timely(chain, clock) && TimeOf(p) > clock
    ensures Mirrors(Push(HISTORY_LEN, ring, p), chain + [p], cutoff)
  {
    TimelyPush(ring, clock, p);
    SinceLast(cutoff, ring + [p], HISTORY_LEN);
    SinceStep(cutoff, ring, p);
    SinceStep(cutoff, chain, p);
    LastPush(HISTORY_LEN, Since(cutoff, chain), p);
    assert |Since(cutoff, ring)| <= HISTORY_LEN;
  }

  /** A prune takes the same entries out of what is seen of both, whether it is later or
      earlier than the cut-off so far. */
  lemma MirrorsPrune(ring: seq<Stamped>, table: seq<Stamped>, waiting: seq<Stamped>, c: real, cutoff: real, clock: real)
    requires Mirrors(ring, table + waiting, cutoff)
    requires Timely(ring, clock) && Timely(table + waiting, clock)
    ensures
      var cutoff' := if c > cutoff then c else cutoff;
      Mirrors(ring, Since(c, table) + waiting, cutoff')
    ensures Timely(Since(c, table) + waiting, clock)
  {
    var cutoff' := if c > cutoff then c else cutoff;
    var chain := table + waiting;
    SinceSplit(cutoff', table, waiting);
    SinceSplit(cutoff', Since(c, table), waiting);
    SinceTwice(c, cutoff', table);
    assert Since(cutoff', Since(c, table) + waiting) == Since(cutoff', chain);
    // both sides seen through the new cut-off
    SinceTwice(cutoff, cutoff', ring);
    SinceTwice(cutoff, cutoff', chain);
    SinceIncreasing(cutoff, chain);
    SinceLast(cutoff', Since(cutoff, chain), HISTORY_LEN);
    PrunedIncreasing(c, table, waiting, clock);
  }

  lemma SinceIncreasing(cutoff: real, s: seq<Stamped>)
    requires Increasing(s)
    ensures Increasing(Since(cutoff, s))
  {
    var m := Cut(cutoff, s);
    IncreasingSuffix(s, m);
  }

  lemma PrunedIncreasing(c: real, table: seq<Stamped>, waiting: seq<Stamped>, clock: real)
    requires Timely(table + waiting, clock)
    ensures Timely(Since(c, table) + waiting, clock)
  {
    var all := table + waiting;
    assert all[..|table|] == table;
    IncreasingPrefix(all, |table|);
    var m := Cut(c, table);
    assert table[m..] + waiting == all[m..];
    IncreasingSuffix(all, m);
  }

  // ---------------- what each step does to one ring and its chain ----------------

  lemma TracksPush(ring: seq<Stamped>, chain: seq<Stamped>, cutoff: real, clock: real, p: Stamped)
    requires Tracks(ring, chain, cutoff, clock) && TimeOf(p) > clock
    ensures Tracks(Push(HISTORY_LEN, ring, p), chain + [p], cutoff, TimeOf(p))
  {
    MirrorsPush(ring, chain, cutoff, clock, p);
    TimelyPush(ring, clock, p);
    TimelyPush(chain, clock, p);
  }

  lemma TracksLater(ring: seq<Stamped>, chain: seq<Stamped>, cutoff: real, clock: real, later: real)
    requires Tracks(ring, chain, cutoff, clock) && clock <= later
    ensures Tracks(ring, chain, cutoff, later)
  {
  }

  lemma TracksPrune(ring: seq<Stamped>, table: seq<Stamped>, waiting: seq<Stamped>, c: real, cutoff: real, clock: real)
    requires Tracks(ring, table + waiting, cutoff, clock)
    ensures Tracks(ring, Since(c, table) + waiting, if c > cutoff then c else cutoff, clock)
  {
    MirrorsPrune(ring, table, waiting, c, cutoff, clock);
  }

  lemma TracksReload(shot: seq<Stamped>, rows: seq<Stamped>, cutoff: real, clock: real)
    requires Tracks(shot, rows, cutoff, clock)
    ensures Tracks(Last(HISTORY_LEN, rows), rows, cutoff, clock)
    ensures Since(cutoff, Last(HISTORY_LEN, rows)) == Since(cutoff, shot)
  {
    SinceLast(cutoff, rows, HISTORY_LEN);
    TimelyLast(rows, clock);
  }

  // ---------------- every step keeps it ----------------

  lemma ChainAfterRecord(sys: System, row: Row, n: string, k: nat)
    requires Enabled(sys, Record(row)) && k <= |sys.queue|
    ensures Chain(Next(sys, Record(row)), n, k) == Chain(sys, n, k)
  {
    assert Next(sys, Record(row)).queue[..k] == sys.queue[..k];
  }

  lemma LastChainAfterRecord(sys: System, row: Row, n: string)
    requires Enabled(sys, Record(row))
    ensures
      var chain := Chain(sys, n, |sys.queue|);
      Chain(Next(sys, Record(row)), n, |sys.queue| + 1) == if row.node == n then chain + [row.point] else chain
  {
    var queue := Next(sys, Record(row)).queue;
    var before := sys.table + WaitingRows(sys.queue[..|sys.queue|]);
    assert sys.table + WaitingRows(queue[..|sys.queue| + 1]) == before + [row];
    RowsStep(n, before, row);
  }

  lemma ClockAfterRecord(sys: System, row: Row, n: string)
    requires Enabled(sys, Record(row))
    ensures ClockOf(sys, n) <= ClockOf(Next(sys, Record(row)), n)
    ensures row.node == n ==> ClockOf(sys, n) < TimeOf(row.point) == ClockOf(Next(sys, Record(row)), n)
  {
  }

  /** The ring that gets the sample goes on showing the whole chain. */
  lemma RecordShowsRing(sys: System, row: Row, n: string)
    requires Enabled(sys, Record(row)) && Shows(sys, n, At(sys.ring, n), |sys.queue|)
    ensures
      var sys' := Next(sys, Record(row));
      Shows(sys', n, At(sys'.ring, n), |sys.queue| + 1)
  {
    var ring, chain := At(sys.ring, n), Chain(sys, n, |sys.queue|);
    LastChainAfterRecord(sys, row, n);
    ClockAfterRecord(sys, row, n);
    if row.node == n {
      TracksPush(ring, chain, sys.cutoff, ClockOf(sys, n), row.point);
    } else {
      TracksLater(ring, chain, sys.cutoff, ClockOf(sys, n), ClockOf(Next(sys, Record(row)), n));
    }
  }

  lemma RecordShows(sys: System, row: Row, n: string, ring: seq<Stamped>, k: nat)
    requires Enabled(sys, Record(row)) && k <= |sys.queue| && Shows(sys, n, ring, k)
    ensures Shows(Next(sys, Record(row)), n, ring, k)
  {
    ChainAfterRecord(sys, row, n, k);
    ClockAfterRecord(sys, row, n);
    TracksLater(ring, Chain(sys, n, k), sys.cutoff, ClockOf(sys, n), ClockOf(Next(sys, Record(row)), n));
  }

  lemma RecordShowsOld(sys: System, row: Row, n: string, k: nat)
    requires Enabled(sys, Record(row)) && k < |sys.queue| && WaitingInv(sys, n, k)
    ensures WaitingInv(Next(sys, Record(row)), n, k)
  {
    RecordShows(sys, row, n, sys.queue[k].ringAfter, k + 1);
  }

  lemma RecordShowsNew(sys: System, row: Row, n: string)
    requires Enabled(sys, Record(row)) && row.node == n && Shows(sys, n, At(sys.ring, n), |sys.queue|)
    ensures WaitingInv(Next(sys, Record(row)), n, |sys.queue|)
  {
    var sys' := Next(sys, Record(row));
    assert sys'.queue[|sys.queue|].ringAfter == At(sys'.ring, n);
    RecordShowsRing(sys, row, n);
  }

  lemma RecordKeepsWaiting(sys: System, row: Row, n: string)
    requires Enabled(sys, Record(row)) && WaitingOk(sys, n)
    requires row.node == n ==> WaitingInv(Next(sys, Record(row)), n, |sys.queue|)
    ensures WaitingOk(Next(sys, Record(row)), n)
  {
    hide Shows;
    var sys' := Next(sys, Record(row));
    forall k | 0 <= k < |sys'.queue| && sys'.queue[k].row.node == n
      ensures WaitingInv(sys', n, k)
    {
      if k < |sys.queue| {
        assert sys'.queue[k] == sys.queue[k];
        RecordShowsOld(sys, row, n, k);
      }
    }
  }

  lemma RecordKeepsInv(sys: System, row: Row, n: string)
    requires Enabled(sys, Record(row)) && NodeInv(sys, n)
    ensures NodeInv(Next(sys, Record(row)), n)
  {
    hide Shows;
    if row.node == n {
      RecordShowsNew(sys, row, n);
    }
    RecordKeepsWaiting(sys, row, n);
    RecordShowsRing(sys, row, n);
    RecordShows(sys, row, n, At(sys.shot, n), 0);
  }

  lemma ChainAfterPersist(sys: System, n: string, k: nat)
    requires Enabled(sys, Persist) && k < |sys.queue|
    ensures Chain(Next(sys, Persist), n, k) == Chain(sys, n, k + 1)
  {
    var sys' := Next(sys, Persist);
    assert sys'.table + WaitingRows(sys'.queue[..k]) == sys.table + WaitingRows(sys.queue[..k + 1]);
  }

  lemma OtherNodeWritten(sys: System, n: string, ring: seq<Stamped>)
    requires Enabled(sys, Persist) && sys.queue[0].row.node != n && Shows(sys, n, ring, 0)
    ensures Shows(sys, n, ring, 1)
  {
    var row := sys.queue[0].row;
    assert sys.table + WaitingRows(sys.queue[..0]) == sys.table;
    assert sys.table + WaitingRows(sys.queue[..1]) == sys.table + [row];
    RowsStep(n, sys.table, row);
  }

  lemma PersistShows(sys: System, n: string, ring: seq<Stamped>, k: nat)
    requires Enabled(sys, Persist) && k < |sys.queue| && Shows(sys, n, ring, k + 1)
    ensures Shows(Next(sys, Persist), n, ring, k)
  {
    ChainAfterPersist(sys, n, k);
  }

  /** The sample that is written is the last one its node's `shot` shows. */
  lemma PersistShowsShot(sys: System, n: string)
    requires Enabled(sys, Persist) && NodeInv(sys, n)
    ensures Shows(Next(sys, Persist), n, At(Next(sys, Persist).shot, n), 0)
  {
    hide Shows;
    var w := sys.queue[0];
    if w.row.node == n {
      assert WaitingInv(sys, n, 0);
      PersistShows(sys, n, w.ringAfter, 0);
    } else {
      OtherNodeWritten(sys, n, At(sys.shot, n));
      PersistShows(sys, n, At(sys.shot, n), 0);
    }
  }

  lemma PersistKeepsWaiting(sys: System, n: string)
    requires Enabled(sys, Persist) && WaitingOk(sys, n)
    ensures WaitingOk(Next(sys, Persist), n)
  {
    hide Shows;
    var sys' := Next(sys, Persist);
    forall k | 0 <= k < |sys'.queue| && sys'.queue[k].row.node == n
      ensures WaitingInv(sys', n, k)
    {
      assert sys'.queue[k] == sys.queue[k + 1] && WaitingInv(sys, n, k + 1);
      PersistShows(sys, n, sys.queue[k + 1].ringAfter, k + 1);
    }
  }

  lemma PersistKeepsInv(sys: System, n: string)
    requires Enabled(sys, Persist) && NodeInv(sys, n)
    ensures NodeInv(Next(sys, Persist), n)
  {
    hide Shows;
    PersistKeepsWaiting(sys, n);
    PersistShows(sys, n, At(sys.ring, n), |sys.queue| - 1);
    PersistShowsShot(sys, n);
  }

  lemma ChainSplit(sys: System, n: string, k: nat)
    requires k <= |sys.queue|
    ensures Chain(sys, n, k) == RowsOf(n, sys.table) + RowsOf(n, WaitingRows(sys.queue[..k]))
  {
    RowsSplit(n, sys.table, WaitingRows(sys.queue[..k]));
  }

  lemma PruneShows(sys: System, c: real, n: string, ring: seq<Stamped>, k: nat)
    requires k <= |sys.queue| && Shows(sys, n, ring, k)
    ensures Shows(Next(sys, Prune(c)), n, ring, k)
  {
    ChainSplit(sys, n, k);
    ChainSplit(Next(sys, Prune(c)), n, k);
    PrunedRows(n, c, sys.table);
    TracksPrune(ring, RowsOf(n, sys.table), RowsOf(n, WaitingRows(sys.queue[..k])), c, sys.cutoff, ClockOf(sys, n));
  }

  lemma PruneKeepsWaiting(sys: System, c: real, n: string)
    requires WaitingOk(sys, n)
    ensures WaitingOk(Next(sys, Prune(c)), n)
  {
    hide Shows;
    var sys' := Next(sys, Prune(c));
    forall k | 0 <= k < |sys.queue| && sys.queue[k].row.node == n
      ensures WaitingInv(sys', n, k)
    {
      assert WaitingInv(sys, n, k);
      PruneShows(sys, c, n, sys.queue[k].ringAfter, k + 1);
    }
  }

  lemma PruneKeepsInv(sys: System, c: real, n: string)
    requires NodeInv(sys, n)
    ensures NodeInv(Next(sys, Prune(c)), n)
  {
    hide Shows;
    PruneKeepsWaiting(sys, c, n);
    PruneShows(sys, c, n, At(sys.ring, n), |sys.queue|);
    PruneShows(sys, c, n, At(sys.shot, n), 0);
  }

  lemma FirstChain(sys: System, n: string)
    ensures Chain(sys, n, 0) == RowsOf(n, sys.table)
  {
    assert sys.table + WaitingRows(sys.queue[..0]) == sys.table;
  }

  lemma RingAfterRestart(sys: System, n: string)
    ensures
      var ring := At(Next(sys, Restart).ring, n);
      ring == Loaded(n, sys.table) || (ring == [] && RowsOf(n, sys.table) == [])
  {
    NoRows(n, sys.table);
  }

  lemma ReloadedIsLast(sys: System, n: string)
    requires Increasing(RowsOf(n, sys.table))
    ensures At(Next(sys, Restart).ring, n) == Last(HISTORY_LEN, RowsOf(n, sys.table))
  {
    LoadedIsLast(n, sys.table);
    RingAfterRestart(sys, n);
  }

  /** What a restart reloads, and that it shows the table as well as the last shot does. */
  lemma Reloaded(sys: System, n: string)
    requires Shows(sys, n, At(sys.shot, n), 0)
    ensures
      var rows, ring := RowsOf(n, sys.table), At(Next(sys, Restart).ring, n);
      && ring == Last(HISTORY_LEN, rows) && Increasing(rows)
      && Tracks(ring, rows, sys.cutoff, ClockOf(sys, n))
      && Since(sys.cutoff, ring) == Since(sys.cutoff, At(sys.shot, n))
  {
    FirstChain(sys, n);
    ReloadedIsLast(sys, n);
    TracksReload(At(sys.shot, n), RowsOf(n, sys.table), sys.cutoff, ClockOf(sys, n));
  }

  lemma RestartShows(sys: System, n: string, ring: seq<Stamped>)
    requires Tracks(ring, RowsOf(n, sys.table), sys.cutoff, ClockOf(sys, n))
    ensures Shows(Next(sys, Restart), n, ring, 0)
  {
    FirstChain(Next(sys, Restart), n);
  }

  lemma RestartKeepsInv(sys: System, n: string)
    requires NodeInv(sys, n)
    ensures NodeInv(Next(sys, Restart), n)
  {
    Reloaded(sys, n);
    RestartShows(sys, n, At(Next(sys, Restart).ring, n));
    FirstChain(sys, n);
    RestartShows(sys, n, At(sys.shot, n));
  }

  lemma StepKeepsInv(sys: System, step: Step, n: string)
    requires Enabled(sys, step) && NodeInv(sys, n)
    ensures NodeInv(Next(sys, step), n)
  {
    match step
    case Record(row) => RecordKeepsInv(sys, row, n);
    case Persist => PersistKeepsInv(sys, n);
    case Prune(c) => PruneKeepsInv(sys, c, n);
    case Restart => RestartKeepsInv(sys, n);
  }

  lemma {:induction false} RunKeepsInv(start: System, steps: seq<Step>, n: string)
    requires Initial(start)
    ensures NodeInv(StateAfter(start, steps), n)
  {
    if steps == [] {
      assert start.table + WaitingRows(start.queue[..0]) == [];
    } else {
      var k := |steps| - 1;
      RunKeepsInv(start, steps[..k], n);
      var prev := StateAfter(start, steps[..k]);
      if Enabled(prev, steps[k]) {
        StepKeepsInv(prev, steps[k], n);
      }
    }
  }

  // ---------------- rows written after a later prune ----------------

  /** Step i writes a row that is older than a cut-off already pruned with, and no later prune
      takes the row out again. */
  ghost predicate WrittenLate(start: System, steps: seq<Step>, row: Row, i: nat)
    requires i < |steps|
  {
    var prev := StateAfter(start, steps[..i]);
    && steps[i] == Persist && prev.queue != [] && prev.queue[0].row == row
    && TimeOf(row.point) < prev.cutoff
    && forall j :: i < j < |steps| && steps[j].Prune? ==> steps[j].cutoff <= TimeOf(row.point)
  }

  ghost predicate SomeLate(start: System, steps: seq<Step>, row: Row) {
    exists i :: 0 <= i < |steps| && WrittenLate(start, steps, row, i)
  }

  predicate OldInTable(sys: System, row: Row) {
    row in sys.table && TimeOf(row.point) < sys.cutoff
  }

  lemma {:induction false} SinceRowsMember(cutoff: real, rows: seq<Row>, row: Row)
    ensures row in SinceRows(cutoff, rows) <==> row in rows && TimeOf(row.point) >= cutoff
  {
    if rows != [] {
      SinceRowsMember(cutoff, rows[..|rows| - 1], row);
      SplitLast(rows);
    }
  }

  lemma LateBefore(start: System, steps: seq<Step>, row: Row, i: nat)
    requires i + 1 < |steps|
    ensures
      var k := |steps| - 1;
      WrittenLate(start, steps, row, i)
      <==> WrittenLate(start, steps[..k], row, i) && (steps[k].Prune? ==> steps[k].cutoff <= TimeOf(row.point))
  {
    assert steps[..|steps| - 1][..i] == steps[..i];
  }

  lemma LateSplit(start: System, steps: seq<Step>, row: Row)
    requires steps != []
    ensures
      var k := |steps| - 1;
      SomeLate(start, steps, row)
      <==> WrittenLate(start, steps, row, k)
           || (SomeLate(start, steps[..k], row) && (steps[k].Prune? ==> steps[k].cutoff <= TimeOf(row.point)))
  {
    var k := |steps| - 1;
    if SomeLate(start, steps, row) {
      var i :| 0 <= i < |steps| && WrittenLate(start, steps, row, i);
      if i < k {
        LateBefore(start, steps, row, i);
      }
    }
    if SomeLate(start, steps[..k], row) {
      var i :| 0 <= i < k && WrittenLate(start, steps[..k], row, i);
      LateBefore(start, steps, row, i);
    }
  }

  lemma OldAfter(sys: System, step: Step, row: Row)
    requires Enabled(sys, step)
    ensures OldInTable(Next(sys, step), row)
       <==> (OldInTable(sys, row) && (step.Prune? ==> step.cutoff <= TimeOf(row.point)))
            || (step == Persist && sys.queue[0].row == row && TimeOf(row.point) < sys.cutoff)
  {
    if step.Prune? {
      SinceRowsMember(step.cutoff, sys.table, row);
    }
  }

  /** The rows in the table that are older than the latest cut-off are those written late. */
  lemma {:induction false} OldIsLate(start: System, steps: seq<Step>, row: Row)
    requires Initial(start)
    ensures OldInTable(StateAfter(start, steps), row) <==> SomeLate(start, steps, row)
  {
    if steps != [] {
      var k := |steps| - 1;
      var prev := StateAfter(start, steps[..k]);
      OldIsLate(start, steps[..k], row);
      LateSplit(start, steps, row);
      if Enabled(prev, steps[k]) {
        OldAfter(prev, steps[k], row);
      }
    }
  }

  // ---------------- the main theorem ----------------

  /** Of rows in time order, the newest are the newest of those from the cut-off on exactly if
      there are no others, or those fill the limit. */
  lemma NewestAreRecent(cutoff: real, rows: seq<Stamped>, k: nat)
    requires Increasing(rows)
    ensures Last(k, rows) == Last(k, Since(cutoff, rows))
       <==> (forall p <- rows :: TimeOf(p) >= cutoff) || |Last(k, Since(cutoff, rows))| == k
  {
    var m := Cut(cutoff, rows);
    if m > 0 {
      assert rows[0] in rows;
    }
  }

  /** After any run, with any number of earlier restarts: what a restart reloads for a node and
      its ring buffer as it stood at its last written sample are the same, in order, from the
      latest prune cut-off on. The reload shows nothing else exactly when none of the node's rows
      was written late, or the ring buffer was full of entries from the cut-off on. */
  lemma RestartInvisible(start: System, steps: seq<Step>, n: string)
    requires Initial(start)
    ensures
      var sys := StateAfter(start, steps);
      var reloaded, shown := At(Next(sys, Restart).ring, n), Since(sys.cutoff, At(sys.shot, n));
      && Since(sys.cutoff, reloaded) == shown
      && (reloaded == shown
          <==> (forall row: Row :: row.node == n ==> !SomeLate(start, steps, row)) || |shown| == HISTORY_LEN)
  {
    var sys := StateAfter(start, steps);
    var rows := RowsOf(n, sys.table);
    RunKeepsInv(start, steps, n);
    Reloaded(sys, n);
    NewestAreRecent(sys.cutoff, rows, HISTORY_LEN);
    SinceLast(sys.cutoff, rows, HISTORY_LEN);
    NoneOld(start, steps, n);
  }

  lemma NoneOld(start: System, steps: seq<Step>, n: string)
    requires Initial(start)
    ensures
      var sys := StateAfter(start, steps);
      (forall p <- RowsOf(n, sys.table) :: TimeOf(p) >= sys.cutoff)
      <==> (forall row: Row :: row.node == n ==> !SomeLate(start, steps, row))
  {
    var sys := StateAfter(start, steps);
    forall row: Row | row.node == n
      ensures SomeLate(start, steps, row) <==> row.point in RowsOf(n, sys.table) && TimeOf(row.point) < sys.cutoff
    {
      OldIsLate(start, steps, row);
      RowMember(n, sys.table, row.point);
      assert row == Row(n, row.point);
    }
    forall p <- RowsOf(n, sys.table) ensures SomeLate(start, steps, Row(n, p)) <==> TimeOf(p) < sys.cutoff {
      assert Row(n, p).node == n;
    }
  }

  lemma {:induction false} RowMember(n: string, rows: seq<Row>, p: Stamped)
    ensures p in RowsOf(n, rows) <==> Row(n, p) in rows
  {
    if rows != [] {
      RowMember(n, rows[..|rows| - 1], p);
      SplitLast(rows);
    }
  }

  /** No sample is written later than the retention allows: none that is still waiting is
      older than a prune's cut-off, and none is recorded with a time before it. */
  predicate InTime(sys: System, step: Step) {
    match step
    case Record(row) => TimeOf(row.point) >= sys.cutoff
    case Prune(c) => forall w <- sys.queue :: TimeOf(w.row.point) >= c
    case _ => true
  }

  ghost predicate AllInTime(start: System, steps: seq<Step>) {
    forall i :: 0 <= i < |steps| ==> InTime(StateAfter(start, steps[..i]), steps[i])
  }

  ghost predicate TableInTime(sys: System) {
    && (forall row <- sys.table :: TimeOf(row.point) >= sys.cutoff)
    && (forall w <- sys.queue :: TimeOf(w.row.point) >= sys.cutoff)
  }

  lemma {:induction false} RunInTime(start: System, steps: seq<Step>)
    requires Initial(start) && AllInTime(start, steps)
    ensures TableInTime(StateAfter(start, steps))
  {
    if steps != [] {
      var k := |steps| - 1;
      var prev := StateAfter(start, steps[..k]);
      forall i | 0 <= i < k ensures InTime(StateAfter(start, steps[..k][..i]), steps[..k][i]) {
        assert steps[..k][..i] == steps[..i];
      }
      RunInTime(start, steps[..k]);
      assert InTime(prev, steps[k]);
      if Enabled(prev, steps[k]) {
        if steps[k].Prune? {
          forall row <- Next(prev, steps[k]).table ensures row in prev.table && TimeOf(row.point) >= steps[k].cutoff {
            SinceRowsMember(steps[k].cutoff, prev.table, row);
          }
        }
      }
    }
  }

  /** So with a retention longer than the writing lag, a crash and restart do not show. */
  lemma RestartExact(start: System, steps: seq<Step>, n: string)
    requires Initial(start) && AllInTime(start, steps)
    ensures
      var sys := StateAfter(start, steps);
      At(Next(sys, Restart).ring, n) == Since(sys.cutoff, At(sys.shot, n))
  {
    RunInTime(start, steps);
    RestartInvisible(start, steps, n);
    forall row: Row | row.node == n ensures !SomeLate(start, steps, row) {
      OldIsLate(start, steps, row);
    }
  }

  /** With no retention to speak of, a sample that waits while the table is pruned is written
      afterwards and comes back although it is older than the cut-off. */
  lemma LateSampleComesBack(start: System, row: Row)
    requires Initial(start) && start.clock == map[] && start.epoch == 0.0 && start.cutoff == 0.0
    requires TimeOf(row.point) == 1.0
    ensures
      var sys := StateAfter(start, [Record(row), Prune(2.0), Persist]);
      && At(Next(sys, Restart).ring, row.node) == [row.point]
      && Since(sys.cutoff, At(sys.shot, row.node)) == []
  {
    var n, ring := row.node, [row.point];
    var s1 := Next(start, Record(row));
    var s2 := Next(s1, Prune(2.0));
    var s3 := Next(s2, Persist);
    ThreeSteps(start, Record(row), Prune(2.0), Persist);
    assert s3.table == [row] && s3.cutoff == 2.0;
    assert At(s1.ring, n) == ring && s2.queue == [Waiting(row, ring)];
    assert At(s3.shot, n) == ring;
    RowsStep(n, [], row);
    SinceStep(2.0, [], row.point);
    assert [] + [row] == [row] && [] + [row.point] == [row.point];
    ReloadedIsLast(s3, n);
  }

  lemma StateStep(start: System, steps: seq<Step>, step: Step)
    ensures StateAfter(start, steps + [step])
         == var prev := StateAfter(start, steps); if Enabled(prev, step) then Next(prev, step) else prev
  {
    assert (steps + [step])[..|steps|] == steps;
  }

  lemma ThreeSteps(s0: System, a: Step, b: Step, c: Step)
    requires Enabled(s0, a) && Enabled(Next(s0, a), b) && Enabled(Next(Next(s0, a), b), c)
    ensures StateAfter(s0, [a, b, c]) == Next(Next(Next(s0, a), b), c)
  {
    StateStep(s0, [], a);
    StateStep(s0, [a], b);
    StateStep(s0, [a, b], c);
    assert [] + [a] == [a] && [a] + [b] == [a, b] && [a, b] + [c] == [a, b, c];
  }
}
