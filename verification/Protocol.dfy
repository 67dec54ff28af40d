/** The whole replication protocol as a state machine: replicas that mutate and publish, one
    `ws_state` loop with its queue per connection (backend/app/ws.py), sockets that deliver in
    order, and browsers that drop out and reconnect to any replica (frontend/src/store.ts). */
module Protocol {
  import opened Options
  import opened Ring
  import opened ServerState
  import opened ClientStore
  import opened Coupling
  import opened Lossy

  /** One connection. `queue`, `sent` and `delivered` are the program's; the rest records its
      history: what the browser held before, the state at subscription, the mutations since,
      and for each message that left the queue whether it was sent on or dropped. */
  datatype Session = Session(
    replica: nat, live: bool,
    before: Option<View>, base: View, ops: seq<Op>, kept: seq<bool>,
    queue: seq<Msg>, sent: seq<Frame>, delivered: nat
  )

  datatype Browser = Browser(snapshot: Option<View>, session: Option<nat>)

  datatype System = System(replicas: seq<View>, sessions: seq<Session>, browsers: seq<Browser>)

  datatype Step =
    | Mutate(r: nat, op: Op)          // a collector's call: the mutation and its publish, no await inside
    | Connect(b: nat, r: nat)         // subscribe and snapshot, no await in between
    | Forward(s: nat)                 // `q.get()` and `send_text`
    | Heartbeat(s: nat)
    | Deliver(b: nat)                 // the next frame reaches `onmessage`
    | Disconnect(b: nat)
    | Unsubscribe(s: nat)             // `finally: state.unsubscribe(q)`
    | Restart(r: nat, v: View)        // a replica dies and comes up with some state

  ghost predicate Enabled(sys: System, step: Step) {
    match step
    case Mutate(r, op) => r < |sys.replicas| && ValidOp(op)
    case Connect(b, r) => b < |sys.browsers| && sys.browsers[b].session.None? && r < |sys.replicas|
    case Forward(s) => s < |sys.sessions| && sys.sessions[s].live && sys.sessions[s].queue != []
    case Heartbeat(s) => s < |sys.sessions| && sys.sessions[s].live
    case Deliver(b) =>
      && b < |sys.browsers| && sys.browsers[b].session.Some?
      && sys.browsers[b].session.value < |sys.sessions|
      && sys.sessions[sys.browsers[b].session.value].delivered < |sys.sessions[sys.browsers[b].session.value].sent|
    case Disconnect(b) => b < |sys.browsers|
    case Unsubscribe(s) => s < |sys.sessions|
    case Restart(r, v) => r < |sys.replicas| && ServerInv(v)
  }

  /** A subscriber's queue when its replica performs a mutation. */
  function Offered(s: Session, server: View, op: Op): Session {
    var ms := Published(server, op);
    s.(ops := s.ops + [op],
       queue := OfferAll(s.queue, ms),
       kept := if ms != [] && |s.queue| >= QUEUE_LEN then s.kept + [false] else s.kept)
  }

  function Subscribed(s: Session, r: nat): bool {
    s.live && s.replica == r
  }

  ghost function Next(sys: System, step: Step): System
    requires Enabled(sys, step)
  {
    match step
    case Mutate(r, op) =>
      System(sys.replicas[r := After(sys.replicas[r], op)],
             seq(|sys.sessions|, i requires 0 <= i < |sys.sessions| =>
               if Subscribed(sys.sessions[i], r) then Offered(sys.sessions[i], sys.replicas[r], op)
               else sys.sessions[i]),
             sys.browsers)
    case Connect(b, r) =>
      var v, browser := sys.replicas[r], sys.browsers[b];
      sys.(sessions := sys.sessions + [Session(r, true, browser.snapshot, v, [], [], [], [FullState(v)], 0)],
           browsers := sys.browsers[b := browser.(session := Some(|sys.sessions|))])
    case Forward(s) =>
      var x := sys.sessions[s];
      sys.(sessions := sys.sessions[s := x.(queue := x.queue[1..], sent := x.sent + [Delta(x.queue[0])],
                                            kept := x.kept + [true])])
    case Heartbeat(s) =>
      var x := sys.sessions[s];
      sys.(sessions := sys.sessions[s := x.(sent := x.sent + [Ping])])
    case Deliver(b) =>
      var s := sys.browsers[b].session.value;
      var x := sys.sessions[s];
      sys.(sessions := sys.sessions[s := x.(delivered := x.delivered + 1)],
           browsers := sys.browsers[b := sys.browsers[b].(
             snapshot := Receive(sys.browsers[b].snapshot, x.sent[x.delivered]))])
    case Disconnect(b) => sys.(browsers := sys.browsers[b := sys.browsers[b].(session := None)])
    case Unsubscribe(s) => sys.(sessions := sys.sessions[s := sys.sessions[s].(live := false)])
    case Restart(r, v) =>
      sys.(replicas := sys.replicas[r := v],
           sessions := seq(|sys.sessions|, i requires 0 <= i < |sys.sessions| =>
             if Subscribed(sys.sessions[i], r) then sys.sessions[i].(live := false) else sys.sessions[i]))
  }

  /** At the start nobody is connected; browsers may hold anything. */
  ghost predicate Initial(sys: System) {
    && sys.sessions == []
    && (forall v <- sys.replicas :: ServerInv(v))
    && (forall b <- sys.browsers :: b.session.None?)
  }

  /** The state after some steps; a step that is not enabled does nothing. */
  ghost function StateAfter(start: System, steps: seq<Step>): System {
    if steps == [] then start
    else
      var prev := StateAfter(start, steps[..|steps| - 1]);
      var step := steps[|steps| - 1];
      if Enabled(prev, step) then Next(prev, step) else prev
  }

  ghost predicate Reachable(sys: System) {
    exists start: System, steps: seq<Step> :: Initial(start) && sys == StateAfter(start, steps)
  }

  function LogOf(s: Session): seq<Msg> {
    Log(s.base, s.ops)
  }

  /** The queue is the end of the log; what left it was sent on or dropped, in order, and a
      message is dropped only when 512 newer ones are waiting. */
  ghost predicate QueueExact(s: Session) {
    && |s.kept| <= |LogOf(s)|
    && s.queue == LogOf(s)[|s.kept|..]
    && |s.queue| <= QUEUE_LEN
    && Deltas(s.sent) == Kept(LogOf(s)[..|s.kept|], s.kept)
    && forall i :: 0 <= i < |s.kept| && !s.kept[i] ==> i + QUEUE_LEN < |LogOf(s)|
  }

  ghost predicate SessionInv(s: Session) {
    && ValidOps(s.ops)
    && ServerInv(s.base)
    && QueueExact(s)
    && s.sent != [] && s.sent[0] == FullState(s.base)
    && (forall i :: 1 <= i < |s.sent| ==> !s.sent[i].FullState?)
    && s.delivered <= |s.sent|
  }

  ghost predicate BrowserInv(sys: System, b: Browser) {
    b.session.Some? ==>
      && b.session.value < |sys.sessions|
      && var s := sys.sessions[b.session.value];
         s.delivered <= |s.sent| && b.snapshot == ReceiveAll(s.before, s.sent[..s.delivered])
  }

  ghost predicate Owned(sys: System) {
    forall a, b :: 0 <= a < b < |sys.browsers| && sys.browsers[a].session.Some?
      ==> sys.browsers[a].session != sys.browsers[b].session
  }

  ghost predicate InStep(sys: System, s: Session) {
    s.live ==> s.replica < |sys.replicas| && sys.replicas[s.replica] == RunOps(s.base, s.ops)
  }

  ghost predicate SystemInv(sys: System) {
    && (forall v <- sys.replicas :: ServerInv(v))
    && (forall s <- sys.sessions :: SessionInv(s) && InStep(sys, s))
    && (forall b <- sys.browsers :: BrowserInv(sys, b))
    && Owned(sys)
  }

  lemma OfferedInv(s: Session, op: Op)
    requires SessionInv(s) && ValidOp(op)
    ensures SessionInv(Offered(s, RunOps(s.base, s.ops), op))
  {
    var server := RunOps(s.base, s.ops);
    var ms, s' := Published(server, op), Offered(s, server, op);
    var log := LogOf(s);
    assert s'.ops[..|s.ops|] == s.ops;
    assert LogOf(s') == log + ms;
    if ms == [] {
      assert log + ms == log;
    } else {
      assert ms == [ms[0]];
      OfferedQueue(log, s.kept, s.queue, ms[0]);
      assert LogOf(s') == log + [ms[0]];
    }
    assert QueueExact(s');
  }

  /** One more message for a queue that is the end of the log. */
  lemma OfferedQueue(log: seq<Msg>, kept: seq<bool>, queue: seq<Msg>, m: Msg)
    requires |kept| <= |log| && queue == log[|kept|..] && |queue| <= QUEUE_LEN
    requires forall i :: 0 <= i < |kept| && !kept[i] ==> i + QUEUE_LEN < |log|
    ensures
      var log' := log + [m];
      var kept' := if |queue| >= QUEUE_LEN then kept + [false] else kept;
      && |kept'| <= |log'|
      && Offer(queue, m) == log'[|kept'|..]
      && Kept(log'[..|kept'|], kept') == Kept(log[..|kept|], kept)
      && forall i :: 0 <= i < |kept'| && !kept'[i] ==> i + QUEUE_LEN < |log'|
  {
    var log', k := log + [m], |kept|;
    if |queue| >= QUEUE_LEN {
      assert log'[k + 1..] == log[k + 1..] + [m];
      assert queue[1..] == log[k + 1..];
      assert log'[..k + 1][..k] == log[..k];
      assert (kept + [false])[..k] == kept;
      assert Kept(log'[..k + 1], kept + [false]) == Kept(log[..k], kept) + [];
    } else {
      assert log'[k..] == log[k..] + [m];
      assert log'[..k] == log[..k];
    }
  }

  lemma ForwardedInv(s: Session)
    requires SessionInv(s) && s.queue != []
    ensures SessionInv(s.(queue := s.queue[1..], sent := s.sent + [Delta(s.queue[0])], kept := s.kept + [true]))
  {
    var k, log := |s.kept|, LogOf(s);
    var sent' := s.sent + [Delta(s.queue[0])];
    assert sent'[..|s.sent|] == s.sent;
    assert log[..k + 1][..k] == log[..k] && log[..k + 1][k] == s.queue[0];
    assert (s.kept + [true])[..k] == s.kept;
    assert Kept(log[..k + 1], s.kept + [true]) == Kept(log[..k], s.kept) + [log[k]];
  }

  lemma HeartbeatInv(s: Session)
    requires SessionInv(s)
    ensures SessionInv(s.(sent := s.sent + [Ping]))
  {
    var sent' := s.sent + [Ping];
    assert sent'[..|s.sent|] == s.sent;
    assert Deltas(sent') == Deltas(s.sent) + [];
  }

  lemma UnsubscribedInv(s: Session)
    requires SessionInv(s)
    ensures SessionInv(s.(live := false))
  {
  }

  lemma ReceiveMore(snap: Option<View>, fs: seq<Frame>, k: nat)
    requires k < |fs|
    ensures ReceiveAll(snap, fs[..k + 1]) == Receive(ReceiveAll(snap, fs[..k]), fs[k])
  {
    assert fs[..k + 1][..k] == fs[..k];
  }

  /** Sent frames are only ever added, so what a browser has received stays received. */
  lemma ExtendedSession(sys: System, sys': System, b: Browser)
    requires BrowserInv(sys, b)
    requires |sys.sessions| <= |sys'.sessions|
    requires forall i :: 0 <= i < |sys.sessions| ==>
      && sys'.sessions[i].before == sys.sessions[i].before
      && sys'.sessions[i].delivered == sys.sessions[i].delivered
      && sys.sessions[i].sent <= sys'.sessions[i].sent
    ensures BrowserInv(sys', b)
  {
    if b.session.Some? {
      var s, s' := sys.sessions[b.session.value], sys'.sessions[b.session.value];
      assert s'.sent[..s.delivered] == s.sent[..s.delivered];
    }
  }

  lemma StepKeepsInv(sys: System, step: Step)
    requires SystemInv(sys) && Enabled(sys, step)
    ensures SystemInv(Next(sys, step))
  {
    match step
    case Mutate(r, op) => MutateKeepsInv(sys, step);
    case Connect(b, r) => ConnectKeepsInv(sys, step);
    case Deliver(b) => DeliverKeepsInv(sys, step);
    case Restart(r, v) => RestartKeepsInv(sys, step);
    case Disconnect(b) => DisconnectKeepsInv(sys, step);
    case _ => LoopKeepsInv(sys, step);
  }

  lemma LoopKeepsInv(sys: System, step: Step)
    requires SystemInv(sys) && Enabled(sys, step)
    requires step.Forward? || step.Heartbeat? || step.Unsubscribe?
    ensures SystemInv(Next(sys, step))
  {
    var x := sys.sessions[step.s];
    assert SessionInv(x);
    if step.Forward? {
      ForwardedInv(x);
      LocalKeepsInv(sys, step.s,
                    x.(queue := x.queue[1..], sent := x.sent + [Delta(x.queue[0])], kept := x.kept + [true]));
    } else if step.Heartbeat? {
      HeartbeatInv(x);
      LocalKeepsInv(sys, step.s, x.(sent := x.sent + [Ping]));
    } else {
      UnsubscribedInv(x);
      LocalKeepsInv(sys, step.s, x.(live := false));
    }
  }

  /** A step of one `ws_state` loop changes its own session only. */
  lemma LocalKeepsInv(sys: System, s: nat, x': Session)
    requires SystemInv(sys) && s < |sys.sessions| && SessionInv(x')
    requires
      var x := sys.sessions[s];
      && x.sent <= x'.sent
      && x'.before == x.before && x'.delivered == x.delivered && x'.base == x.base && x'.ops == x.ops
      && x'.replica == x.replica && (x'.live ==> x.live)
    ensures SystemInv(sys.(sessions := sys.sessions[s := x']))
  {
    var sys' := sys.(sessions := sys.sessions[s := x']);
    assert InStep(sys, sys.sessions[s]);
    forall x <- sys'.sessions ensures SessionInv(x) && InStep(sys', x) {
      if x != x' {
        assert x in sys.sessions;
        assert InStep(sys, x);
      }
    }
    forall b <- sys'.browsers ensures BrowserInv(sys', b) {
      ExtendedSession(sys, sys', b);
    }
  }

  lemma MutatedSession(sys: System, step: Step, i: nat)
    requires SystemInv(sys) && Enabled(sys, step) && step.Mutate? && i < |sys.sessions|
    ensures SessionInv(Next(sys, step).sessions[i]) && InStep(Next(sys, step), Next(sys, step).sessions[i])
  {
    hide SessionInv, After, Published, OfferAll, ServerInv;
    var s := sys.sessions[i];
    assert SessionInv(s) && InStep(sys, s);
    if Subscribed(s, step.r) {
      OfferedInv(s, step.op);
      assert (s.ops + [step.op])[..|s.ops|] == s.ops;
    }
  }

  lemma MutateKeepsInv(sys: System, step: Step)
    requires SystemInv(sys) && Enabled(sys, step) && step.Mutate?
    ensures SystemInv(Next(sys, step))
  {
    hide SessionInv, After, Published, OfferAll, ServerInv;
    var sys' := Next(sys, step);
    AfterKeepsInv(sys.replicas[step.r], step.op);
    forall x <- sys'.sessions ensures SessionInv(x) && InStep(sys', x) {
      var i :| 0 <= i < |sys'.sessions| && x == sys'.sessions[i];
      MutatedSession(sys, step, i);
    }
    forall b <- sys'.browsers ensures BrowserInv(sys', b) {
      assert BrowserInv(sys, b);
      ExtendedSession(sys, sys', b);
    }
  }

  lemma ConnectKeepsInv(sys: System, step: Step)
    requires SystemInv(sys) && Enabled(sys, step) && step.Connect?
    ensures SystemInv(Next(sys, step))
  {
    var sys' := Next(sys, step);
    var n := |sys.sessions|;
    var newest := sys'.sessions[n];
    assert Deltas(newest.sent[..0]) == [] && Deltas(newest.sent) == [];
    assert SessionInv(newest) && InStep(sys', newest);
    forall x <- sys'.sessions ensures SessionInv(x) && InStep(sys', x) {
      if x != newest {
        assert x in sys.sessions && InStep(sys, x);
      }
    }
    forall b <- sys'.browsers ensures BrowserInv(sys', b) {
      if b in sys.browsers {
        ExtendedSession(sys, sys', b);
      } else {
        assert newest.sent[..newest.delivered] == [];
      }
    }
    forall i, j | 0 <= i < j < |sys'.browsers| && sys'.browsers[i].session.Some?
      ensures sys'.browsers[i].session != sys'.browsers[j].session
    {
      assert BrowserInv(sys, sys.browsers[i]) && BrowserInv(sys, sys.browsers[j]);
    }
  }

  lemma DeliverKeepsInv(sys: System, step: Step)
    requires SystemInv(sys) && Enabled(sys, step) && step.Deliver?
    ensures SystemInv(Next(sys, step))
  {
    var sys' := Next(sys, step);
    var n := sys.browsers[step.b].session.value;
    var s := sys.sessions[n];
    assert SessionInv(s) && InStep(sys, s) && BrowserInv(sys, sys.browsers[step.b]);
    forall x <- sys'.sessions ensures SessionInv(x) && InStep(sys', x) {
      if x in sys.sessions {
        assert InStep(sys, x);
      }
    }
    ReceiveMore(s.before, s.sent, s.delivered);
    forall b <- sys'.browsers ensures BrowserInv(sys', b) {
      var i :| 0 <= i < |sys'.browsers| && b == sys'.browsers[i];
      assert BrowserInv(sys, sys.browsers[i]);
      if i != step.b && b.session.Some? {
        assert b.session.value != n;
      }
    }
  }

  lemma RestartKeepsInv(sys: System, step: Step)
    requires SystemInv(sys) && Enabled(sys, step) && step.Restart?
    ensures SystemInv(Next(sys, step))
  {
    var sys' := Next(sys, step);
    forall x <- sys'.sessions ensures SessionInv(x) && InStep(sys', x) {
      var i :| 0 <= i < |sys'.sessions| && x == sys'.sessions[i];
      assert SessionInv(sys.sessions[i]) && InStep(sys, sys.sessions[i]);
      UnsubscribedInv(sys.sessions[i]);
    }
    forall b <- sys'.browsers ensures BrowserInv(sys', b) {
      ExtendedSession(sys, sys', b);
    }
  }

  lemma DisconnectKeepsInv(sys: System, step: Step)
    requires SystemInv(sys) && Enabled(sys, step) && step.Disconnect?
    ensures SystemInv(Next(sys, step))
  {
    var sys' := Next(sys, step);
    forall x <- sys'.sessions ensures SessionInv(x) && InStep(sys', x) {
      assert InStep(sys, x);
    }
    forall b <- sys'.browsers ensures BrowserInv(sys', b) {
      if b in sys.browsers {
        ExtendedSession(sys, sys', b);
      }
    }
  }

  lemma {:induction false} RunKeepsSystemInv(start: System, steps: seq<Step>)
    requires Initial(start)
    ensures SystemInv(StateAfter(start, steps))
  {
    if steps != [] {
      var n := |steps| - 1;
      RunKeepsSystemInv(start, steps[..n]);
      var prev := StateAfter(start, steps[..n]);
      if Enabled(prev, steps[n]) {
        StepKeepsInv(prev, steps[n]);
      }
    }
  }

  lemma InvariantHolds(sys: System)
    requires Reachable(sys)
    ensures SystemInv(sys)
  {
    var start: System, steps: seq<Step> :| Initial(start) && sys == StateAfter(start, steps);
    RunKeepsSystemInv(start, steps);
  }

  // ---------------- what holds in every reachable state ----------------

  function Frames(msgs: seq<Msg>): seq<Frame> {
    seq(|msgs|, i requires 0 <= i < |msgs| => Delta(msgs[i]))
  }

  /** What a browser will show once everything on its socket and in its queue has arrived. */
  function Drained(snap: Option<View>, s: Session): Option<View>
    requires s.delivered <= |s.sent|
  {
    ReceiveAll(snap, s.sent[s.delivered..] + Frames(s.queue))
  }

  /** Sent or dropped, for every message of the log; what is still queued will be sent. */
  function Fates(s: Session): seq<bool> {
    s.kept + AllKept(|s.queue|)
  }

  function AllKept(n: nat): (r: seq<bool>)
    ensures |r| == n && forall i :: 0 <= i < n ==> r[i]
  {
    seq(n, _ => true)
  }

  lemma {:induction false} ReceiveSplit(snap: Option<View>, a: seq<Frame>, b: seq<Frame>)
    ensures ReceiveAll(snap, a + b) == ReceiveAll(ReceiveAll(snap, a), b)
    decreases |b|
  {
    if b == [] {
      assert a + b == a;
    } else {
      var n := |b| - 1;
      assert (a + b)[..|a + b| - 1] == a + b[..n];
      ReceiveSplit(snap, a, b[..n]);
    }
  }

  lemma {:induction false} DeltasOfFrames(fs: seq<Frame>, msgs: seq<Msg>)
    ensures Deltas(fs + Frames(msgs)) == Deltas(fs) + msgs
    decreases |msgs|
  {
    if msgs == [] {
      assert fs + Frames(msgs) == fs;
    } else {
      var n := |msgs| - 1;
      var all := fs + Frames(msgs);
      assert all[..|all| - 1] == fs + Frames(msgs[..n]);
      DeltasOfFrames(fs, msgs[..n]);
      assert msgs == msgs[..n] + [msgs[n]];
    }
  }

  /** What was sent and what is queued are the messages that were not dropped. */
  lemma SentAndQueued<X>(log: seq<X>, kept: seq<bool>, queue: seq<X>)
    requires |kept| == |log|
    ensures Kept(log + queue, kept + AllKept(|queue|)) == Kept(log, kept) + queue
  {
    KeptSplit(log, kept, queue, AllKept(|queue|));
    KeptAll(queue, AllKept(|queue|));
  }

  lemma FramesReceived(s: Session)
    requires SessionInv(s)
    ensures ReceiveAll(s.before, s.sent + Frames(s.queue)) == Some(ApplyAll(s.base, Deltas(s.sent) + s.queue))
  {
    ReceiveFullState(s.before, s.sent + Frames(s.queue));
    DeltasOfFrames(s.sent, s.queue);
  }

  /** Draining folds the kept messages over the state at subscription: the browser's older
      snapshot plays no part. */
  lemma DrainedIs(sys: System, b: Browser)
    requires SystemInv(sys) && b in sys.browsers && b.session.Some?
    ensures b.session.value < |sys.sessions|
    ensures
      var s := sys.sessions[b.session.value];
      && SessionInv(s)
      && |Fates(s)| == |LogOf(s)|
      && Drained(b.snapshot, s) == Some(ApplyAll(s.base, Kept(LogOf(s), Fates(s))))
  {
    assert BrowserInv(sys, b);
    var s := sys.sessions[b.session.value];
    assert SessionInv(s);
    SessionDrains(s);
  }

  lemma SessionDrains(s: Session)
    requires SessionInv(s)
    ensures |Fates(s)| == |LogOf(s)|
    ensures Drained(ReceiveAll(s.before, s.sent[..s.delivered]), s)
         == Some(ApplyAll(s.base, Kept(LogOf(s), Fates(s))))
  {
    hide ReceiveAll, ApplyAll, Kept, LogOf, Deltas, ServerInv, ValidOps, Frames;
    SentFirst(s);
    FramesReceived(s);
    var log, k := LogOf(s), |s.kept|;
    assert log == log[..k] + s.queue;
    SentAndQueued(log[..k], s.kept, s.queue);
  }

  lemma SentFirst(s: Session)
    requires s.delivered <= |s.sent|
    ensures Drained(ReceiveAll(s.before, s.sent[..s.delivered]), s) == ReceiveAll(s.before, s.sent + Frames(s.queue))
  {
    hide ReceiveAll, Frames;
    var early, late := s.sent[..s.delivered], s.sent[s.delivered..] + Frames(s.queue);
    assert s.sent + Frames(s.queue) == early + late;
    ReceiveSplit(s.before, early, late);
  }

  /** The connected browser's session, and its replica's state as a run of mutations. */
  lemma Connected(sys: System, b: Browser)
    requires Reachable(sys) && b in sys.browsers && b.session.Some?
    ensures SystemInv(sys) && b.session.value < |sys.sessions|
    ensures
      var s := sys.sessions[b.session.value];
      && SessionInv(s)
      && (s.live ==> s.replica < |sys.replicas| && sys.replicas[s.replica] == RunOps(s.base, s.ops))
      && |Fates(s)| == |LogOf(s)|
      && Drained(b.snapshot, s) == Some(ApplyAll(s.base, Kept(LogOf(s), Fates(s))))
  {
    InvariantHolds(sys);
    DrainedIs(sys, b);
    assert InStep(sys, sys.sessions[b.session.value]);
  }

  ghost predicate Live(sys: System, b: Browser) {
    && b in sys.browsers && b.session.Some? && b.session.value < |sys.sessions|
    && sys.sessions[b.session.value].live
    && sys.sessions[b.session.value].delivered <= |sys.sessions[b.session.value].sent|
    && sys.sessions[b.session.value].replica < |sys.replicas|
  }

  /** Coupling: in every reachable state, a browser whose queue has dropped nothing is only
      behind. Once drained it agrees with its replica, whatever it held before connecting. */
  lemma CouplingHolds(sys: System, b: Browser)
    requires Reachable(sys) && Live(sys, b)
    requires forall i :: 0 <= i < |sys.sessions[b.session.value].kept| ==> sys.sessions[b.session.value].kept[i]
    ensures
      var s := sys.sessions[b.session.value];
      var c := Drained(b.snapshot, s);
      c.Some? && Agrees(sys.replicas[s.replica], c.value)
  {
    Connected(sys, b);
    var s := sys.sessions[b.session.value];
    KeptAll(LogOf(s), Fates(s));
    ReplayAgrees(s.base, s.ops);
  }

  /** Reconnecting, to any replica and with any old snapshot, is as good as a first visit. */
  lemma ReconnectHolds(sys: System, i: nat, r: nat)
    requires Reachable(sys) && Enabled(sys, Connect(i, r))
    ensures
      var sys' := Next(sys, Connect(i, r));
      var b := sys'.browsers[i];
      && Live(sys', b)
      && Drained(b.snapshot, sys'.sessions[b.session.value]) == Some(sys.replicas[r])
      && Agrees(sys'.replicas[r], sys.replicas[r])
  {
    var sys' := Next(sys, Connect(i, r));
    var s := sys'.sessions[|sys.sessions|];
    assert s.sent[0..] + Frames([]) == [FullState(sys.replicas[r])];
    assert [FullState(sys.replicas[r])][..0] == [];
  }

  /** A closed connection: nothing is queued for it or sent to it any more, whatever happens. */
  ghost predicate ClosedAs(s: Session, t: Session) {
    !t.live && t.queue == s.queue && t.sent == s.sent && t.kept == s.kept
  }

  /** `finally: state.unsubscribe(q)` closes a connection for good. */
  lemma {:induction false} ClosedForGood(sys: System, steps: seq<Step>, s: nat)
    requires Enabled(sys, Unsubscribe(s))
    ensures |StateAfter(Next(sys, Unsubscribe(s)), steps).sessions| >= |sys.sessions|
    ensures ClosedAs(sys.sessions[s], StateAfter(Next(sys, Unsubscribe(s)), steps).sessions[s])
  {
    if steps != [] {
      ClosedForGood(sys, steps[..|steps| - 1], s);
    }
  }

  /** The queue in every reachable state, however slow its reader. */
  lemma QueuesExact(sys: System, s: Session)
    requires Reachable(sys) && s in sys.sessions
    ensures QueueExact(s) && |s.queue| <= 512
  {
    InvariantHolds(sys);
  }

  /** The last message that touches the slot was not dropped. */
  ghost predicate LastTouchSent(s: Session, slot: Slot) {
    |Fates(s)| == |LogOf(s)| && LastTouchKept(LogOf(s), Fates(s), slot)
  }

  /** Lossy convergence of a keyed entry whose last message was not dropped. */
  lemma EntryConverges(sys: System, b: Browser, slot: Slot)
    requires Reachable(sys) && Live(sys, b)
    ensures
      var s := sys.sessions[b.session.value];
      var c := Drained(b.snapshot, s);
      && c.Some?
      && (LastTouchSent(s, slot) ==> Shown(c.value, slot) == Shown(sys.replicas[s.replica], slot))
      && (LastTouchSent(s, slot) ==> SameSlot(c.value, sys.replicas[s.replica], slot))
  {
    Connected(sys, b);
    var s := sys.sessions[b.session.value];
    if LastTouchSent(s, slot) {
      SlotConverges(s.base, s.ops, Fates(s), slot);
      ShownAlike(Drained(b.snapshot, s).value, sys.replicas[s.replica], slot);
    }
  }

  /** One of the newest 512 messages touches the slot. */
  ghost predicate RecentlyTouched(s: Session, slot: Slot) {
    exists i :: 0 <= i < |LogOf(s)| <= i + QUEUE_LEN && Touches(LogOf(s)[i], slot)
  }

  /** So every entry touched by one of the newest 512 messages converges. */
  lemma RecentEntryConverges(sys: System, b: Browser, slot: Slot)
    requires Reachable(sys) && Live(sys, b)
    ensures
      var s := sys.sessions[b.session.value];
      var c := Drained(b.snapshot, s);
      && c.Some?
      && (RecentlyTouched(s, slot) ==>
            && Shown(c.value, slot) == Shown(sys.replicas[s.replica], slot)
            && SameSlot(c.value, sys.replicas[s.replica], slot))
  {
    Connected(sys, b);
    var s := sys.sessions[b.session.value];
    if RecentlyTouched(s, slot) {
      RecentIsSent(s, slot);
    }
    EntryConverges(sys, b, slot);
  }

  lemma RecentIsSent(s: Session, slot: Slot)
    requires SessionInv(s) && |Fates(s)| == |LogOf(s)| && RecentlyTouched(s, slot)
    ensures LastTouchSent(s, slot)
  {
    hide Touches, Log;
    var log := LogOf(s);
    var i :| 0 <= i < |log| <= i + QUEUE_LEN && Touches(log[i], slot);
    forall j | 0 <= j < |log| && Touches(log[j], slot) && !Fates(s)[j]
      ensures exists later :: j < later < |log| && Touches(log[later], slot)
    {
      assert j < i;
    }
  }

  /** From some message on, none about the ring was dropped, and they append its full capacity or
      empty it. */
  ghost predicate WholeSince(s: Session, id: RingId, from: nat) {
    && from <= |Fates(s)| == |LogOf(s)|
    && (forall i :: from <= i < |Fates(s)| && !Fates(s)[i] ==> Effect(LogOf(s)[i], id) == Ignore)
    && var late := Effects(LogOf(s)[from..], id);
       Appends(late) >= Capacity(id) || Reset in late
  }

  /** A history that got its full capacity of samples with none dropped is whole again. */
  lemma HistoryHeals(sys: System, b: Browser, id: RingId, from: nat)
    requires Reachable(sys) && Live(sys, b)
    ensures
      var s := sys.sessions[b.session.value];
      var c := Drained(b.snapshot, s);
      && c.Some?
      && (WholeSince(s, id, from) ==> RingOf(c.value, id) == RingOf(sys.replicas[s.replica], id))
      && (WholeSince(s, id, from) ==> SameRing(c.value, sys.replicas[s.replica], id))
  {
    Connected(sys, b);
    var s := sys.sessions[b.session.value];
    if WholeSince(s, id, from) {
      RingHeals(s.base, s.ops, Fates(s), id, from);
      RingsAlike(Drained(b.snapshot, s).value, sys.replicas[s.replica], id);
    }
  }

  /** Before that, the browser's histories never exceed the server's capacities: not once it is
      drained, and not at any time since its full state arrived. */
  lemma HistoryBounded(sys: System, b: Browser, id: RingId)
    requires Reachable(sys) && b in sys.browsers && b.session.Some?
    ensures Capacity(id) == (match id case NodeRing(_) => 1080 case CheckRing(_) => 500 case EventRing => 200)
    ensures b.session.value < |sys.sessions|
    ensures
      var s := sys.sessions[b.session.value];
      && s.delivered <= |s.sent|
      && Drained(b.snapshot, s).Some?
      && |RingOf(Drained(b.snapshot, s).value, id)| <= Capacity(id)
      && (s.delivered > 0 ==> b.snapshot.Some? && |RingOf(b.snapshot.value, id)| <= Capacity(id))
  {
    Connected(sys, b);
    var s := sys.sessions[b.session.value];
    ClientRings(s.base, Kept(LogOf(s), Fates(s)), id);
    if s.delivered > 0 {
      assert BrowserInv(sys, b);
      var received := s.sent[..s.delivered];
      ReceiveFullState(s.before, received);
      ClientRings(s.base, Deltas(received), id);
    }
  }
}
