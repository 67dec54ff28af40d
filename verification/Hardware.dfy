/** The one collection that need not agree: `hardware`, which the server replaces and the browser
    merges (backend/app/state.py, frontend/src/store.ts), in the states of the protocol. */
module Hardware {
  import opened Json
  import opened ServerState
  import opened Lossy
  import opened Protocol

  /** Once a browser is drained and has not lost the last message about a node: if it has heard of
      the node since it connected, a field of the replica's hardware record agrees exactly if the
      replica's latest values of the node still have it; if it has not, the whole record agrees. */
  lemma FieldsAgree(sys: System, b: Browser, n: string, f: Field)
    requires Reachable(sys) && Live(sys, b)
    ensures
      var s := sys.sessions[b.session.value];
      var server, c := sys.replicas[s.replica], Drained(b.snapshot, s);
      && c.Some?
      && (LastTouchSent(s, NodeMetricsSlot(n)) && Heard(LogOf(s), n) && f in RecordOf(server.hardware, n) ==>
            SameAsLatest(server, c.value, n, f))
      && (!Heard(LogOf(s), n) ==> RecordOf(c.value.hardware, n) == RecordOf(server.hardware, n))
  {
    Connected(sys, b);
    var s := sys.sessions[b.session.value];
    if !Heard(LogOf(s), n) {
      UnheardHardware(s.base, s.ops, Fates(s), n);
    } else if LastTouchSent(s, NodeMetricsSlot(n)) {
      HardwareExactly(s.base, s.ops, Fates(s), n, f);
    }
  }
}
