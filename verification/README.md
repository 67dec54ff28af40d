# PiWatch, modelled and proved in Dafny

PiWatch shows the state of a small Kubernetes cluster in a browser. Its backend keeps the cluster's
state in memory, publishes one delta per change to every connected browser, and stores the node time
series in a table; collectors feed that state; a reducer in the browser rebuilds it from the deltas;
an offline part trains and evaluates an anomaly detector. This project models those parts and proves
what they promise each other, over every run.

`dafny verify dfyconfig.toml` verifies all modules. One module stands for one component:

* **Replication.** `ServerState` is the cluster state: `After` and `Published` say what each mutation
  does and which delta it sends, and the class `ClusterState` does the same by updating dictionaries,
  ring buffers and subscriber queues in place. `ClientStore` is the browser's reducer. `Coupling` joins
  the two, `Lossy` says what survives when a full queue drops messages, and `Protocol` is the state
  machine around them: replicas, one `ws_state` loop and queue per connection, sockets, browsers that
  disconnect and reconnect to any replica, and replicas that die. `Isolation` shows that connections do
  not influence each other, `Hardware` which fields of the one collection that differs agree.
* **Persistence.** `History` has the table, pruning and reloading as methods, and a state machine of
  recording, writing, pruning and restarting. `Persister` adds the real queue of 512 messages and the
  loop that empties it, with drops and crashes.
* **Watching.** `Watch` follows the list-and-watch loop of a resource kind against the cluster's own
  history of changes; `EndToEnd` chains it with replication, from the cluster to the browser.
* **Autochecks.** `RouteChecks` derives the probes from Gateway API status; `AutoChecks` is the
  reconciler that starts and cancels one probe loop per check.
* **Arithmetic and text.** `Token` and `Base64` (login tokens), `Duration` (Go durations), `Rates`
  (byte rates from counters), `Dataset`, `Scoring` and `Injection` (the detector's data), `Folds` and
  `Tiles` (partitions), `Ownership` (pods of a Deployment).
* `Basics`, `Json`, `Options`, `Reals`, `Ring` and `Rounding` hold what the others share.

Clocks, random draws, probe results, the HMAC, the square root, the measured spread of a series and the
detector's reconstruction error are parameters. The eleven keyed dictionaries of the state, which
behave alike, are one map from (kind, key); the eight that every poll replaces are one map from section.

## What the proofs found

* A delivered `node_metrics` delta can be merged or can replace the browser's record with the same
  result, because the server's record of a node never loses a field (`Coupling.MergeCovers`).
* `hardware` is replaced on the server and merged in the browser. Once a browser has heard of a node,
  a field of the server's hardware record agrees if and only if the server's latest values of the node
  still have it; until then the whole record agrees (`Hardware.FieldsAgree`). After a hardware sample and
  a metrics sample that both carry a field, the server's record has the first value and the browser's
  the second (`Lossy.HardwareDiffers`).
* The state equals the filtered cluster at a key if and only if the key is not a ghost: its deletion was
  missed, and the last change the loop was told about put up an object that passes the filter. A run of
  six steps leaves one behind (`Watch.Fidelity`, `Watch.GhostRun`), and a relist keeps it
  (`Watch.GhostSurvivesRelist`).
* A restart shows exactly the ring buffer's entries from the latest prune cut-off on if and only if none
  of the node's rows was written after a later prune cut-off and is still there, or the ring buffer was
  full of such entries (`History.RestartInvisible`; `History.LateSampleComesBack` is a run that shows more).
* Concatenated durations parse to the sum unless a text ending in "m" is followed by an "s"
  (`Duration.FindPrinted`).
* Scoring the first rows gives the first scores, for every detector and scaler, if and only if every
  feature that is ever observed has been observed by then (`Scoring.CausalExactly`). Under the same
  condition filling the gaps before the split changes nothing in the training data
  (`Dataset.FillingFirstIsHarmless`); the rows before the split decide them whatever comes later if and
  only if every feature is observed there, or nothing comes later (`Dataset.LeakageExactly`).
* A labelled row is unchanged if and only if, in every column, the hits that cover it cancel. Where the
  hits of a column push the same way, that means each has a zero amount or is a drift that starts there
  (`Injection.LabelledYetUnchanged`); two overlapping plateaus of opposite sign cancel with neither
  (`Injection.OppositePlateausCancel`).
* With counters that do not go back, the rates account for the whole increase if and only if no complete
  poll with a positive gain met a clock that had not advanced (`Rates.StandingClockLosesGain`).
* A fully updated pod with two container images is reported as a mixed rollout
  (`Ownership.SidecarLooksLikeDrift`).

## Model

| member | source | states |
|---|---|---|
| Protocol.CouplingHolds | backend/app/ws.py:38-53 | In every reachable state, a browser whose queue has dropped nothing agrees with its replica in all collections (of `hardware`, in the fields that metrics samples never write) once it has drained its queue, whatever it held before connecting. |
| Protocol.ReconnectHolds | frontend/src/store.ts:228-242 | Connecting to any replica with any old snapshot gives that replica's state, as on a first visit. |
| Protocol.QueuesExact | backend/app/state.py:109-121 | A queue is always the end of what was published since subscription, at most 512 messages; what left it was sent or dropped, in order, and a message is dropped only with 512 newer ones waiting. |
| Protocol.ClosedForGood | backend/app/ws.py:52-55 | Once its loop has unsubscribed, a connection is sent and queued nothing more, whatever happens. |
| Protocol.EntryConverges | backend/app/state.py:109-121 | A keyed entry is the replica's after draining if the last message about it was not dropped: the same object or items, the same fields of a sample, the same configuration, result and uptime of a check. |
| Protocol.RecentEntryConverges | backend/app/state.py:109-121 | In particular every entry that one of the newest 512 messages touched. |
| Protocol.HistoryHeals | frontend/src/store.ts:132-196 | A node's charted values, a check's results or the events are whole again, place by place, once their full capacity has been appended (or the check deleted) with no message about them dropped, whatever was lost before. |
| Protocol.HistoryBounded | frontend/src/store.ts:132-196 | From its full state on, at every time and once drained, a browser holds at most 1080 points of a node, 500 results of a check and 200 events. |
| Hardware.FieldsAgree | frontend/src/store.ts:159 | For a node of which a browser has heard, and not lost the last message, a field of the replica's hardware record agrees if and only if the replica's latest values of the node still have it; for a node it has not heard of the whole record agrees. |
| Isolation.StalledNeighbours | backend/app/state.py:109-121 | Over whole runs, a connection's queue, sent and lost messages are the same whether all other connections keep up or none of them ever takes a message. |
| Isolation.OnlyTheirs | backend/app/ws.py:43-51 | In the run it is compared with, the other loops neither forward nor send, and all other steps stay, in order. |
| Protocol.DrainedIs | frontend/src/store.ts:228-233 | Receiving all frames folds the undropped deltas over the state at subscription; older snapshots play no part. |
| Protocol.InvariantHolds | backend/app/ws.py:29-53 | Every step of mutating, connecting, forwarding, delivering, disconnecting and restarting keeps the protocol's invariant. |
| Protocol.StepKeepsInv | backend/app/ws.py:29-53 | The single step of that induction. |
| Coupling.StepAgrees | frontend/src/store.ts:48-205 | A mutation on the server and its delta in the reducer keep server and browser in agreement. |
| Coupling.ReplayAgrees | frontend/src/store.ts:48-205 | So does any history of mutations, starting from a snapshot. |
| Coupling.MergeCovers | frontend/src/store.ts:158 | Merging a node delta into the browser's record gives the delta's record. |
| Coupling.SampleSeries | frontend/src/store.ts:144-160 | A sample keeps the two time series equal in all fields but the time. |
| Coupling.BrowserCharts | frontend/src/store.ts:132-160 | Whatever a browser held, after a sample's message its newest point has each of the nine latest values of the server, at the message's time, behind the newest 1079 points before it. |
| ClientStore.SamePoint | frontend/src/store.ts:144-155 | The browser's own list of chart fields makes the point that the server's list makes. |
| Coupling.CheckEntryAgrees | frontend/src/store.ts:179-196 | From a result message and an equal history the browser computes the server's whole entry. |
| Coupling.CheckHeadline | frontend/src/store.ts:179-196 | Whatever it held, it gets the server's configuration, last result and uptime from the message alone. |
| Coupling.MetricsKeepHardware | backend/app/state.py:219-239 | A metrics-server sample leaves the hardware fields of a node's latest values alone. |
| Lossy.SlotConverges | backend/app/state.py:109-121 | For any set of dropped messages, an entry agrees if the last message touching it was kept. |
| Lossy.RingHeals | frontend/src/store.ts:132-196 | For any dropped messages, a history agrees once a stretch without losses for it holds its capacity of appends, or a deletion. |
| Lossy.NodeSlotAgrees | frontend/src/store.ts:158 | A node delta repairs the browser's record even after losses. |
| Lossy.HardwareIsLatest | frontend/src/store.ts:159 | For any lost messages but the last about a node, the browser's hardware record shows the node's latest values. |
| Lossy.HardwareDiffers | backend/app/state.py:219-239 | From any state, after a hardware and a metrics sample that both carry a field, the server's hardware record has the first value and the browser's the second. |
| Lossy.ServerRing | backend/app/state.py:215-301 | Each mutation acts on each of the server's histories exactly as its published message says. |
| Lossy.ClientRing | frontend/src/store.ts:132-201 | The reducer acts on the browser's histories in the same way. |
| Ring.Heal | frontend/src/store.ts:160 | Two bounded histories that see the same appends are equal after a capacity's worth of them, or one reset. |
| Ring.SliceIsPush | frontend/src/store.ts:160 | Slicing off the newest cap - 1 elements and appending is the deque's append. |
| ClientStore.ReceiveFullState | frontend/src/store.ts:228-233 | A full state replaces the snapshot; the deltas after it are folded, pings ignored. |
| ServerState.AfterKeepsInv | backend/app/state.py:125-301 | Every mutation keeps the capacities, keeps "node" out of the latest values, and keeps every hardware field that metrics samples do not write among them. |
| ServerState.SampleIsCharted | backend/app/state.py:219-225 | After a metrics or hardware sample the node's newest point is at the clock reading and has each of the nine latest values; a latest value is the sample's where it has one, otherwise the one before; older points and other nodes are untouched. |
| ServerState.ResultIsRecorded | backend/app/state.py:277-287 | A recorded result, with its verdict, latency and detail, becomes the check's latest and the newest of at most 500; the configuration is the given one, other checks are untouched. |
| ServerState.UptimeIsShare | backend/app/state.py:283-287 | Uptime in hundredths of a percent is the integer nearest to 10000 times the good results over all kept ones, ties to even; it is 100 or 0 exactly when all or none are good. |
| ServerState.Published | backend/app/state.py:125-301 | A mutation publishes at most one delta, and none only if it changed nothing. |
| ServerState.ClusterState.constructor | backend/app/state.py:41-98 | The state starts empty, without subscribers, and within the invariant. |
| ServerState.ClusterState.Subscribe | backend/app/state.py:101-104 | A new empty queue is added. |
| ServerState.ClusterState.Unsubscribe | backend/app/state.py:106-107 | A queue is removed. |
| ServerState.ClusterState.Publish | backend/app/state.py:109-121 | Every queue gets the message, losing its oldest one only if full, independently of the others. |
| ServerState.ClusterState.Upsert | backend/app/state.py:125-209 | Performs the upsert and publishes it to all queues. |
| ServerState.ClusterState.Remove | backend/app/state.py:130-213 | Performs the removal, of a pod's metrics too, and publishes it. |
| ServerState.ClusterState.AddEventObject | backend/app/state.py:215-217 | Appends to the 200-event tail and publishes. |
| ServerState.ClusterState.RecordNode | backend/app/state.py:219-225 | Merges the sample, appends to the series and publishes the merged values. |
| ServerState.ClusterState.RecordPod | backend/app/state.py:227-230 | Replaces the pod's sample and publishes it. |
| ServerState.ClusterState.RecordHardwareSample | backend/app/state.py:232-239 | Replaces the hardware record and records the sample. |
| ServerState.ClusterState.ReplaceSection | backend/app/state.py:241-275 | Replaces a polled collection and publishes it. |
| ServerState.ClusterState.RecordCheckResult | backend/app/state.py:277-294 | Updates a check's configuration, results and uptime and publishes them. |
| ServerState.ClusterState.RemoveCheckEntry | backend/app/state.py:296-301 | Removes and publishes only a check that is there. |
| History.RestartInvisible | backend/app/collectors/history.py:69-142 | After any run with any number of restarts, what a restart reloads equals the ring buffer at the last written sample from the latest prune cut-off on; it shows nothing else if and only if no row of the node was written after a later prune cut-off and kept since, or the ring buffer was full of entries from the cut-off on. |
| History.OldIsLate | backend/app/collectors/history.py:125-139 | The rows older than the latest cut-off are exactly those written late and not pruned since. |
| History.RestartExact | backend/app/collectors/history.py:69-142 | If no sample is written later than the retention allows, a crash and restart do not show. |
| History.LateSampleComesBack | backend/app/collectors/history.py:125-139 | The retention matters: a sample pruned in memory's view but still waiting reappears. |
| History.StepKeepsInv | backend/app/collectors/history.py:69-142 | Recording, writing, pruning and restarting keep table and waiting samples a mirror of the ring buffer. |
| History.OrderIsUnique | backend/app/collectors/history.py:99-105 | With rising times, ordering by descending time leaves the database no choice. |
| History.LoadedIsLast | backend/app/collectors/history.py:97-105 | Reloading gives a node's newest 1080 rows, oldest first. |
| History.PersistedIsAppended | backend/app/collectors/history.py:129-134 | The nine values and the time in a published sample are those of the entry appended in memory. |
| History.Database.Insert | backend/app/collectors/history.py:69-75 | Appends a row. |
| History.Database.Prune | backend/app/collectors/history.py:78-82 | Deletes exactly the rows older than the cut-off and counts them. |
| History.Database.SelectNewest | backend/app/collectors/history.py:99-103 | The node's newest rows up to the limit, newest first. |
| Persister.ReloadShowsSurvivors | backend/app/collectors/history.py:97-139 | After any run with any drops from the full queue and any crashes, a reload is the newest 1080 rows of the node, and from the latest prune cut-off on these are the newest of exactly the samples neither dropped nor lost in a crash. |
| Persister.RowIsAppended | backend/app/collectors/history.py:129-134 | The row taken from any published message is the entry that the mutation appended in memory, under its node, and there is none where it appended nothing. |
| Persister.RowsAreAppended | backend/app/collectors/history.py:126-134 | The same for every message of any history of mutations. |
| Persister.ReloadShowsAppended | backend/app/collectors/history.py:97-139 | For a queue fed by mutations, with any drops and crashes, a reload shows from the cut-off on the newest of exactly the entries those mutations appended in memory whose message was not lost. |
| Persister.LosslessReload | backend/app/collectors/history.py:97-139 | If nothing was dropped, the reload shows what the ring buffer showed at the last written sample, from the cut-off on. |
| Persister.RunRefines | backend/app/collectors/history.py:112-142 | Without drops the bounded queue makes the same table, cut-off and waiting samples as the machine whose restarts are invisible. |
| Persister.SurvivorsAfter | backend/app/state.py:109-121 | Only a message taken from the queue survives; publishing, dropping, pruning and crashing add none. |
| Persister.StepKeepsInv | backend/app/collectors/history.py:112-142 | Queue, time order and the table's account of the survivors are kept by every step. |
| Persister.RunPersister | backend/app/collectors/history.py:122-142 | Whatever is published while the loop lives, its inserts and deletes make the table of the machine's steps; the cluster state stays as it is and every other subscriber is offered every message. |
| History.LoadStartupHistory | backend/app/collectors/history.py:85-109 | Every node's series is what its rows say. |
| Watch.Fidelity | backend/app/collectors/k8s_watch.py:316-420 | At every point of every run of listing, watching and reconnecting, an object in the cluster is shown exactly if it passes its kind's filter, with its latest value; a key shows what the filtered cluster holds if and only if it is not a ghost (deletion missed, last told change passes the filter). |
| Watch.ShownByKind | backend/app/collectors/k8s_watch.py:376-418 | In every state of every run an existing Service is shown exactly if it is a load balancer, a Secret unless a service account or Helm keeps it, a ConfigMap unless it is `kube-root-ca.crt`, a volume exactly if Released or Failed, and any other object always, as it is. |
| Watch.GhostRun | backend/app/collectors/k8s_watch.py:356-373 | A run of add, break, delete and relist ends connected and up to date with the log, showing an object the cluster no longer has. |
| Watch.GhostSurvivesRelist | backend/app/collectors/k8s_watch.py:356-360 | A relist leaves a key that is not in the cluster as it was, and it is a ghost afterwards exactly if something was shown. |
| Watch.StepKeepsInv | backend/app/collectors/k8s_watch.py:316-373 | Each step shows what the changes told to the loop make it, and the loop has been told the last change of everything that exists. |
| Watch.ListedKey | backend/app/collectors/k8s_watch.py:357-360 | Applying a list is being told the last change of each living key, and nothing else. |
| Watch.ApplyIsValid | backend/app/collectors/k8s_watch.py:376-418 | An object is always stored and published under its own key. |
| Watch.Apply | backend/app/collectors/k8s_watch.py:376-418 | Upserts what passes the filter and removes what does not or was deleted, in the state and in every queue. |
| Watch.Seed | backend/app/collectors/k8s_watch.py:357-360 | Applies a list in order, to the state and to every queue. |
| EndToEnd.ClusterReachesBrowser | backend/app/collectors/k8s_watch.py:316-420 | A browser that connects at any time and loses any messages but the last one about a key shows under that key the cluster's object as its kind demands, and what the filtered cluster holds if and only if the key is not a ghost of the watch. |
| EndToEnd.OpsReachState | backend/app/collectors/k8s_watch.py:356-367 | A watch run is a run of the state's mutations. |
| AutoChecks.Lifecycle | backend/app/collectors/autochecks.py:179-220 | Under every interleaving there is at most one uncancelled loop per name and one for every desired check, and recorded checks are desired or configured. |
| AutoChecks.RemovedStaysRemoved | backend/app/collectors/autochecks.py:209-212 | A dropped check's cancelled loop never records again. |
| AutoChecks.CancelledForGood | backend/app/collectors/autochecks.py:197-220 | A cancelled loop stays cancelled. |
| AutoChecks.HeadFindsCheck | backend/app/collectors/autochecks.py:184-186 | An uncancelled loop always finds its check. |
| AutoChecks.ShutdownStopsAll | backend/app/collectors/autochecks.py:218-220 | After shutdown no loop is active. |
| AutoChecks.StepKeepsInv | backend/app/collectors/autochecks.py:179-220 | Tasks, loops and desired checks stay in correspondence. |
| AutoChecks.Reconciler.ReconcilePass | backend/app/collectors/autochecks.py:206-215 | One pass stops exactly the loops that are not wanted, takes their results out of the cluster state and publishes that, touches nothing else there, and starts one loop for each name without one. |
| AutoChecks.Reconciler.ResumeLoop | backend/app/collectors/autochecks.py:179-194 | A loop's step from one await to the next is the machine's step. An uncancelled loop that awaited a probe performs exactly the `record_check` of its name with that probe's verdict, latency and detail and the probed check's configuration; every other resumption leaves the cluster state and all queues alone. |
| AutoChecks.Reconciler.RecordProbe | backend/app/collectors/autochecks.py:186-193 | Afterwards the check's latest and newest result are that probe's and its configuration describes the probed check. |
| AutoChecks.ConfigDescribes | backend/app/collectors/autochecks.py:187-192 | A route is described by its address, https exactly if its listener uses TLS, a Service by its reference and port. |
| AutoChecks.Reconciler.StopDropped | backend/app/collectors/autochecks.py:209-212 | Cancels and forgets the loops whose check is gone; state and queues are what removing those checks one by one makes of them. |
| AutoChecks.Reconciler.StartMissing | backend/app/collectors/autochecks.py:213-215 | Creates the missing loops. |
| RouteChecks.RouteChecksExact | backend/app/collectors/autochecks.py:82-108 | A hostname has a check if and only if some accepted and resolved route offers it through a backed, listening parent; the last such route and parent decide the check. |
| RouteChecks.RouteChecksMean | backend/app/collectors/autochecks.py:57-108 | In terms of the status alone: a hostname has a check if and only if there is an offer (accepted and resolved route, known gateway, the first Service with one of its addresses and a cluster IP, the listener that serves the hostname with a port), and the last offer gives address, port and TLS. |
| RouteChecks.ListenerServes | backend/app/collectors/autochecks.py:57-68 | The listener is the first HTTP(S) one of the hostname itself, and only where there is none the first without a hostname. |
| RouteChecks.FromRoutesIsLast | backend/app/collectors/autochecks.py:85-107 | The deciding route and parent are the last in iteration order. |
| RouteChecks.DeriveRouteChecks | backend/app/collectors/autochecks.py:82-108 | The nested loops fill exactly those checks. |
| RouteChecks.AddHostnames | backend/app/collectors/autochecks.py:97-107 | One parent sets the checks of the hostnames it offers and no other. |
| RouteChecks.MapHttpRoute | backend/app/collectors/gateway.py:81-130 | Accepted means some parent reported and all agree; parent names and namespaces have equal length, a missing namespace is the route's own. |
| RouteChecks.HoldsExactly | backend/app/collectors/gateway.py:34-35 | The first condition of a type decides. |
| RouteChecks.NamedInOrder | backend/app/collectors/gateway.py:88-90 | The named parents keep their order. |
| Token.TokenRoundTrip | backend/app/auth.py:42-61 | A token made at t0 verifies at t, on every replica with the same secret, if and only if t is before the truncated t0 plus the time to live. |
| Token.TokenLife | backend/app/auth.py:42-61 | A token is good until less than a second before its time to live is over, and never after. |
| Token.Truncated | backend/app/auth.py:43 | Truncation is towards zero and takes off less than one. |
| Token.AcceptedIsSigned | backend/app/auth.py:48-61 | What is accepted at all: exactly a payload with its own signature and an expiry in the future. |
| Token.ParsePrinted | backend/app/auth.py:43-58 | Reading a printed integer gives it back. |
| Token.LastDotUnique | backend/app/auth.py:53 | Splitting at the last dot separates payload and dot-free signature. |
| Base64.DecodeEncode | backend/app/auth.py:44-58 | Decoding inverts encoding (RFC 4648 section 5), for all byte strings. |
| Base64.StripRepadDecode | backend/app/auth.py:44-58 | Stripping the padding and restoring it by length loses nothing. |
| Base64.UnpaddedDecodes | backend/app/auth.py:57-58 | Any text without padding decodes if and only if it is ASCII and its symbols, all else skipped, come in fours, each giving three bytes. |
| Base64.AlphabetExactly | backend/app/auth.py:58 | Which characters are symbols and what each is worth. |
| Duration.FindPrinted | backend/app/collectors/flux.py:34-48 | Printed tokens in front of any text are found again if and only if the text does not begin with an "s" after a final "m". |
| Duration.ParsePrinted | backend/app/collectors/flux.py:40-48 | Printing any list of durations and parsing gives exactly their sum. |
| Duration.ParseIsAdditive | backend/app/collectors/flux.py:40-48 | Parsing is additive over concatenation of any two well-formed texts, an empty one adding nothing. |
| Duration.ParseWhole | backend/app/collectors/flux.py:35-48 | A whole number and a unit is read as that many units. |
| Duration.UnitsInSeconds | backend/app/collectors/flux.py:34-48 | The printed n with each unit is n times 3600, 60, 1, a thousandth, a millionth (two spellings) or a billionth. |
| Duration.ParseDecimal | backend/app/collectors/flux.py:34-48 | A number with a fraction is the number of all its digits with the point moved by as many places. |
| Duration.NoBacktracking | backend/app/collectors/flux.py:34 | Any other way to read a token at a place differs only by "m" where "ms" stands, so the regular expression never has to back up. |
| Duration.MatchIsPrefix | backend/app/collectors/flux.py:34 | What is matched is the text there. |
| Rates.RatesConserveBytes | backend/app/node_agent.py:275-293 | Over polls at rising times with counters that do not go back, the reported bytes differ from the counter's increase by at most half the elapsed time. |
| Rates.ReportedIsClose | backend/app/node_agent.py:447-467 | For every run, resets included: never negative, and within half the covered time of the bytes gained on the polls that gave a rate. |
| Rates.MissingPollsLoseNothing | backend/app/node_agent.py:353-371 | Polls without counters can be left out. |
| Rates.StandingClockLosesGain | backend/app/node_agent.py:281-289 | Over a run with counters that do not go back, the polls that gave a rate account for the counter's whole increase if and only if no complete poll with a positive gain met a standing clock. |
| Rates.StandingPollLosesGain | backend/app/node_agent.py:281-289 | For one poll, resets included: its gain goes unreported exactly if it is positive and the clock has not advanced. |
| Rates.Meter.IoRate | backend/app/node_agent.py:275-293 | A rate is given exactly for a complete poll after an earlier one; the sample is remembered before the clock is compared. |
| Rates.Meter.Run | backend/app/node_agent.py:275-293 | A run of polls reports what the specification of whole runs adds up. |
| Rounding.Round | backend/app/node_agent.py:290-293 | Nearest integer, ties to the even one. |
| Dataset.NoLeakage | ml/model/dataset.py:99-108 | Two data sets with the same rows before the split, whose features are settled there, give the same scaler and training windows. |
| Dataset.LeakageExactly | ml/model/dataset.py:99-108 | The rows before the split decide scaler and training windows, whatever comes later, if and only if every feature is observed among them or nothing comes later. |
| Dataset.FillingFirstIsHarmless | ml/model/dataset.py:99-108 | Training data are those prepared from the rows before the split alone if and only if every feature that is observed at all is observed there. |
| Dataset.FillTake | ml/model/dataset.py:94-96 | The same condition for whole frames: filling the first rows alone is filling everything and taking them. |
| Dataset.NoStraddling | ml/model/dataset.py:99-108 | Training windows end before the split, validation windows begin at or after it. |
| Dataset.FillPrefix | ml/model/dataset.py:94-96 | Filling a prefix is the prefix of filling if and only if it is empty, has an observed value, or there is none at all. |
| Dataset.FillKeepsAndCloses | ml/model/dataset.py:94-96 | Filling keeps observed values and leaves no gap where anything was observed. |
| Dataset.FillIdempotent | ml/model/dataset.py:94-96 | Filling twice is filling once. |
| Dataset.FillAt | ml/model/dataset.py:94-96 | Before the first observed row the forward fill of that row, afterwards the forward fill. |
| Dataset.GapFilled | ml/model/dataset.py:94-96 | A gap holds the last observed value before it, and where there is none the first observed value of all. |
| Dataset.WindowAt | ml/model/dataset.py:61-67 | Window i is the stretch of rows at i times the stride, and exactly those that fit are there. |
| Dataset.ScaleBack | ml/model/dataset.py:47-51 | The inverse transformation undoes the transformation. |
| Dataset.TrainingIsNormalized | ml/model/dataset.py:40-49 | The training windows are cut from rows in which every observed feature has mean zero, and unit variance unless it is constant, when it is zero throughout. |
| Dataset.SplitAt | ml/model/dataset.py:70-75 | The split is the whole part of the rows times the training fraction. |
| Scoring.CausalExactly | ml/model/score.py:40-61 | Scoring the first k rows gives the first k scores, for every error, scaler and window size, if and only if every feature that is observed at all is observed among them. |
| Scoring.ScoringIsCausal | ml/model/score.py:40-61 | The direction that holds for one detector. |
| Scoring.ScoresUseTrainingWindows | ml/model/score.py:55-60 | The scored windows are the stride-1 windows of training, one per row from the first complete one on. |
| Scoring.LateFeatureLeaks | ml/model/dataset.py:88-95 | With a feature first observed later, some detector's scores of the first rows differ. |
| Scoring.ScoreSeries | ml/model/score.py:40-61 | Each row's score is the error of the window ending there, 0 where none is complete. |
| Injection.UnlabelledIsUnchanged | ml/evaluation/rolling_compare.py:60-71 | For every draw, a row without a label is unchanged in every column. |
| Injection.InjectAllColumns | ml/evaluation/rolling_compare.py:60-71 | Each column is the clean one plus its hits, and the mask is exactly the union of all hits. |
| Injection.InjectColumn | ml/evaluation/rolling_compare.py:66-70 | The injectors add up on one column and label what they cover. |
| Injection.InjectPoints | ml/data/inject_anomalies.py:35-49 | Adds one spike per draw and reports it. |
| Injection.InjectContextual | ml/data/inject_anomalies.py:52-70 | Adds one plateau per draw, cut off at the end. |
| Injection.InjectDrift | ml/data/inject_anomalies.py:73-94 | Adds one ramp per draw, cut off at the end. |
| Injection.RampIsEven | ml/data/inject_anomalies.py:90-91 | A ramp rises from zero to its whole amount in even steps. |
| Injection.DriftReaches | ml/data/inject_anomalies.py:87-92 | A drift alone on its first and last row leaves the first unchanged and adds its whole amount to the last. |
| Injection.EventsToLabelMask | ml/data/inject_anomalies.py:97-103 | A row is set if and only if some event covers it. |
| Injection.EventsInBounds | ml/data/inject_anomalies.py:62-69 | Every event lies within the series. |
| Injection.LabelledYetUnchanged | ml/evaluation/rolling_compare.py:60-71 | A row is unchanged in all columns if and only if in each the covering hits cancel; hits that push the same way cancel exactly if each has a zero amount or is a drift that starts there. |
| Injection.SoleHitChanges | ml/data/inject_anomalies.py:41-93 | A row covered by one hit is unchanged if and only if the hit has a zero amount or is a drift that starts there. |
| Injection.OppositePlateausCancel | ml/data/inject_anomalies.py:63-69 | Two overlapping plateaus of opposite sign leave a labelled row as it was. |
| Folds.FoldsPartition | ml/evaluation/rolling_compare.py:105-108 | The folds joined in order are the held-out region, and differ by at most one row. |
| Folds.OneFoldPerRow | ml/evaluation/rolling_compare.py:105-108 | Every row lies in exactly one fold. |
| Folds.BoundsCutEvenly | ml/evaluation/rolling_compare.py:105 | The bounds run from 0 to the end with steps of the rounded-down size or one more. |
| Folds.FoldsToEvaluate | ml/evaluation/rolling_compare.py:107-114 | The loop evaluates the long enough folds, in order. |
| Folds.NothingSkipped | ml/evaluation/rolling_compare.py:109-114 | No fold is skipped if and only if the rounded-down fold size holds two windows. |
| Folds.CountsScale | ml/evaluation/rolling_compare.py:45-57 | An event count is the integer nearest to base times fold length over reference length, ties to even, or one where that is none; never above the full-scale count, and equal to it on the whole region. |
| Tiles.BalancedColumns | frontend/src/components.tsx:20-24 | The chosen columns fit, need exactly the rows of greedy filling, are the fewest that do, and leave fewer empty slots than rows. |
| Tiles.MaxColumnsFit | frontend/src/components.tsx:21 | The greatest column count that fits the width with its gaps. |
| Ownership.ClaimsExactlyGenerated | frontend/src/pages.tsx:1041-1045 | A Deployment claims exactly the names made of its own, a hash and a suffix without hyphens. |
| Ownership.UniqueOwner | frontend/src/pages.tsx:1041-1045 | No pod name is claimed by two Deployment names. |
| Ownership.DriftIsExact | frontend/src/pages.tsx:1037-1051 | No drift is reported exactly when all replicas are updated and the pods in the namespace with a name made for the Deployment run at most one image; otherwise the replica numbers or exactly the running images are reported. |
| Ownership.OtherPodsDoNotMatter | frontend/src/pages.tsx:1028-1045 | Pods of another Deployment, however its name begins, have no influence. |
| Ownership.SidecarLooksLikeDrift | frontend/src/pages.tsx:1046-1049 | One updated pod with two images is reported as drift. |

## Left out

- Equality of `hardware` between server and browser: the code does not provide it; `Hardware.FieldsAgree` says which fields agree.
- Times of the browser's series: the browser takes the message's time, the server the sample's; all other fields are compared.
- JSON: undefined and null are not told apart, and serialization itself is not modelled.
- Events in `Watch`: every relist appends all events again; the list-and-watch model covers the eleven keyed kinds.
- Watch.Fidelity: is stated for the changes the loop has passed (its list or stream position), not for changes still to come; BOOKMARK and ERROR events of the stream are not modelled.
- Watch.Seed: the deltas of one list carry one publish time in the model.
- History.RestartInvisible: assumes rising sample times for each node, no dropped message (`Persister.ReloadShowsSurvivors` allows drops) and no failed write; the prune cut-off is the highest so far.
- Persister.RunPersister: a failed insert and an exception in a prune are not modelled; a sample always carries its time.
- History.LoadStartupHistory: an unreadable file (starting empty) is not modelled.
- AutoChecks.Lifecycle: loops that end by an unexpected exception are not modelled; a cancelled probe is taken to raise at its await.
- `service_checks`: its keys and values are the fields of the Services; only the reconciler's use of the joined dictionary is modelled.
- RouteChecks.MapHttpRoute: reason, message and backend names are not modelled; neither are `_map_gateway` and `_map_rate_limit_policy`.
- Token.ParsePrinted: `int()` also accepts surrounding whitespace, underscores and non-ASCII digits, which are not modelled; a payload that is not ASCII after decoding counts as malformed.
- Token.TokenRoundTrip: the signature is any dot-free function; the comparison in constant time and non-ASCII signatures are not modelled.
- Duration.ParsePrinted: values are exact reals, where the program adds floating-point numbers; `\d` matches ASCII digits only.
- Rates.RatesConserveBytes: the quotient is exact before rounding.
- ServerState.UptimeIsShare: rounding to two decimals is exact, where the program rounds a binary fraction.
- Dataset.TrainingIsNormalized: for an exact square root, and for features that are observed somewhere.
- Dataset.NoLeakage: reals instead of floating-point numbers; the split fraction is between 0 and 1.
- Scoring.ScoreSeries: the model scores each window on its own, as the network does in evaluation mode; thresholds (`flag`) are not modelled.
- Injection.InjectAllColumns: draws may repeat a start, which the program's sampling without replacement excludes; spreads are real numbers, so a series too short for a standard deviation is not modelled.
- Folds.FoldsPartition: the bounds are exact quotients, where `linspace` multiplies by a floating-point step.
- Backoff timers, heartbeats' timing, log streaming over `ws_logs`, the CSV report, demo data, Telegram messages, HTTP routes, charts and styling.
- Training of the detector, the baselines and the metrics computed from their flags.
