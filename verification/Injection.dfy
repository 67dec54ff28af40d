/** Synthetic anomalies with ground-truth labels (ml/data/inject_anomalies.py) and their
    composition over all feature columns (ml/evaluation/rolling_compare.py). Random choices and
    the measured standard deviation are parameters. */
module Injection {
  import opened Basics
  import opened Reals

  type Series = seq<real>

  datatype Event = Event(start: nat, end: nat)

  /** The three injectors with their settings. */
  datatype Injector =
    | Point(magnitude: real)
    | Contextual(duration: nat, magnitude: real)
    | Drift(duration: nat, totalShift: real)

  /** What one call draws: where, in which direction, and the series' spread. */
  datatype Draw = Draw(starts: seq<nat>, signs: seq<real>, std: real)

  /** The exclusive bound of `rng.choice` for the starts. */
  function StartBound(inj: Injector, length: nat): nat {
    match inj
    case Point(_) => length
    case Contextual(duration, _) => Max(length - duration, 1)
    case Drift(duration, _) => Max(length - duration, 1)
  }

  predicate Possible(inj: Injector, d: Draw, length: nat) {
    && |d.signs| == |d.starts|
    && forall k :: 0 <= k < |d.starts| ==> d.starts[k] < StartBound(inj, length)
  }

  /** An event together with the amount that was added. */
  datatype Hit = Hit(inj: Injector, event: Event, amount: real)

  function HitOf(inj: Injector, d: Draw, length: nat, k: nat): Hit
    requires Possible(inj, d, length) && k < |d.starts|
  {
    var s := d.starts[k];
    match inj
    case Point(magnitude) => Hit(inj, Event(s, s + 1), d.signs[k] * magnitude * d.std)
    case Contextual(duration, magnitude) =>
      Hit(inj, Event(s, Min(s + duration, length)), d.signs[k] * magnitude * d.std)
    case Drift(duration, totalShift) =>
      Hit(inj, Event(s, Min(s + duration, length)), d.signs[k] * totalShift * d.std)
  }

  function HitsOf(inj: Injector, d: Draw, length: nat): (r: seq<Hit>)
    requires Possible(inj, d, length)
    ensures |r| == |d.starts|
    ensures forall k :: 0 <= k < |r| ==> r[k] == HitOf(inj, d, length, k)
  {
    seq(|d.starts|, k requires 0 <= k < |d.starts| => HitOf(inj, d, length, k))
  }

  predicate Covers(e: Event, i: nat) {
    e.start <= i < e.end
  }

  /** `np.linspace(0, total, m)[j]`. */
  function Ramp(total: real, m: nat, j: nat): real {
    if m <= 1 then 0.0 else total * j as real / (m - 1) as real
  }

  /** What a hit adds to row i. */
  function Added(h: Hit, i: nat): real {
    if !Covers(h.event, i) then 0.0
    else if h.inj.Drift? then Ramp(h.amount, h.event.end - h.event.start, i - h.event.start)
    else h.amount
  }

  function TotalAdded(hits: seq<Hit>, i: nat): real {
    if hits == [] then 0.0 else TotalAdded(hits[..|hits| - 1], i) + Added(hits[|hits| - 1], i)
  }

  /** `out` is `series` with the hits added on top of each other. */
  ghost predicate Perturbed(series: Series, hits: seq<Hit>, out: Series) {
    && |out| == |series|
    && forall i :: 0 <= i < |series| ==> out[i] == series[i] + TotalAdded(hits, i)
  }

  lemma PerturbedStep(series: Series, hits: seq<Hit>, out: Series, h: Hit, out': Series)
    requires Perturbed(series, hits, out) && |out'| == |out|
    requires forall i :: 0 <= i < |out| ==> out'[i] == out[i] + Added(h, i)
    ensures Perturbed(series, hits + [h], out')
  {
    assert (hits + [h])[..|hits|] == hits;
  }

  // ---------------- the injectors ----------------

  method InjectPoints(series: Series, inj: Injector, d: Draw) returns (out: Series, events: seq<Event>)
    requires inj.Point? && Possible(inj, d, |series|)
    ensures Perturbed(series, HitsOf(inj, d, |series|), out)
    ensures events == EventsOf(HitsOf(inj, d, |series|))
  {
    out, events := series, [];
    ghost var hits := HitsOf(inj, d, |series|);
    for k := 0 to |d.starts|
      invariant Perturbed(series, hits[..k], out)
      invariant events == EventsOf(hits[..k])
    {
      ghost var before := out;
      var s := d.starts[k];
      out := out[s := out[s] + d.signs[k] * inj.magnitude * d.std];
      events := events + [Event(s, s + 1)];
      assert hits[..k + 1] == hits[..k] + [hits[k]];
      PerturbedStep(series, hits[..k], before, hits[k], out);
    }
    assert hits[..|hits|] == hits;
  }

  method InjectContextual(series: Series, inj: Injector, d: Draw) returns (out: Series, events: seq<Event>)
    requires inj.Contextual? && Possible(inj, d, |series|)
    ensures Perturbed(series, HitsOf(inj, d, |series|), out)
    ensures events == EventsOf(HitsOf(inj, d, |series|))
  {
    out, events := series, [];
    ghost var hits := HitsOf(inj, d, |series|);
    for k := 0 to |d.starts|
      invariant Perturbed(series, hits[..k], out)
      invariant events == EventsOf(hits[..k])
    {
      ghost var before := out;
      var s := d.starts[k];
      var end := Min(s + inj.duration, |series|);
      var amount := d.signs[k] * inj.magnitude * d.std;
      out := seq(|out|, i requires 0 <= i < |out| => if s <= i < end then out[i] + amount else out[i]);
      events := events + [Event(s, end)];
      assert hits[..k + 1] == hits[..k] + [hits[k]];
      PerturbedStep(series, hits[..k], before, hits[k], out);
    }
    assert hits[..|hits|] == hits;
  }

  method InjectDrift(series: Series, inj: Injector, d: Draw) returns (out: Series, events: seq<Event>)
    requires inj.Drift? && Possible(inj, d, |series|)
    ensures Perturbed(series, HitsOf(inj, d, |series|), out)
    ensures events == EventsOf(HitsOf(inj, d, |series|))
  {
    out, events := series, [];
    ghost var hits := HitsOf(inj, d, |series|);
    for k := 0 to |d.starts|
      invariant Perturbed(series, hits[..k], out)
      invariant events == EventsOf(hits[..k])
    {
      ghost var before := out;
      var s := d.starts[k];
      var end := Min(s + inj.duration, |series|);
      var total := d.signs[k] * inj.totalShift * d.std;
      out := seq(|out|, i requires 0 <= i < |out| =>
        if s <= i < end then out[i] + Ramp(total, end - s, i - s) else out[i]);
      events := events + [Event(s, end)];
      assert hits[..k + 1] == hits[..k] + [hits[k]];
      ghost var h := hits[k];
      assert h == Hit(inj, Event(s, end), total);
      forall i | 0 <= i < |out| ensures out[i] == before[i] + Added(h, i) {
      }
      PerturbedStep(series, hits[..k], before, hits[k], out);
    }
    assert hits[..|hits|] == hits;
  }

  method Inject(series: Series, inj: Injector, d: Draw) returns (out: Series, events: seq<Event>)
    requires Possible(inj, d, |series|)
    ensures Perturbed(series, HitsOf(inj, d, |series|), out)
    ensures events == EventsOf(HitsOf(inj, d, |series|))
  {
    match inj
    case Point(_) => out, events := InjectPoints(series, inj, d);
    case Contextual(_, _) => out, events := InjectContextual(series, inj, d);
    case Drift(_, _) => out, events := InjectDrift(series, inj, d);
  }

  function EventsOf(hits: seq<Hit>): (r: seq<Event>)
    ensures |r| == |hits|
    ensures forall k :: 0 <= k < |hits| ==> r[k] == hits[k].event
  {
    seq(|hits|, k requires 0 <= k < |hits| => hits[k].event)
  }

  /** `events_to_label_mask`. */
  method EventsToLabelMask(events: seq<Event>, length: nat) returns (mask: seq<bool>)
    ensures |mask| == length
    ensures forall i :: 0 <= i < length ==> (mask[i] <==> exists e :: e in events && Covers(e, i))
  {
    mask := seq(length, _ => false);
    for k := 0 to |events|
      invariant |mask| == length
      invariant forall i :: 0 <= i < length ==> (mask[i] <==> exists e :: e in events[..k] && Covers(e, i))
    {
      assert events[..k + 1] == events[..k] + [events[k]];
      mask := seq(length, i requires 0 <= i < length => mask[i] || Covers(events[k], i));
    }
    assert events[..|events|] == events;
  }

  // ---------------- all columns ----------------

  ghost predicate AllPossible(injectors: seq<Injector>, draws: seq<Draw>, length: nat) {
    |draws| == |injectors| && forall j :: 0 <= j < |injectors| ==> Possible(injectors[j], draws[j], length)
  }

  /** The hits of the first n injectors on one column. */
  function ColumnHits(injectors: seq<Injector>, draws: seq<Draw>, length: nat, n: nat): seq<Hit>
    requires AllPossible(injectors, draws, length) && n <= |injectors|
  {
    if n == 0 then []
    else ColumnHits(injectors, draws, length, n - 1) + HitsOf(injectors[n - 1], draws[n - 1], length)
  }

  lemma {:induction false} TotalSplit(a: seq<Hit>, b: seq<Hit>, i: nat)
    ensures TotalAdded(a + b, i) == TotalAdded(a, i) + TotalAdded(b, i)
    decreases |b|
  {
    if b == [] {
      assert a + b == a;
    } else {
      assert (a + b)[..|a + b| - 1] == a + b[..|b| - 1];
      TotalSplit(a, b[..|b| - 1], i);
    }
  }

  lemma PerturbedTwice(series: Series, a: seq<Hit>, mid: Series, b: seq<Hit>, out: Series)
    requires Perturbed(series, a, mid) && Perturbed(mid, b, out)
    ensures Perturbed(series, a + b, out)
  {
    forall i | 0 <= i < |series| ensures out[i] == series[i] + TotalAdded(a + b, i) {
      TotalSplit(a, b, i);
    }
  }

  ghost predicate Hits(hits: seq<Hit>, i: nat) {
    exists h :: h in hits && Covers(h.event, i)
  }

  /** One column of `inject_all_columns`: the injectors one after another, and their labels. */
  method InjectColumn(series: Series, injectors: seq<Injector>, draws: seq<Draw>) returns (out: Series, mask: seq<bool>)
    requires AllPossible(injectors, draws, |series|)
    ensures Perturbed(series, ColumnHits(injectors, draws, |series|, |injectors|), out)
    ensures |mask| == |series|
    ensures forall i :: 0 <= i < |mask| ==> (mask[i] <==> Hits(ColumnHits(injectors, draws, |series|, |injectors|), i))
  {
    out := series;
    mask := seq(|series|, _ => false);
    for j := 0 to |injectors|
      invariant |mask| == |series|
      invariant Perturbed(series, ColumnHits(injectors, draws, |series|, j), out)
      invariant forall i :: 0 <= i < |mask| ==> (mask[i] <==> Hits(ColumnHits(injectors, draws, |series|, j), i))
    {
      ghost var mid, earlier := out, ColumnHits(injectors, draws, |series|, j);
      ghost var hits := HitsOf(injectors[j], draws[j], |series|);
      var next, events := Inject(out, injectors[j], draws[j]);
      PerturbedTwice(series, earlier, mid, hits, next);
      out := next;
      var marks := EventsToLabelMask(events, |series|);
      ghost var before := mask;
      mask := seq(|mask|, i requires 0 <= i < |mask| && |marks| == |mask| => mask[i] || marks[i]);
      forall i | 0 <= i < |mask| ensures mask[i] <==> Hits(earlier + hits, i) {
      }
    }
  }

  ghost predicate DrawnFor(clean: seq<Series>, length: nat, injectors: seq<Injector>, draws: seq<seq<Draw>>) {
    && |draws| == |clean|
    && forall c :: 0 <= c < |clean| ==> |clean[c]| == length && AllPossible(injectors, draws[c], length)
  }

  /** Every column is the clean one plus its own hits, and a row is labelled exactly if some hit
      on some column covers it. */
  ghost predicate Outcome(clean: seq<Series>, length: nat, injectors: seq<Injector>, draws: seq<seq<Draw>>,
                          perturbed: seq<Series>, mask: seq<bool>)
    requires DrawnFor(clean, length, injectors, draws)
  {
    && |perturbed| == |clean| && |mask| == length
    && (forall c :: 0 <= c < |clean| ==>
          Perturbed(clean[c], ColumnHits(injectors, draws[c], length, |injectors|), perturbed[c]))
    && (forall i :: 0 <= i < length ==>
          (mask[i] <==> exists c :: 0 <= c < |clean| && Hits(ColumnHits(injectors, draws[c], length, |injectors|), i)))
  }

  /** `inject_all_columns`. */
  method InjectAllColumns(clean: seq<Series>, length: nat, injectors: seq<Injector>, draws: seq<seq<Draw>>)
    returns (perturbed: seq<Series>, mask: seq<bool>)
    requires DrawnFor(clean, length, injectors, draws)
    ensures Outcome(clean, length, injectors, draws, perturbed, mask)
  {
    perturbed := [];
    mask := seq(length, _ => false);
    for c := 0 to |clean|
      invariant |perturbed| == c && |mask| == length
      invariant forall k :: 0 <= k < c ==>
        Perturbed(clean[k], ColumnHits(injectors, draws[k], length, |injectors|), perturbed[k])
      invariant forall i :: 0 <= i < length ==>
        (mask[i] <==> exists k :: 0 <= k < c && Hits(ColumnHits(injectors, draws[k], length, |injectors|), i))
    {
      var out, marks := InjectColumn(clean[c], injectors, draws[c]);
      perturbed := perturbed + [out];
      mask := seq(length, i requires 0 <= i < length && |marks| == |mask| == length => mask[i] || marks[i]);
    }
  }

  /** Every event lies within the series. */
  lemma EventsInBounds(inj: Injector, d: Draw, length: nat, k: nat)
    requires Possible(inj, d, length) && k < |d.starts|
    ensures HitOf(inj, d, length, k).event.start <= HitOf(inj, d, length, k).event.end <= length
  {
  }

  lemma {:induction false} UncoveredAddsNothing(hits: seq<Hit>, i: nat)
    requires !Hits(hits, i)
    ensures TotalAdded(hits, i) == 0.0
  {
    if hits != [] {
      var n := |hits| - 1;
      assert hits[n] in hits;
      UncoveredAddsNothing(hits[..n], i);
    }
  }

  /** Ground truth is sound: whatever was drawn, a row without a label is unchanged in every
      column. */
  lemma UnlabelledIsUnchanged(clean: seq<Series>, length: nat, injectors: seq<Injector>, draws: seq<seq<Draw>>,
                              perturbed: seq<Series>, mask: seq<bool>, c: nat, i: nat)
    requires DrawnFor(clean, length, injectors, draws)
    requires Outcome(clean, length, injectors, draws, perturbed, mask)
    requires c < |clean| && i < length && !mask[i]
    ensures perturbed[c][i] == clean[c][i]
  {
    UncoveredAddsNothing(ColumnHits(injectors, draws[c], length, |injectors|), i);
  }

  // ---------------- labelled rows that are unchanged ----------------

  /** The hits that cover a row. */
  function Covering(hits: seq<Hit>, i: nat): (r: seq<Hit>)
    ensures forall h :: h in r <==> h in hits && Covers(h.event, i)
  {
    if hits == [] then []
    else
      var n := |hits| - 1;
      assert hits == hits[..n] + [hits[n]];
      Covering(hits[..n], i) + (if Covers(hits[n].event, i) then [hits[n]] else [])
  }

  /** Only those count. */
  lemma {:induction false} CoveringAddsAll(hits: seq<Hit>, i: nat)
    ensures TotalAdded(hits, i) == TotalAdded(Covering(hits, i), i)
  {
    if hits != [] {
      var n := |hits| - 1;
      CoveringAddsAll(hits[..n], i);
      var before := Covering(hits[..n], i);
      if Covers(hits[n].event, i) {
        assert (before + [hits[n]])[..|before|] == before;
      } else {
        assert Covering(hits, i) == before;
      }
    }
  }

  /** What the hits covering a row add up to is zero. */
  ghost predicate Cancels(hits: seq<Hit>, i: nat) {
    TotalAdded(Covering(hits, i), i) == 0.0
  }

  /** A covering hit that leaves the row alone: a zero amount, or the first row of a drift. */
  predicate AddsNothing(h: Hit, i: nat) {
    h.amount == 0.0 || (h.inj.Drift? && i == h.event.start)
  }

  lemma AddedIsZero(h: Hit, i: nat)
    requires Covers(h.event, i)
    ensures Added(h, i) == 0.0 <==> AddsNothing(h, i)
    ensures h.amount >= 0.0 ==> Added(h, i) >= 0.0
    ensures h.amount <= 0.0 ==> Added(h, i) <= 0.0
  {
    var m, j := h.event.end - h.event.start, i - h.event.start;
    if h.inj.Drift? && m > 1 {
      RampSign(h.amount, m, j);
    }
  }

  lemma RampSign(total: real, m: nat, j: nat)
    requires m > 1
    ensures Ramp(total, m, j) == 0.0 <==> total == 0.0 || j == 0
    ensures total >= 0.0 ==> Ramp(total, m, j) >= 0.0
    ensures total <= 0.0 ==> Ramp(total, m, j) <= 0.0
  {
    var product := total * j as real;
    ProductSign(total, j as real);
    QuotientSign(product, (m - 1) as real);
  }

  lemma ProductSign(x: real, y: real)
    requires y >= 0.0
    ensures x * y == 0.0 <==> x == 0.0 || y == 0.0
    ensures (x >= 0.0 ==> x * y >= 0.0) && (x <= 0.0 ==> x * y <= 0.0)
  {
  }

  lemma QuotientSign(x: real, y: real)
    requires y > 0.0
    ensures x / y == 0.0 <==> x == 0.0
    ensures (x >= 0.0 ==> x / y >= 0.0) && (x <= 0.0 ==> x / y <= 0.0)
  {
  }

  /** The hits all push the same way. */
  predicate OneSided(hits: seq<Hit>) {
    (forall h <- hits :: h.amount >= 0.0) || (forall h <- hits :: h.amount <= 0.0)
  }

  lemma {:induction false} RisingSum(hits: seq<Hit>, i: nat)
    requires forall h <- hits :: Covers(h.event, i) && h.amount >= 0.0
    ensures TotalAdded(hits, i) >= 0.0
    ensures TotalAdded(hits, i) == 0.0 <==> forall h <- hits :: AddsNothing(h, i)
  {
    if hits != [] {
      var n := |hits| - 1;
      assert hits == hits[..n] + [hits[n]];
      RisingSum(hits[..n], i);
      AddedIsZero(hits[n], i);
    }
  }

  lemma {:induction false} FallingSum(hits: seq<Hit>, i: nat)
    requires forall h <- hits :: Covers(h.event, i) && h.amount <= 0.0
    ensures TotalAdded(hits, i) <= 0.0
    ensures TotalAdded(hits, i) == 0.0 <==> forall h <- hits :: AddsNothing(h, i)
  {
    if hits != [] {
      var n := |hits| - 1;
      assert hits == hits[..n] + [hits[n]];
      FallingSum(hits[..n], i);
      AddedIsZero(hits[n], i);
    }
  }

  /** Hits that push the same way, in particular a single one, cancel exactly if each of them adds
      nothing. */
  lemma OneSidedCancels(hits: seq<Hit>, i: nat)
    requires OneSided(Covering(hits, i))
    ensures Cancels(hits, i) <==> forall h <- Covering(hits, i) :: AddsNothing(h, i)
  {
    if forall h <- Covering(hits, i) :: h.amount >= 0.0 {
      RisingSum(Covering(hits, i), i);
    } else {
      FallingSum(Covering(hits, i), i);
    }
  }

  /** Row i is the clean one in every column. */
  ghost predicate Unchanged(clean: seq<Series>, perturbed: seq<Series>, i: nat)
    requires |perturbed| == |clean|
    requires forall c :: 0 <= c < |clean| ==> i < |clean[c]| == |perturbed[c]|
  {
    forall c :: 0 <= c < |clean| ==> perturbed[c][i] == clean[c][i]
  }

  /** The converse of soundness fails exactly here: a labelled row is unchanged if and only if, in
      every column, the hits that cover it cancel. Where the hits of a column push the same way,
      that means each of them has a zero amount or is a drift that starts there. */
  lemma LabelledYetUnchanged(clean: seq<Series>, length: nat, injectors: seq<Injector>, draws: seq<seq<Draw>>,
                             perturbed: seq<Series>, mask: seq<bool>, i: nat)
    requires DrawnFor(clean, length, injectors, draws)
    requires Outcome(clean, length, injectors, draws, perturbed, mask)
    requires i < length
    ensures Unchanged(clean, perturbed, i) <==>
      forall c :: 0 <= c < |clean| ==> Cancels(ColumnHits(injectors, draws[c], length, |injectors|), i)
    ensures !mask[i] ==> Unchanged(clean, perturbed, i)
    ensures forall c :: 0 <= c < |clean| ==>
      var hits := ColumnHits(injectors, draws[c], length, |injectors|);
      OneSided(Covering(hits, i)) ==> (Cancels(hits, i) <==> forall h <- Covering(hits, i) :: AddsNothing(h, i))
  {
    forall c | 0 <= c < |clean|
      ensures perturbed[c][i] == clean[c][i] <==> Cancels(ColumnHits(injectors, draws[c], length, |injectors|), i)
      ensures !mask[i] ==> perturbed[c][i] == clean[c][i]
    {
      CoveringAddsAll(ColumnHits(injectors, draws[c], length, |injectors|), i);
      if !mask[i] {
        UnlabelledIsUnchanged(clean, length, injectors, draws, perturbed, mask, c, i);
      }
    }
    forall c | 0 <= c < |clean| && OneSided(Covering(ColumnHits(injectors, draws[c], length, |injectors|), i))
      ensures
        var hits := ColumnHits(injectors, draws[c], length, |injectors|);
        Cancels(hits, i) <==> forall h <- Covering(hits, i) :: AddsNothing(h, i)
    {
      OneSidedCancels(ColumnHits(injectors, draws[c], length, |injectors|), i);
    }
  }

  /** The ramp is even, from zero to the whole amount. */
  lemma RampIsEven(total: real, m: nat)
    requires m > 1
    ensures Ramp(total, m, 0) == 0.0 && Ramp(total, m, m - 1) == total
    ensures forall j: nat :: j + 1 < m ==> (Ramp(total, m, j + 1) - Ramp(total, m, j)) * (m - 1) as real == total
  {
    QuotientTimes(total, m - 1);
    forall j: nat | j + 1 < m ensures (Ramp(total, m, j + 1) - Ramp(total, m, j)) * (m - 1) as real == total {
      RampStep(total, (m - 1) as real, j as real);
    }
    assert total * 0.0 / (m - 1) as real == 0.0;
    WholeRamp(total, (m - 1) as real);
  }

  lemma RampStep(total: real, d: real, j: real)
    requires d > 0.0
    ensures (total * (j + 1.0) / d - total * j / d) * d == total
  {
    var x, y := total * (j + 1.0) / d, total * j / d;
    DivideBack(total * (j + 1.0), d, x);
    DivideBack(total * j, d, y);
    assert (x - y) * d == x * d - y * d;
  }

  lemma WholeRamp(total: real, d: real)
    requires d > 0.0
    ensures total * d / d == total
  {
  }

  /** A drift alone on its first and last row leaves the first as it was and adds its whole amount
      to the last; on one row it adds nothing. */
  lemma DriftReaches(series: Series, hits: seq<Hit>, out: Series, k: nat)
    requires Perturbed(series, hits, out) && k < |hits| && hits[k].inj.Drift?
    requires hits[k].event.start < hits[k].event.end <= |series|
    requires forall j :: 0 <= j < |hits| && j != k ==>
      !Covers(hits[j].event, hits[k].event.start) && !Covers(hits[j].event, hits[k].event.end - 1)
    ensures
      var e := hits[k].event;
      && out[e.start] == series[e.start]
      && (e.start + 1 < e.end ==> out[e.end - 1] == series[e.end - 1] + hits[k].amount)
  {
    var e := hits[k].event;
    SoleHit(hits, k, e.start);
    SoleHit(hits, k, e.end - 1);
    if e.start + 1 < e.end {
      RampIsEven(hits[k].amount, e.end - e.start);
    }
  }

  /** Where one hit is alone, its own amount is all that is added. */
  lemma SoleHit(hits: seq<Hit>, k: nat, i: nat)
    requires k < |hits| && forall j :: 0 <= j < |hits| && j != k ==> !Covers(hits[j].event, i)
    ensures TotalAdded(hits, i) == Added(hits[k], i)
  {
    var before, after := hits[..k], hits[k + 1..];
    assert hits == (before + [hits[k]]) + after;
    TotalSplit(before + [hits[k]], after, i);
    TotalSplit(before, [hits[k]], i);
    UncoveredAddsNothing(before, i);
    UncoveredAddsNothing(after, i);
    assert [hits[k]][..0] == [];
  }

  /** One hit alone on a row: it changes the row unless it adds nothing there. */
  lemma SoleHitChanges(series: Series, hits: seq<Hit>, out: Series, k: nat, i: nat)
    requires Perturbed(series, hits, out) && i < |series| && k < |hits|
    requires forall j :: 0 <= j < |hits| ==> (Covers(hits[j].event, i) <==> j == k)
    ensures out[i] == series[i] <==> AddsNothing(hits[k], i)
  {
    SoleHit(hits, k, i);
    AddedIsZero(hits[k], i);
  }

  /** One column and one injector. */
  lemma OneColumn(clean: Series, inj: Injector, d: Draw, perturbed: Series, mask: seq<bool>)
    requires DrawnFor([clean], |clean|, [inj], [[d]]) && Outcome([clean], |clean|, [inj], [[d]], [perturbed], mask)
    ensures Possible(inj, d, |clean|) && |mask| == |clean|
    ensures Perturbed(clean, HitsOf(inj, d, |clean|), perturbed)
    ensures forall i :: 0 <= i < |clean| && Hits(HitsOf(inj, d, |clean|), i) ==> mask[i]
  {
    assert [clean][0] == clean && [perturbed][0] == perturbed && [[d]][0] == [d] && [inj][0] == inj && [d][0] == d;
    assert AllPossible([inj], [[d]][0], |clean|);
    var hits := ColumnHits([inj], [[d]][0], |clean|, 1);
    assert ColumnHits([inj], [d], |clean|, 0) == [];
    assert hits == [] + HitsOf(inj, d, |clean|) == HitsOf(inj, d, |clean|);
    assert Perturbed([clean][0], hits, [perturbed][0]);
  }

  /** Two plateaus of opposite sign that overlap: every amount is nonzero and no drift is involved,
      yet a labelled row is the clean one. */
  lemma OppositePlateausCancel(clean: Series, inj: Injector, d: Draw, perturbed: Series, mask: seq<bool>)
    requires |clean| == 40 && inj == Contextual(12, 2.5)
    requires d.starts == [3, 5] && d.signs == [1.0, -1.0] && d.std > 0.0
    ensures Possible(inj, d, 40) && HitOf(inj, d, 40, 0).amount > 0.0 > HitOf(inj, d, 40, 1).amount
    ensures DrawnFor([clean], 40, [inj], [[d]]) && Outcome([clean], 40, [inj], [[d]], [perturbed], mask) ==>
              |mask| == |perturbed| == 40 && mask[7] && perturbed[7] == clean[7]
  {
    var first, second := HitOf(inj, d, 40, 0), HitOf(inj, d, 40, 1);
    var hits := HitsOf(inj, d, 40);
    assert hits == [first, second];
    assert first in hits && Covers(first.event, 7) && Covers(second.event, 7);
    TwoHits(hits, 7);
    if DrawnFor([clean], 40, [inj], [[d]]) && Outcome([clean], 40, [inj], [[d]], [perturbed], mask) {
      OneColumn(clean, inj, d, perturbed, mask);
    }
  }

  lemma TwoHits(hits: seq<Hit>, i: nat)
    requires |hits| == 2
    ensures TotalAdded(hits, i) == Added(hits[0], i) + Added(hits[1], i)
  {
    assert hits[..1] == [hits[0]] && [hits[0]][..0] == [];
    assert TotalAdded([hits[0]], i) == 0.0 + Added(hits[0], i);
  }
}
