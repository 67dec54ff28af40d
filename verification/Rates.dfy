/** Bytes per second out of cumulative counters (backend/app/node_agent.py): the SD card, the
    network interfaces and the NVMe device all keep one previous sample in a module variable. */
module Rates {
  import opened Basics
  import opened Options
  import opened Rounding

  const NVME_DATA_UNIT_BYTES := 512000

  datatype Reading = Reading(t: real, read: int, written: int)

  datatype Rate = Rate(read: int, written: int)

  /** One /metrics call: the clock and the two counters, either of which may be missing. */
  datatype Poll = Poll(now: real, read: Option<int>, written: Option<int>)

  datatype Side = Read | Written

  function Counter(r: Reading, side: Side): int {
    if side.Read? then r.read else r.written
  }

  function Shown(r: Rate, side: Side): int {
    if side.Read? then r.read else r.written
  }

  predicate Complete(p: Poll) {
    p.read.Some? && p.written.Some?
  }

  function Taken(p: Poll): Reading
    requires Complete(p)
  {
    Reading(p.now, p.read.value, p.written.value)
  }

  function After(last: Option<Reading>, p: Poll): Option<Reading> {
    if Complete(p) then Some(Taken(p)) else last
  }

  predicate Rated(last: Option<Reading>, p: Poll) {
    Complete(p) && last.Some? && p.now > last.value.t
  }

  function Elapsed(last: Option<Reading>, p: Poll): real
    requires Rated(last, p)
  {
    p.now - last.value.t
  }

  /** What the counter gained; a counter that went back gained nothing. */
  function Gain(last: Option<Reading>, p: Poll, side: Side): nat
    requires Complete(p) && last.Some?
  {
    Max(0, Counter(Taken(p), side) - Counter(last.value, side))
  }

  function PerSecond(unit: nat, gain: nat, elapsed: real): int
    requires elapsed > 0.0
  {
    Round((gain * unit) as real / elapsed)
  }

  /** A rate times the time it stands for is within half of that time of the bytes gained, and
      never negative. */
  lemma PerSecondIsClose(unit: nat, gain: nat, elapsed: real)
    requires elapsed > 0.0
    ensures PerSecond(unit, gain, elapsed) >= 0
    ensures -elapsed / 2.0 <= PerSecond(unit, gain, elapsed) as real * elapsed - (gain * unit) as real <= elapsed / 2.0
  {
    var bytes := (gain * unit) as real;
    assert bytes >= 0.0;
    QuotientIsNonNegative(bytes, elapsed);
    RoundOfNonNegative(bytes / elapsed);
    ScaledBounds(bytes, elapsed, Round(bytes / elapsed) as real);
  }

  lemma QuotientIsNonNegative(x: real, y: real)
    requires x >= 0.0 && y > 0.0
    ensures x / y >= 0.0
  {
  }

  lemma ScaledBounds(bytes: real, elapsed: real, r: real)
    requires elapsed > 0.0 && -0.5 <= bytes / elapsed - r <= 0.5
    ensures -elapsed / 2.0 <= r * elapsed - bytes <= elapsed / 2.0
  {
    var d := bytes / elapsed - r;
    assert d * elapsed == bytes - r * elapsed;
    Scale(d, elapsed);
  }

  lemma Scale(d: real, elapsed: real)
    requires elapsed > 0.0 && -0.5 <= d <= 0.5
    ensures -elapsed / 2.0 <= d * elapsed <= elapsed / 2.0
  {
    var above, below := 0.5 - d, d + 0.5;
    assert above * elapsed >= 0.0 && below * elapsed >= 0.0;
    assert above * elapsed == elapsed / 2.0 - d * elapsed;
    assert below * elapsed == elapsed / 2.0 + d * elapsed;
  }

  /** One process-wide previous sample and the function that replaces it. */
  class Meter {
    const unit: nat
    var last: Option<Reading>

    /** The SD card and the network count bytes. */
    constructor Bytes()
      ensures unit == 1 && last == None
    {
      unit, last := 1, None;
    }

    /** The NVMe device counts data units. */
    constructor Nvme()
      ensures unit == 512000 && last == None
    {
      unit, last := NVME_DATA_UNIT_BYTES, None;
    }

    method IoRate(p: Poll) returns (r: Option<Rate>)
      modifies this
      ensures last == After(old(last), p)
      ensures r.Some? <==> Rated(old(last), p)
      ensures r.Some? ==>
        forall side ::
          Shown(r.value, side) == PerSecond(unit, Gain(old(last), p, side), Elapsed(old(last), p))
    {
      if p.read.None? || p.written.None? {
        return None;
      }
      var prev := last;
      last := Some(Reading(p.now, p.read.value, p.written.value));
      if prev.None? {
        return None;
      }
      var elapsed := p.now - prev.value.t;
      if elapsed <= 0.0 {
        return None;
      }
      r := Some(Rate(
        Round((Max(0, p.read.value - prev.value.read) * unit) as real / elapsed),
        Round((Max(0, p.written.value - prev.value.written) * unit) as real / elapsed)));
    }

    /** A whole run of polls, with the bytes a reader of the rates adds up on each side. */
    method Run(polls: seq<Poll>) returns (read: real, written: real)
      modifies this
      ensures last == Final(old(last), polls)
      ensures read == Reported(unit, old(last), polls, Read)
      ensures written == Reported(unit, old(last), polls, Written)
    {
      hide PerSecond, Gain, After;
      read, written := 0.0, 0.0;
      for k := 0 to |polls|
        invariant last == Final(old(last), polls[..k])
        invariant read == Reported(unit, old(last), polls[..k], Read)
        invariant written == Reported(unit, old(last), polls[..k], Written)
      {
        ghost var before := last;
        var previous := last;
        var rate := IoRate(polls[k]);
        if rate.Some? {
          read := read + rate.value.read as real * (polls[k].now - previous.value.t);
          written := written + rate.value.written as real * (polls[k].now - previous.value.t);
          assert rate.value.read == Shown(rate.value, Read);
          assert rate.value.written == Shown(rate.value, Written);
        }
        assert polls[..k + 1][..k] == polls[..k];
      }
      assert polls[..|polls|] == polls;
    }
  }

  // ---------------- whole runs ----------------

  function Final(last: Option<Reading>, polls: seq<Poll>): Option<Reading> {
    if polls == [] then last
    else After(Final(last, polls[..|polls| - 1]), polls[|polls| - 1])
  }

  function ReportedAt(unit: nat, prev: Option<Reading>, p: Poll, side: Side): real {
    if !Rated(prev, p) then 0.0
    else PerSecond(unit, Gain(prev, p, side), Elapsed(prev, p)) as real * Elapsed(prev, p)
  }

  function GainedAt(prev: Option<Reading>, p: Poll, side: Side): nat {
    if Rated(prev, p) then Gain(prev, p, side) else 0
  }

  function CoveredAt(prev: Option<Reading>, p: Poll): real {
    if Rated(prev, p) then Elapsed(prev, p) else 0.0
  }

  /** Rate times elapsed time, over all polls that gave a rate. */
  function Reported(unit: nat, last: Option<Reading>, polls: seq<Poll>, side: Side): real {
    if polls == [] then 0.0 else
      var n := |polls| - 1;
      var prev := Final(last, polls[..n]);
      Reported(unit, last, polls[..n], side) + ReportedAt(unit, prev, polls[n], side)
  }

  /** What the counter gained on the polls that gave a rate. */
  function Gained(last: Option<Reading>, polls: seq<Poll>, side: Side): nat {
    if polls == [] then 0 else
      var n := |polls| - 1;
      var prev := Final(last, polls[..n]);
      Gained(last, polls[..n], side) + GainedAt(prev, polls[n], side)
  }

  /** The time covered by the polls that gave a rate. */
  function Covered(last: Option<Reading>, polls: seq<Poll>): real {
    if polls == [] then 0.0 else
      var n := |polls| - 1;
      var prev := Final(last, polls[..n]);
      Covered(last, polls[..n]) + CoveredAt(prev, polls[n])
  }

  /** The account for every run, resets and a standing clock included: the reported bytes are
      within half the covered time of the bytes gained on the polls that gave a rate. */
  lemma {:induction false} ReportedIsClose(unit: nat, last: Option<Reading>, polls: seq<Poll>, side: Side)
    ensures Covered(last, polls) >= 0.0
    ensures -Covered(last, polls) / 2.0
         <= Reported(unit, last, polls, side) - (Gained(last, polls, side) * unit) as real
         <= Covered(last, polls) / 2.0
    ensures Reported(unit, last, polls, side) >= 0.0
  {
    if polls != [] {
      var n := |polls| - 1;
      ReportedIsClose(unit, last, polls[..n], side);
      var prev := Final(last, polls[..n]);
      StepIsClose(unit, prev, polls[n], side);
      Distribute(Gained(last, polls[..n], side), GainedAt(prev, polls[n], side), unit);
      AddBounds(Reported(unit, last, polls[..n], side), (Gained(last, polls[..n], side) * unit) as real,
                Covered(last, polls[..n]), ReportedAt(unit, prev, polls[n], side),
                (GainedAt(prev, polls[n], side) * unit) as real, CoveredAt(prev, polls[n]));
    }
  }

  lemma StepIsClose(unit: nat, prev: Option<Reading>, p: Poll, side: Side)
    ensures CoveredAt(prev, p) >= 0.0
    ensures -CoveredAt(prev, p) / 2.0
         <= ReportedAt(unit, prev, p, side) - (GainedAt(prev, p, side) * unit) as real
         <= CoveredAt(prev, p) / 2.0
    ensures ReportedAt(unit, prev, p, side) >= 0.0
  {
    if Rated(prev, p) {
      PerSecondIsClose(unit, Gain(prev, p, side), Elapsed(prev, p));
      NonNegativeProduct(PerSecond(unit, Gain(prev, p, side), Elapsed(prev, p)), Elapsed(prev, p));
    }
  }

  lemma AddBounds(r: real, g: real, c: real, r': real, g': real, c': real)
    requires -c / 2.0 <= r - g <= c / 2.0 && -c' / 2.0 <= r' - g' <= c' / 2.0
    ensures -(c + c') / 2.0 <= (r + r') - (g + g') <= (c + c') / 2.0
  {
  }

  lemma NonNegativeProduct(r: int, elapsed: real)
    requires r >= 0 && elapsed > 0.0
    ensures r as real * elapsed >= 0.0
  {
  }

  lemma Distribute(a: int, b: int, unit: int)
    ensures (a + b) * unit == a * unit + b * unit
  {
  }

  /** Consecutive complete polls, seen through what the meter remembers: later each time, with
      counters that have not gone back. */
  ghost predicate Steady(last: Option<Reading>, polls: seq<Poll>) {
    forall k :: 0 <= k < |polls| ==> SteadyAt(Final(last, polls[..k]), polls[k])
  }

  ghost predicate SteadyAt(prev: Option<Reading>, p: Poll) {
    prev.Some? && Complete(p) ==>
      prev.value.t < p.now && prev.value.read <= p.read.value && prev.value.written <= p.written.value
  }

  lemma {:induction false} SteadyGain(start: Reading, polls: seq<Poll>, side: Side)
    requires Steady(Some(start), polls)
    ensures Final(Some(start), polls).Some?
    ensures Gained(Some(start), polls, side) == Counter(Final(Some(start), polls).value, side) - Counter(start, side)
    ensures Covered(Some(start), polls) == Final(Some(start), polls).value.t - start.t
  {
    if polls != [] {
      var n := |polls| - 1;
      forall k | 0 <= k < n ensures SteadyAt(Final(Some(start), polls[..n][..k]), polls[..n][k]) {
        assert polls[..n][..k] == polls[..k];
      }
      SteadyGain(start, polls[..n], side);
      assert SteadyAt(Final(Some(start), polls[..n]), polls[n]);
    }
  }

  /** Rates conserve bytes: over a run with rising times and counters that do not go back, the
      bytes reported differ from what the counter gained since the first sample by at most half
      the elapsed time, however many polls in between had no counters. */
  lemma RatesConserveBytes(unit: nat, start: Reading, polls: seq<Poll>, side: Side)
    requires Steady(Some(start), polls)
    ensures Final(Some(start), polls).Some?
    ensures var end := Final(Some(start), polls).value;
      -(end.t - start.t) / 2.0
      <= Reported(unit, Some(start), polls, side) - ((Counter(end, side) - Counter(start, side)) * unit) as real
      <= (end.t - start.t) / 2.0
  {
    SteadyGain(start, polls, side);
    ReportedIsClose(unit, Some(start), polls, side);
  }

  function OnlyComplete(polls: seq<Poll>): seq<Poll> {
    if polls == [] then [] else
      var n := |polls| - 1;
      OnlyComplete(polls[..n]) + (if Complete(polls[n]) then [polls[n]] else [])
  }

  /** A poll without counters loses nothing: leaving it out gives the same bytes and the same
      remembered sample. */
  lemma {:induction false} MissingPollsLoseNothing(unit: nat, last: Option<Reading>, polls: seq<Poll>, side: Side)
    ensures Final(last, OnlyComplete(polls)) == Final(last, polls)
    ensures Reported(unit, last, OnlyComplete(polls), side) == Reported(unit, last, polls, side)
  {
    if polls != [] {
      var n := |polls| - 1;
      MissingPollsLoseNothing(unit, last, polls[..n], side);
      if Complete(polls[n]) {
        var kept := OnlyComplete(polls[..n]);
        assert OnlyComplete(polls) == kept + [polls[n]];
        assert (kept + [polls[n]])[..|kept|] == kept;
      } else {
        assert OnlyComplete(polls) == OnlyComplete(polls[..n]);
      }
    }
  }

  /** Counters that do not go back between complete polls, whatever the clock does. */
  ghost predicate NotBack(last: Option<Reading>, polls: seq<Poll>) {
    forall k :: 0 <= k < |polls| ==> NotBackAt(Final(last, polls[..k]), polls[k])
  }

  ghost predicate NotBackAt(prev: Option<Reading>, p: Poll) {
    prev.Some? && Complete(p) ==> prev.value.read <= p.read.value && prev.value.written <= p.written.value
  }

  /** A complete poll with a positive gain at a clock that has not advanced: it is remembered, but
      gives no rate. */
  predicate Stands(prev: Option<Reading>, p: Poll, side: Side) {
    Complete(p) && prev.Some? && p.now <= prev.value.t && Gain(prev, p, side) > 0
  }

  ghost predicate NeverStands(last: Option<Reading>, polls: seq<Poll>, side: Side) {
    forall k :: 0 <= k < |polls| ==> !Stands(Final(last, polls[..k]), polls[k], side)
  }

  lemma AllButLast(last: Option<Reading>, polls: seq<Poll>, side: Side)
    requires polls != []
    ensures
      var n := |polls| - 1;
      && (NotBack(last, polls) <==> NotBack(last, polls[..n]) && NotBackAt(Final(last, polls[..n]), polls[n]))
      && (NeverStands(last, polls, side)
          <==> NeverStands(last, polls[..n], side) && !Stands(Final(last, polls[..n]), polls[n], side))
  {
    hide Final, NotBackAt, Stands;
    var n := |polls| - 1;
    assert forall k :: 0 <= k < n ==> polls[..n][..k] == polls[..k] && polls[..n][k] == polls[k];
  }

  /** Over a whole run with counters that do not go back, what was gained on the polls that gave a
      rate is at most the counter's increase, and all of it exactly if no complete poll with a
      positive gain met a standing clock. */
  lemma {:induction false} StandingClockLosesGain(start: Reading, polls: seq<Poll>, side: Side)
    requires NotBack(Some(start), polls)
    ensures Final(Some(start), polls).Some?
    ensures
      var increase := Counter(Final(Some(start), polls).value, side) - Counter(start, side);
      && Gained(Some(start), polls, side) <= increase
      && (Gained(Some(start), polls, side) == increase <==> NeverStands(Some(start), polls, side))
  {
    if polls != [] {
      var n := |polls| - 1;
      AllButLast(Some(start), polls, side);
      StandingClockLosesGain(start, polls[..n], side);
    }
  }

  /** One poll, resets included: its gain goes unreported exactly if it is positive and the clock
      has not advanced, and the poll is remembered all the same. */
  lemma StandingPollLosesGain(last: Option<Reading>, p: Poll, side: Side)
    requires Complete(p) && last.Some?
    ensures Gained(last, [p], side) < Gain(last, p, side) <==> Stands(last, p, side)
    ensures Final(last, [p]) == Some(Taken(p))
  {
    assert [p][..0] == [];
    assert Final(last, []) == last && Gained(last, [], side) == 0;
  }
}
