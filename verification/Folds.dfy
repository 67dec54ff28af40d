/** Cutting the held-out region into folds and scaling the injected anomalies with them
    (ml/evaluation/rolling_compare.py). Bounds and scale are computed exactly. */
module Folds {
  import opened Basics
  import opened Reals
  import opened Rounding

  /** `np.linspace(0, n, k + 1, dtype=int)[i]`. */
  function Bound(n: nat, k: nat, i: nat): nat
    requires 0 < k
  {
    i * n / k
  }

  function FoldBounds(n: nat, k: nat): (bounds: seq<nat>)
    requires 0 < k
    ensures |bounds| == k + 1
    ensures forall i :: 0 <= i <= k ==> bounds[i] == Bound(n, k, i)
  {
    seq(k + 1, i requires 0 <= i => Bound(n, k, i))
  }

  /** Bounds from 0 to n whose neighbours are `size` or `size + 1` rows apart, the first `size`. */
  ghost predicate EvenCut(bounds: seq<nat>, n: nat, size: nat) {
    && |bounds| >= 2
    && bounds[0] == 0 && bounds[1] == size && bounds[|bounds| - 1] == n
    && forall i :: 0 <= i < |bounds| - 1 ==> FoldOf(bounds, i, size)
  }

  ghost predicate FoldOf(bounds: seq<nat>, i: nat, size: nat)
    requires i + 1 < |bounds|
  {
    size <= bounds[i + 1] - bounds[i] <= size + 1
  }

  // ---------------- arithmetic ----------------

  lemma QuotientOf(a: int, q: int, r: int, k: nat)
    requires 0 < k && a == q * k + r && 0 <= r < k
    ensures a / k == q
  {
    var q' := a / k;
    assert q' * k <= a < (q' + 1) * k;
    TimesOrder(q' + 1, q, k);
    TimesOrder(q + 1, q', k);
  }

  /** Dividing a number split into whole multiples of k and a rest. */
  lemma DivideSplit(m: int, rest: nat, k: nat)
    requires 0 < k
    ensures (m * k + rest) / k == m + rest / k
  {
    var q, r := rest / k, rest % k;
    assert rest == q * k + r;
    assert m * k + rest == (m + q) * k + r;
    QuotientOf(m * k + rest, m + q, r, k);
  }

  lemma DivideStep(x: nat, r: nat, k: nat)
    requires r < k
    ensures x / k <= (x + r) / k <= x / k + 1
  {
    var q, rest := x / k, x % k;
    assert x == q * k + rest;
    if rest + r < k {
      QuotientOf(x + r, q, rest + r, k);
    } else {
      assert x + r == (q + 1) * k + (rest + r - k);
      QuotientOf(x + r, q + 1, rest + r - k, k);
    }
  }

  lemma MultipleSplit(i: int, q: int, k: int, r: int)
    ensures i * (q * k + r) == (i * q) * k + i * r
  {
  }

  lemma BoundSplit(n: nat, k: nat, i: nat)
    requires 0 < k
    ensures i * (n % k) >= 0
    ensures Bound(n, k, i) == i * (n / k) + i * (n % k) / k
  {
    var q, r := n / k, n % k;
    assert n == q * k + r;
    MultipleSplit(i, q, k, r);
    assert i * r >= 0;
    DivideSplit(i * q, i * r, k);
  }

  /** Two folds never differ by more than one row. */
  lemma FoldSize(n: nat, k: nat, i: nat)
    requires 0 < k
    ensures n / k <= Bound(n, k, i + 1) - Bound(n, k, i) <= n / k + 1
  {
    BoundSplit(n, k, i);
    BoundSplit(n, k, i + 1);
    var q, r := n / k, n % k;
    assert (i + 1) * q == i * q + q;
    assert (i + 1) * r == i * r + r;
    DivideStep(i * r, r, k);
  }

  lemma FirstBounds(n: nat, k: nat, i: nat)
    requires 0 < k && i == 0
    ensures Bound(n, k, i) == 0 && Bound(n, k, i + 1) == n / k
  {
    assert (i + 1) * n == n && i * n == 0;
  }

  lemma LastBound(n: nat, k: nat, i: nat)
    requires 0 < k && i == k
    ensures Bound(n, k, i) == n
  {
    assert i * n == n * k + 0;
    QuotientOf(i * n, n, 0, k);
  }

  /** The computed bounds run from the first row to the end and cut the region evenly. */
  lemma BoundsCutEvenly(n: nat, k: nat)
    requires 0 < k
    ensures EvenCut(FoldBounds(n, k), n, n / k)
  {
    FirstBounds(n, k, 0);
    LastBound(n, k, k);
    var bounds := FoldBounds(n, k);
    forall i | 0 <= i < |bounds| - 1 ensures FoldOf(bounds, i, n / k) {
      FoldSize(n, k, i);
    }
  }

  lemma {:induction false} OrderedBelow(bounds: seq<nat>, n: nat, size: nat, i: nat, j: nat)
    requires EvenCut(bounds, n, size) && i <= j < |bounds|
    ensures bounds[i] <= bounds[j]
    decreases j
  {
    if i < j {
      OrderedBelow(bounds, n, size, i, j - 1);
      assert FoldOf(bounds, j - 1, size);
    }
  }

  // ---------------- folds ----------------

  predicate Within(bounds: seq<nat>, n: nat) {
    forall i, j :: 0 <= i <= j < |bounds| ==> bounds[i] <= bounds[j] <= n
  }

  lemma CutIsWithin(bounds: seq<nat>, n: nat, size: nat)
    requires EvenCut(bounds, n, size)
    ensures Within(bounds, n)
  {
    forall i, j | 0 <= i <= j < |bounds| ensures bounds[i] <= bounds[j] <= n {
      OrderedBelow(bounds, n, size, i, j);
      OrderedBelow(bounds, n, size, j, |bounds| - 1);
    }
  }

  function Fold<T>(rows: seq<T>, bounds: seq<nat>, i: nat): seq<T>
    requires Within(bounds, |rows|) && i + 1 < |bounds|
  {
    rows[bounds[i]..bounds[i + 1]]
  }

  function Joined<T>(rows: seq<T>, bounds: seq<nat>, m: nat): seq<T>
    requires Within(bounds, |rows|) && m < |bounds|
  {
    if m == 0 then [] else Joined(rows, bounds, m - 1) + Fold(rows, bounds, m - 1)
  }

  lemma {:induction false} JoinedIsPrefix<T>(rows: seq<T>, bounds: seq<nat>, m: nat)
    requires Within(bounds, |rows|) && m < |bounds| && bounds[0] == 0
    ensures Joined(rows, bounds, m) == rows[..bounds[m]]
  {
    if m > 0 {
      JoinedIsPrefix(rows, bounds, m - 1);
    }
  }

  /** The k folds in order are the held-out region, nothing lost, repeated or moved, and any two
      differ by at most one row. */
  lemma FoldsPartition<T>(rows: seq<T>, k: nat)
    requires 0 < k
    ensures var bounds := FoldBounds(|rows|, k);
      && Within(bounds, |rows|)
      && Joined(rows, bounds, k) == rows
      && forall i, j :: 0 <= i < k && 0 <= j < k ==>
           |Fold(rows, bounds, i)| <= |Fold(rows, bounds, j)| + 1
  {
    hide Joined, Fold, Within, Bound;
    var bounds := FoldBounds(|rows|, k);
    BoundsCutEvenly(|rows|, k);
    CutIsWithin(bounds, |rows|, |rows| / k);
    JoinedIsPrefix(rows, bounds, k);
    forall i, j | 0 <= i < k && 0 <= j < k ensures |Fold(rows, bounds, i)| <= |Fold(rows, bounds, j)| + 1 {
      AlmostEqual(rows, bounds, |rows| / k, i, j);
    }
  }

  lemma AlmostEqual<T>(rows: seq<T>, bounds: seq<nat>, size: nat, i: nat, j: nat)
    requires EvenCut(bounds, |rows|, size) && Within(bounds, |rows|) && i + 1 < |bounds| && j + 1 < |bounds|
    ensures |Fold(rows, bounds, i)| <= |Fold(rows, bounds, j)| + 1
  {
    assert FoldOf(bounds, i, size) && FoldOf(bounds, j, size);
  }

  /** Row j lies in fold i. */
  predicate InFold(bounds: seq<nat>, i: nat, j: nat) {
    i + 1 < |bounds| && bounds[i] <= j < bounds[i + 1]
  }

  lemma {:induction false} SomeFold(bounds: seq<nat>, j: nat, m: nat) returns (i: nat)
    requires m < |bounds| && bounds[0] == 0 && j < bounds[m]
    ensures i < m && InFold(bounds, i, j)
  {
    if j < bounds[m - 1] {
      i := SomeFold(bounds, j, m - 1);
    } else {
      i := m - 1;
    }
  }

  /** Every row belongs to exactly one fold. */
  lemma OneFoldPerRow(n: nat, k: nat, j: nat) returns (i: nat)
    requires 0 < k && j < n
    ensures InFold(FoldBounds(n, k), i, j)
    ensures forall i': nat :: InFold(FoldBounds(n, k), i', j) ==> i' == i
  {
    var bounds := FoldBounds(n, k);
    BoundsCutEvenly(n, k);
    CutIsWithin(bounds, n, n / k);
    i := SomeFold(bounds, j, k);
    forall i': nat | InFold(bounds, i', j) ensures i' == i {
    }
  }

  // ---------------- evaluate_node ----------------

  /** Which of the first m folds are long enough for two windows. */
  function LongEnough<T>(rows: seq<T>, bounds: seq<nat>, window: nat, m: nat): seq<(nat, seq<T>)>
    requires Within(bounds, |rows|) && m < |bounds|
  {
    if m == 0 then [] else
      var fold := Fold(rows, bounds, m - 1);
      LongEnough(rows, bounds, window, m - 1) + (if |fold| < window * 2 then [] else [(m - 1, fold)])
  }

  /** The loop of `evaluate_node`: too short folds are skipped, the others evaluated in order. */
  method FoldsToEvaluate<T>(rows: seq<T>, k: nat, window: nat) returns (used: seq<(nat, seq<T>)>)
    requires 0 < k
    ensures Within(FoldBounds(|rows|, k), |rows|)
    ensures used == LongEnough(rows, FoldBounds(|rows|, k), window, k)
  {
    var bounds := FoldBounds(|rows|, k);
    BoundsCutEvenly(|rows|, k);
    CutIsWithin(bounds, |rows|, |rows| / k);
    used := [];
    for i := 0 to k
      invariant used == LongEnough(rows, bounds, window, i)
    {
      var fold := rows[bounds[i]..bounds[i + 1]];
      if |fold| < window * 2 {
        continue;
      }
      used := used + [(i, fold)];
    }
  }

  lemma {:induction false} AllLongEnough<T>(rows: seq<T>, bounds: seq<nat>, size: nat, window: nat, m: nat)
    requires EvenCut(bounds, |rows|, size) && Within(bounds, |rows|) && m < |bounds|
    ensures window * 2 <= size ==> |LongEnough(rows, bounds, window, m)| == m
    ensures size < window * 2 && m > 0 ==> |LongEnough(rows, bounds, window, m)| < m
    ensures size + 1 < window * 2 ==> LongEnough(rows, bounds, window, m) == []
  {
    if m > 0 {
      AllLongEnough(rows, bounds, size, window, m - 1);
      assert FoldOf(bounds, m - 1, size);
    }
  }

  /** No fold is skipped exactly when the rows per fold, rounded down, hold two windows; if one
      more row would still not do, all are. */
  lemma NothingSkipped<T>(rows: seq<T>, k: nat, window: nat)
    requires 0 < k && Within(FoldBounds(|rows|, k), |rows|)
    ensures |LongEnough(rows, FoldBounds(|rows|, k), window, k)| == k <==> window * 2 <= |rows| / k
    ensures |rows| / k + 1 < window * 2 ==> LongEnough(rows, FoldBounds(|rows|, k), window, k) == []
  {
    BoundsCutEvenly(|rows|, k);
    AllLongEnough(rows, FoldBounds(|rows|, k), |rows| / k, window, k);
  }

  // ---------------- scaled_injections ----------------

  /** At least one event, otherwise the rounded share. */
  function Counted(share: real): int {
    var n := Round(share);
    if n <= 1 then 1 else n
  }

  /** The event count of one injector on a fold. */
  function ScaledCount(base: nat, foldLength: nat, reference: nat): int
    requires 0 < reference
  {
    Counted(Share(base, foldLength, reference))
  }

  /** What is proportional to the fold. */
  function Share(base: nat, foldLength: nat, reference: nat): real
    requires 0 < reference
  {
    base as real * (foldLength as real / reference as real)
  }

  lemma ScaleOf(foldLength: nat, reference: nat)
    requires 0 < reference && foldLength <= reference
    ensures 0.0 <= foldLength as real / reference as real <= 1.0
    ensures foldLength == reference ==> foldLength as real / reference as real == 1.0
  {
  }

  lemma PartOf(base: nat, scale: real)
    requires 0.0 <= scale <= 1.0
    ensures 0.0 <= base as real * scale <= base as real
    ensures scale == 1.0 ==> base as real * scale == base as real
  {
    assert base as real * (1.0 - scale) >= 0.0;
  }

  lemma ShareIsPart(base: nat, foldLength: nat, reference: nat)
    requires 0 < reference && foldLength <= reference
    ensures 0.0 <= Share(base, foldLength, reference) <= base as real
    ensures foldLength == reference ==> Share(base, foldLength, reference) == base as real
  {
    ScaleOf(foldLength, reference);
    PartOf(base, foldLength as real / reference as real);
  }

  lemma CountOfShare(base: nat, share: real)
    requires 0 < base && 0.0 <= share <= base as real
    ensures 1 <= Counted(share) <= base
    ensures share == base as real ==> Counted(share) == base
    ensures Counted(share) as real - share <= 0.5 || (Counted(share) == 1 && share < 0.5)
    ensures share - Counted(share) as real <= 0.5
  {
    RoundAtMost(share, base);
    RoundOfInteger(base);
  }

  /** On a fold of the region a count is at least one, never above the full-scale count, equal to
      it for the whole region, and otherwise within a half of the proportional share unless it was
      lifted to one. */
  lemma CountsScale(base: nat, foldLength: nat, reference: nat)
    requires 0 < base && 0 < reference && foldLength <= reference
    ensures
      var count, share := ScaledCount(base, foldLength, reference), Share(base, foldLength, reference);
      && 1 <= count <= base
      && (foldLength == reference ==> count == base)
      && (count as real - share <= 0.5 || (count == 1 && share < 0.5))
      && share - count as real <= 0.5
    ensures
      var count := ScaledCount(base, foldLength, reference);
      Nearest(count, base * foldLength, reference) || (count == 1 && 2 * (base * foldLength) <= reference)
  {
    ShareIsPart(base, foldLength, reference);
    CountOfShare(base, Share(base, foldLength, reference));
    NearestCount(base, foldLength, reference);
  }

  /** The count without the detour over a quotient: the integer nearest to `base * foldLength`
      parts of `reference`, ties to even, or one where that is none. */
  lemma NearestCount(base: nat, foldLength: nat, reference: nat)
    requires 0 < reference
    ensures
      var count := ScaledCount(base, foldLength, reference);
      Nearest(count, base * foldLength, reference) || (count == 1 && 2 * (base * foldLength) <= reference)
  {
    hide Round, Nearest, Share;
    var a := base * foldLength;
    ShareIsQuotient(base, foldLength, reference, a);
    RoundedQuotient(a, reference);
    RoundOfNonNegative(Share(base, foldLength, reference));
    if Round(Share(base, foldLength, reference)) < 1 {
      NearestNone(a, reference);
    }
  }

  lemma ShareIsQuotient(base: nat, foldLength: nat, reference: nat, a: nat)
    requires 0 < reference && a == base * foldLength
    ensures Share(base, foldLength, reference) == a as real / reference as real >= 0.0
  {
    ProductReal(base, foldLength);
    var x, q := a as real, foldLength as real / reference as real;
    DivideBack(foldLength as real, reference as real, q);
    assert base as real * q * reference as real == x;
    Unique(base as real * q, x, reference as real);
    NonNegative(x, reference as real);
  }

  lemma NearestNone(a: int, n: int)
    requires Nearest(0, a, n)
    ensures 2 * a <= n
  {
  }
}
