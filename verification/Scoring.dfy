/** Scoring a whole series with causal windows (ml/model/score.py). The reconstruction error
    of a window is any function of it. */
module Scoring {
  import opened Options
  import opened Dataset

  type WindowError = seq<Row> -> Cell

  /** `score_series`: zeros, overwritten from row size - 1 on by the windows' errors. */
  method ScoreSeries(g: Frame, error: WindowError, scaler: Scaler, size: nat) returns (scores: seq<Cell>)
    requires Valid(g) && Usable(scaler) && |scaler.mean| == |g.columns| && size >= 1
    ensures scores == Scores(Values(FillGaps(g), scaler), error, size)
  {
    var values := Values(FillGaps(g), scaler);
    var n := |values|;
    scores := seq(n, _ => Some(0.0));
    if n < size {
      return;
    }
    for i := size to n + 1
      invariant |scores| == n
      invariant forall j :: 0 <= j < i - 1 ==> scores[j] == ScoreAt(values, error, size, j)
      invariant forall j :: i - 1 <= j < n ==> scores[j] == Some(0.0)
    {
      scores := scores[i - 1 := error(values[i - size..i])];
    }
  }

  /** The error of the window that ends at row j, 0 where there is no complete one. */
  function ScoreAt(values: seq<Row>, error: WindowError, size: nat, j: nat): Cell
    requires j < |values| && size >= 1
  {
    if j + 1 < size then Some(0.0) else error(values[j + 1 - size..j + 1])
  }

  function Scores(values: seq<Row>, error: WindowError, size: nat): (r: seq<Cell>)
    requires size >= 1
    ensures |r| == |values|
  {
    seq(|values|, j requires 0 <= j < |values| => ScoreAt(values, error, size, j))
  }

  /** The scored windows are the training windows with stride 1. */
  lemma ScoresUseTrainingWindows(values: seq<Row>, error: WindowError, size: nat, i: nat)
    requires 1 <= size && i < |BuildWindows(values, size, 1)|
    ensures size - 1 + i < |values|
    ensures Scores(values, error, size)[size - 1 + i] == error(BuildWindows(values, size, 1)[i])
    ensures size <= |values| ==> |BuildWindows(values, size, 1)| == |values| - size + 1
  {
    WindowAt(values, size, 1, 0, i);
    if size <= |values| {
      WindowAt(values, size, 1, 0, |values| - size);
      WindowAt(values, size, 1, 0, |values| - size + 1);
    }
  }

  predicate Fits(g: Frame, scaler: Scaler) {
    Usable(scaler) && |scaler.mean| == |g.columns|
  }

  /** Scoring the first k rows gives the first k scores of the whole series. */
  predicate PrefixScores(g: Frame, k: nat, error: WindowError, scaler: Scaler, size: nat)
    requires Valid(g) && Fits(g, scaler) && size >= 1 && k <= g.length
  {
    Scores(Values(FillGaps(Take(g, k)), scaler), error, size)
    == Scores(Values(FillGaps(g), scaler), error, size)[..k]
  }

  /** Causality: it does, as soon as every feature that is observed at all has been observed among
      those rows. */
  lemma ScoringIsCausal(g: Frame, error: WindowError, scaler: Scaler, size: nat, k: nat)
    requires Valid(g) && Fits(g, scaler) && size >= 1
    requires k <= g.length && SettledBy(g, k)
    ensures PrefixScores(g, k, error, scaler, size)
  {
    FillTake(g, k);
    ValuesOfParts(FillGaps(g), k, scaler);
    ScoresOfPrefix(Values(FillGaps(g), scaler), error, size, k);
  }

  ghost predicate Causal(g: Frame, k: nat)
    requires Valid(g) && k <= g.length
  {
    forall error: WindowError, scaler: Scaler, size: nat | Fits(g, scaler) && size >= 1 ::
      PrefixScores(g, k, error, scaler, size)
  }

  /** For every error, scaler and window size: exactly then. */
  lemma CausalExactly(g: Frame, k: nat)
    requires Valid(g) && k <= g.length
    ensures Causal(g, k) <==> SettledBy(g, k)
  {
    if SettledBy(g, k) {
      forall error: WindowError, scaler: Scaler, size: nat | Fits(g, scaler) && size >= 1
        ensures PrefixScores(g, k, error, scaler, size)
      {
        ScoringIsCausal(g, error, scaler, size, k);
      }
    } else {
      var j: nat :| j < |g.columns| && k > 0 && !Observed(g.columns[j][..k]) && Observed(g.columns[j]);
      LateFeatureLeaks(g, k, j);
      assert !PrefixScores(g, k, CellError(j), Unit(|g.columns|), 1);
    }
  }

  lemma ScoresOfPrefix(values: seq<Row>, error: WindowError, size: nat, k: nat)
    requires size >= 1 && k <= |values|
    ensures Scores(values[..k], error, size) == Scores(values, error, size)[..k]
  {
    forall j | 0 <= j < k ensures ScoreAt(values[..k], error, size, j) == ScoreAt(values, error, size, j) {
      if j + 1 >= size {
        assert values[..k][j + 1 - size..j + 1] == values[j + 1 - size..j + 1];
      }
    }
  }

  /** A window error that returns a feature's value in a window of one row. */
  function CellError(j: nat): WindowError {
    (w: seq<Row>) => if |w| == 1 && j < |w[0]| then w[0][j] else None
  }

  /** The scaler that changes nothing. */
  function Unit(n: nat): (s: Scaler)
    ensures Usable(s) && |s.mean| == n
  {
    Scaler(seq(n, _ => Some(0.0)), seq(n, _ => Some(1.0)))
  }

  /** A feature that is first observed after row k makes the difference: for some detector the
      scores of the first k rows see the future through the backward fill. */
  lemma LateFeatureLeaks(g: Frame, k: nat, j: nat)
    requires Valid(g) && 0 < k <= g.length && j < |g.columns|
    requires !Observed(g.columns[j][..k]) && Observed(g.columns[j])
    ensures Fits(g, Unit(|g.columns|)) && !PrefixScores(g, k, CellError(j), Unit(|g.columns|), 1)
  {
    LateColumn(g.columns[j], k);
    FirstScore(FillGaps(g), j);
    FirstScore(FillGaps(Take(g, k)), j);
  }

  lemma FirstScore(g: Frame, j: nat)
    requires Valid(g) && 0 < g.length && j < |g.columns|
    ensures Scores(Values(g, Unit(|g.columns|)), CellError(j), 1)[0].Some? <==> g.columns[j][0].Some?
  {
    var values := Values(g, Unit(|g.columns|));
    assert values[0..1] == [values[0]];
    assert values[0][j] == Scaled(g.columns[j][0], Some(0.0), Some(1.0));
  }
}
