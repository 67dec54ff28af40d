/** Gap filling, windowing, normalization and the time-based split (ml/model/dataset.py). A
    missing value (NaN) is None. */
module Dataset {
  import opened Options
  import opened Reals

  type Cell = Option<real>
  type Column = seq<Cell>
  type Row = seq<Cell>

  // ---------------- filling gaps in one column ----------------

  predicate Observed(c: Column) {
    exists i :: 0 <= i < |c| && c[i].Some?
  }

  /** `ffill`: the last observed value so far. */
  function Ffill(c: Column): (r: Column)
    ensures |r| == |c|
  {
    if c == [] then []
    else
      var n := |c| - 1;
      var before := Ffill(c[..n]);
      before + [if c[n].Some? || n == 0 then c[n] else before[n - 1]]
  }

  /** `bfill`: the next observed value. */
  function Bfill(c: Column): (r: Column)
    ensures |r| == |c|
  {
    if c == [] then []
    else
      var after := Bfill(c[1..]);
      [if c[0].Some? || after == [] then c[0] else after[0]] + after
  }

  /** One column of `fill_gaps`. */
  function Fill(c: Column): (r: Column)
    ensures |r| == |c|
  {
    Bfill(Ffill(c))
  }

  /** The first observed row, or the length of the column. */
  function FirstSeen(c: Column): (f: nat)
    ensures f <= |c|
    ensures forall i :: 0 <= i < f ==> c[i].None?
    ensures f < |c| ==> c[f].Some?
  {
    if c == [] || c[0].Some? then 0 else FirstSeen(c[1..]) + 1
  }

  lemma {:induction false} FfillPrefix(c: Column, k: nat)
    requires k <= |c|
    ensures Ffill(c)[..k] == Ffill(c[..k])
  {
    if k < |c| {
      var n := |c| - 1;
      FfillPrefix(c[..n], k);
      assert c[..n][..k] == c[..k];
      assert Ffill(c)[..k] == Ffill(c[..n])[..k];
    } else {
      assert c[..k] == c;
    }
  }

  /** Forward filling starts at the first observed row and keeps observed values. */
  lemma {:induction false} FfillAt(c: Column, i: nat)
    requires i < |c|
    ensures Ffill(c)[i].Some? <==> FirstSeen(c) <= i
    ensures c[i].Some? ==> Ffill(c)[i] == c[i]
  {
    var n := |c| - 1;
    if i < n {
      FfillPrefix(c, n);
      assert Ffill(c)[i] == Ffill(c[..n])[i];
      FfillAt(c[..n], i);
    } else if c[n].None? && n > 0 {
      FfillAt(c[..n], n - 1);
    }
  }

  /** Backward filling leaves observed values alone and reaches down from the first of a
      column whose gaps are all in front. */
  lemma {:induction false} BfillAt(c: Column, i: nat)
    requires i < |c|
    requires forall j :: FirstSeen(c) <= j < |c| ==> c[j].Some?
    ensures var f := FirstSeen(c); Bfill(c)[i] == if f == |c| then None else c[if i < f then f else i]
  {
    if i > 0 {
      BfillAt(c[1..], i - 1);
    } else if |c| > 1 {
      BfillAt(c[1..], 0);
    }
  }

  /** A filled column: before the first observed row its value, afterwards the last observed. */
  lemma FillAt(c: Column, i: nat)
    requires i < |c|
    ensures var f := FirstSeen(c); Fill(c)[i] == if f == |c| then None else Ffill(c)[if i < f then f else i]
  {
    var d := Ffill(c);
    forall j | 0 <= j < |c| ensures d[j].Some? <==> FirstSeen(c) <= j {
      FfillAt(c, j);
    }
    SameFirstSeen(c, d);
    BfillAt(d, i);
  }

  lemma SameFirstSeen(c: Column, d: Column)
    requires |d| == |c| && forall j :: 0 <= j < |c| ==> (d[j].Some? <==> FirstSeen(c) <= j)
    ensures FirstSeen(d) == FirstSeen(c)
  {
  }

  /** Filling keeps every observed value and leaves no gap where anything was observed. */
  lemma FillKeepsAndCloses(c: Column)
    ensures forall i :: 0 <= i < |c| && c[i].Some? ==> Fill(c)[i] == c[i]
    ensures Observed(c) ==> forall i :: 0 <= i < |c| ==> Fill(c)[i].Some?
    ensures !Observed(c) ==> Fill(c) == c
  {
    forall i | 0 <= i < |c|
      ensures c[i].Some? ==> Fill(c)[i] == c[i]
      ensures Observed(c) ==> Fill(c)[i].Some?
      ensures !Observed(c) ==> Fill(c)[i] == c[i]
    {
      FillAt(c, i);
      FfillAt(c, i);
      if FirstSeen(c) < |c| {
        FfillAt(c, FirstSeen(c));
      }
    }
  }

  /** Row j is the last observed one before row i. */
  ghost predicate LastBefore(c: Column, i: nat, j: nat) {
    j < i <= |c| && c[j].Some? && forall k :: j < k < i ==> c[k].None?
  }

  /** Row j is the first observed one after row i, and there is none before. */
  ghost predicate FirstOfAll(c: Column, i: nat, j: nat) {
    i < j < |c| && c[j].Some? && forall k :: 0 <= k < j ==> c[k].None?
  }

  lemma {:induction false} FfillCloses(c: Column, i: nat, j: nat)
    requires i < |c| && c[i].None? && LastBefore(c, i, j)
    ensures Ffill(c)[i] == c[j]
  {
    FfillPrefix(c, i + 1);
    var d := c[..i + 1];
    assert Ffill(c)[i] == Ffill(d)[i] && d[..i] == c[..i];
    if j == i - 1 {
      FfillAt(c[..i], j);
    } else {
      FfillPrefix(c, i);
      FfillCloses(c, i - 1, j);
    }
  }

  /** What closes a gap: the last observed value before it, and where nothing is observed before
      it the first one of all. */
  lemma GapFilled(c: Column, i: nat, j: nat)
    requires i < |c| && c[i].None?
    ensures LastBefore(c, i, j) ==> Fill(c)[i] == c[j]
    ensures FirstOfAll(c, i, j) ==> Fill(c)[i] == c[j]
  {
    FillAt(c, i);
    if LastBefore(c, i, j) {
      FfillCloses(c, i, j);
    }
    if FirstOfAll(c, i, j) {
      FfillAt(c, j);
    }
  }

  lemma FillIdempotent(c: Column)
    ensures Fill(Fill(c)) == Fill(c)
  {
    FillKeepsAndCloses(c);
    FillKeepsAndCloses(Fill(c));
  }

  /** Filling a prefix is the prefix of filling, unless the first value comes only later. */
  lemma FillPrefix(c: Column, k: nat)
    requires k <= |c|
    ensures Fill(c[..k]) == Fill(c)[..k] <==> (k == 0 || Observed(c[..k]) || !Observed(c))
  {
    FfillPrefix(c, k);
    if k > 0 && !Observed(c[..k]) && Observed(c) {
      FillKeepsAndCloses(c);
      FillKeepsAndCloses(c[..k]);
      assert Fill(c)[..k][0].Some? && Fill(c[..k])[0].None?;
    } else {
      forall i | 0 <= i < k ensures Fill(c[..k])[i] == Fill(c)[..k][i] {
        FillAt(c, i);
        FillAt(c[..k], i);
        var f := FirstSeen(c);
        if f < |c| {
          assert f < k;
          var j := if i < f then f else i;
          assert Ffill(c[..k])[j] == Ffill(c)[..k][j];
        }
      }
    }
  }

  // ---------------- frames ----------------

  /** Feature columns of equal length. */
  datatype Frame = Frame(length: nat, columns: seq<Column>)

  predicate Valid(g: Frame) {
    forall j :: 0 <= j < |g.columns| ==> |g.columns[j]| == g.length
  }

  function FillGaps(g: Frame): (r: Frame)
    requires Valid(g)
    ensures Valid(r) && r.length == g.length && |r.columns| == |g.columns|
    ensures forall j :: 0 <= j < |g.columns| ==> r.columns[j] == Fill(g.columns[j])
  {
    Frame(g.length, seq(|g.columns|, j requires 0 <= j < |g.columns| => Fill(g.columns[j])))
  }

  /** The first k rows, and the rows from k on. */
  function Take(g: Frame, k: nat): (r: Frame)
    requires Valid(g) && k <= g.length
    ensures Valid(r)
  {
    Frame(k, seq(|g.columns|, j requires 0 <= j < |g.columns| => g.columns[j][..k]))
  }

  function Drop(g: Frame, k: nat): (r: Frame)
    requires Valid(g) && k <= g.length
    ensures Valid(r)
  {
    Frame(g.length - k, seq(|g.columns|, j requires 0 <= j < |g.columns| => g.columns[j][k..]))
  }

  /** Every feature is observed in the first k rows, if there are any. */
  predicate ObservedBy(g: Frame, k: nat)
    requires Valid(g) && k <= g.length
  {
    forall j :: 0 <= j < |g.columns| ==> k == 0 || Observed(g.columns[j][..k])
  }

  /** Every feature that is observed at all is observed in the first k rows, if there are any. */
  predicate SettledBy(g: Frame, k: nat)
    requires Valid(g) && k <= g.length
  {
    forall j :: 0 <= j < |g.columns| ==> k == 0 || Observed(g.columns[j][..k]) || !Observed(g.columns[j])
  }

  /** Filling the first rows alone is filling everything and taking them, exactly if the features
      are settled by then. */
  lemma FillTake(g: Frame, k: nat)
    requires Valid(g) && k <= g.length
    ensures FillGaps(Take(g, k)) == Take(FillGaps(g), k) <==> SettledBy(g, k)
  {
    var alone, taken := FillGaps(Take(g, k)), Take(FillGaps(g), k);
    forall j | 0 <= j < |g.columns|
      ensures alone.columns[j] == taken.columns[j]
         <==> (k == 0 || Observed(g.columns[j][..k]) || !Observed(g.columns[j]))
    {
      assert alone.columns[j] == Fill(g.columns[j][..k]) && taken.columns[j] == Fill(g.columns[j])[..k];
      FillPrefix(g.columns[j], k);
    }
    if SettledBy(g, k) {
      assert alone.columns == taken.columns;
    }
  }

  /** The one value that a late column's first rows are filled with, and nothing without it. */
  lemma LateColumn(c: Column, k: nat)
    requires 0 < k <= |c| && !Observed(c[..k])
    ensures Observed(c) ==> forall i :: 0 <= i < k ==> Fill(c)[i].Some?
    ensures !Observed(c) ==> forall i :: 0 <= i < k ==> Fill(c)[i].None?
    ensures forall i :: 0 <= i < k ==> Fill(c[..k])[i].None?
  {
    FillKeepsAndCloses(c);
    FillKeepsAndCloses(c[..k]);
  }

  function RowAt(g: Frame, i: nat): Row
    requires Valid(g) && i < g.length
  {
    seq(|g.columns|, j requires 0 <= j < |g.columns| => g.columns[j][i])
  }

  // ---------------- normalization ----------------

  datatype Scaler = Scaler(mean: seq<Cell>, std: seq<Cell>)

  function SumOf(c: Column): Cell {
    if c == [] then Some(0.0)
    else
      var s := SumOf(c[..|c| - 1]);
      if s.Some? && c[|c| - 1].Some? then Some(s.value + c[|c| - 1].value) else None
  }

  /** `mean`: NaN for no rows and wherever a value is NaN. */
  function Mean(c: Column): Cell {
    var s := SumOf(c);
    if c == [] || s.None? then None else Some(s.value / |c| as real)
  }

  function Squares(c: Column, m: real): (r: Column)
    ensures |r| == |c|
  {
    seq(|c|, i requires 0 <= i < |c| => if c[i].Some? then Some(Square(c[i].value - m)) else None)
  }

  /** `std`, with a constant column's 0 replaced by 1; `sqrt` is the square root. */
  function Std(c: Column, sqrt: real -> real): (s: Cell)
    ensures s != Some(0.0)
  {
    var m := Mean(c);
    if m.None? then None
    else
      var v := Mean(Squares(c, m.value));
      if v.None? then None
      else if sqrt(v.value) == 0.0 then Some(1.0) else Some(sqrt(v.value))
  }

  function Fit(g: Frame, sqrt: real -> real): (s: Scaler)
    requires Valid(g)
    ensures Usable(s)
  {
    Scaler(seq(|g.columns|, j requires 0 <= j < |g.columns| => Mean(g.columns[j])),
           seq(|g.columns|, j requires 0 <= j < |g.columns| => Std(g.columns[j], sqrt)))
  }

  /** No division by zero. */
  predicate Usable(s: Scaler) {
    |s.mean| == |s.std| && forall j :: 0 <= j < |s.std| ==> s.std[j] != Some(0.0)
  }

  function Scaled(x: Cell, m: Cell, d: Cell): Cell
    requires d != Some(0.0)
  {
    if x.Some? && m.Some? && d.Some? then Some((x.value - m.value) / d.value) else None
  }

  function Unscaled(y: Cell, m: Cell, d: Cell): Cell {
    if y.Some? && m.Some? && d.Some? then Some(y.value * d.value + m.value) else None
  }

  /** `inverse_transform` undoes `transform`. */
  lemma ScaleBack(x: Cell, m: Cell, d: Cell)
    requires d != Some(0.0) && m.Some? && d.Some?
    ensures Unscaled(Scaled(x, m, d), m, d) == x
  {
    if x.Some? {
      var y := Scaled(x, m, d);
      DivideBack(x.value - m.value, d.value, y.value);
      assert Unscaled(y, m, d).value == y.value * d.value + m.value;
      assert Unscaled(y, m, d).value == x.value;
    }
  }

  /** `transform`, on one row. */
  function Transform(s: Scaler, row: Row): (r: Row)
    requires Usable(s) && |row| == |s.mean|
    ensures |r| == |row|
  {
    seq(|row|, j requires 0 <= j < |row| => Scaled(row[j], s.mean[j], s.std[j]))
  }

  function Values(g: Frame, s: Scaler): (r: seq<Row>)
    requires Valid(g) && Usable(s) && |s.mean| == |g.columns|
    ensures |r| == g.length
  {
    seq(g.length, i requires 0 <= i < g.length => Transform(s, RowAt(g, i)))
  }

  // ---------------- what normalization achieves ----------------

  predicate NoGaps(c: Column) {
    forall i :: 0 <= i < |c| ==> c[i].Some?
  }

  function ScaledBy(c: Column, m: Cell, d: Cell): (r: Column)
    requires d != Some(0.0)
    ensures |r| == |c|
  {
    seq(|c|, i requires 0 <= i < |c| => Scaled(c[i], m, d))
  }

  lemma {:induction false} SumExists(c: Column)
    requires NoGaps(c)
    ensures SumOf(c).Some?
  {
    if c != [] {
      SumExists(c[..|c| - 1]);
    }
  }

  /** The scaled sum times the divisor is the sum of the distances. */
  lemma {:induction false} SumScaled(c: Column, m: real, d: real)
    requires NoGaps(c) && d != 0.0
    ensures SumOf(c).Some? && SumOf(ScaledBy(c, Some(m), Some(d))).Some?
    ensures SumOf(ScaledBy(c, Some(m), Some(d))).value * d == SumOf(c).value - Times(|c|, m)
  {
    hide Times;
    TimesZero(m);
    if c != [] {
      var n := |c| - 1;
      var y := ScaledBy(c, Some(m), Some(d));
      SumScaled(c[..n], m, d);
      assert y[..n] == ScaledBy(c[..n], Some(m), Some(d));
      TimesNext(n, m);
      DivideBack(c[n].value - m, d, y[n].value);
      Distribute(SumOf(y[..n]).value, y[n].value, d);
    }
  }

  lemma SquaresPrefix(c: Column, m: real)
    requires c != []
    ensures Squares(c, m)[..|c| - 1] == Squares(c[..|c| - 1], m)
  {
    hide Square;
  }

  lemma {:induction false} SumSquaresScaled(c: Column, m: real, d: real)
    requires NoGaps(c) && d != 0.0
    ensures SumOf(Squares(c, m)).Some? && SumOf(Squares(ScaledBy(c, Some(m), Some(d)), 0.0)).Some?
    ensures SumOf(Squares(ScaledBy(c, Some(m), Some(d)), 0.0)).value * Square(d) == SumOf(Squares(c, m)).value
  {
    hide Square;
    if c != [] {
      var n := |c| - 1;
      SumSquaresScaled(c[..n], m, d);
      var y, x := ScaledBy(c, Some(m), Some(d)), c[n].value - m;
      assert y[..n] == ScaledBy(c[..n], Some(m), Some(d));
      SquaresPrefix(y, 0.0);
      SquaresPrefix(c, m);
      SquareQuotient(x, d);
      assert x / d - 0.0 == x / d;
      Distribute(SumOf(Squares(y[..n], 0.0)).value, Square(x / d), Square(d));
    }
  }

  /** A sum of squares is zero exactly if every value is the one they are taken from. */
  lemma {:induction false} NoSpread(c: Column, m: real)
    requires NoGaps(c)
    ensures SumOf(Squares(c, m)).Some? && SumOf(Squares(c, m)).value >= 0.0
    ensures SumOf(Squares(c, m)).value == 0.0 <==> forall i :: 0 <= i < |c| ==> c[i] == Some(m)
  {
    if c != [] {
      var n := |c| - 1;
      hide Square;
      NoSpread(c[..n], m);
      SquaresPrefix(c, m);
      assert c[n] == Some(m) <==> c[n].value - m == 0.0;
    }
  }

  lemma MeanTimes(c: Column)
    requires NoGaps(c) && c != []
    ensures Mean(c).Some? && SumOf(c) == Some(Times(|c|, Mean(c).value))
  {
    SumExists(c);
    QuotientTimes(SumOf(c).value, |c|);
  }

  lemma {:induction false} ConstantSum(c: Column, x: real)
    requires forall i :: 0 <= i < |c| ==> c[i] == Some(x)
    ensures SumOf(c) == Some(Times(|c|, x))
  {
    hide Times;
    TimesZero(x);
    if c != [] {
      ConstantSum(c[..|c| - 1], x);
      TimesNext(|c| - 1, x);
    }
  }

  predicate Constant(c: Column) {
    forall i :: 0 <= i < |c| ==> c[i] == c[0]
  }

  lemma ConstantMean(c: Column)
    requires NoGaps(c) && c != []
    ensures Constant(c) <==> forall i :: 0 <= i < |c| ==> c[i] == Mean(c)
  {
    MeanTimes(c);
    if Constant(c) {
      ConstantSum(c, c[0].value);
      SameFactor(|c|, Mean(c).value, c[0].value);
    }
  }

  /** The mean of the squared distances from the mean. */
  function Variance(c: Column): Cell {
    if Mean(c).Some? then Mean(Squares(c, Mean(c).value)) else None
  }

  /** A fitted column has mean zero, and unit variance unless it is constant, when it is zero
      throughout; `sqrt` need only be right at the column's variance. */
  lemma Normalized(c: Column, sqrt: real -> real)
    requires NoGaps(c) && c != [] && Variance(c).Some?
    requires Square(sqrt(Variance(c).value)) == Variance(c).value
    ensures Std(c, sqrt).Some?
    ensures
      var y := ScaledBy(c, Mean(c), Std(c, sqrt));
      && SumOf(y) == Some(0.0)
      && if Constant(c) then forall i :: 0 <= i < |c| ==> y[i] == Some(0.0)
         else SumOf(Squares(y, 0.0)) == Some(|c| as real)
  {
    hide Times, Square;
    MeanTimes(c);
    ConstantMean(c);
    NoSpread(c, Mean(c).value);
    if Constant(c) {
      NormalizedConstant(c, sqrt);
    } else {
      NormalizedVaried(c, sqrt);
    }
  }

  lemma NormalizedConstant(c: Column, sqrt: real -> real)
    requires NoGaps(c) && c != [] && Variance(c).Some?
    requires Square(sqrt(Variance(c).value)) == Variance(c).value
    requires Mean(c).Some? && forall i :: 0 <= i < |c| ==> c[i] == Mean(c)
    requires SumOf(Squares(c, Mean(c).value)) == Some(0.0)
    ensures Std(c, sqrt) == Some(1.0)
    ensures
      var y := ScaledBy(c, Mean(c), Std(c, sqrt));
      SumOf(y) == Some(0.0) && forall i :: 0 <= i < |c| ==> y[i] == Some(0.0)
  {
    hide Times, Square;
    assert Variance(c) == Some(0.0);
    var y := ScaledBy(c, Mean(c), Some(1.0));
    assert forall i :: 0 <= i < |y| ==> y[i] == Some(0.0);
    ConstantSum(y, 0.0);
    NothingTimes(|y|);
  }

  lemma NormalizedVaried(c: Column, sqrt: real -> real)
    requires NoGaps(c) && c != [] && Variance(c).Some?
    requires Square(sqrt(Variance(c).value)) == Variance(c).value
    requires Mean(c).Some? && SumOf(c) == Some(Times(|c|, Mean(c).value))
    requires SumOf(Squares(c, Mean(c).value)).Some? && SumOf(Squares(c, Mean(c).value)).value > 0.0
    ensures Std(c, sqrt).Some?
    ensures
      var y := ScaledBy(c, Mean(c), Std(c, sqrt));
      SumOf(y) == Some(0.0) && SumOf(Squares(y, 0.0)) == Some(|c| as real)
  {
    hide Times, Square, SumOf, Squares, ScaledBy;
    var m, squares, v := Mean(c).value, SumOf(Squares(c, Mean(c).value)).value, Variance(c).value;
    var d := sqrt(v);
    assert v == squares / |c| as real;
    PositiveQuotient(squares, |c| as real);
    assert Std(c, sqrt) == Some(d);
    SumScaled(c, m, d);
    SumSquaresScaled(c, m, d);
    var y := ScaledBy(c, Some(m), Some(d));
    NoFactor(SumOf(y).value, d);
    SameQuotient(SumOf(Squares(y, 0.0)).value, Square(d), squares, |c|);
  }

  /** Feature j of some rows. */
  function Cells(values: seq<Row>, j: nat): Column
    requires forall i :: 0 <= i < |values| ==> j < |values[i]|
  {
    seq(|values|, i requires 0 <= i < |values| => values[i][j])
  }

  /** Normalizing rows scales each feature with its own mean and spread. */
  lemma ValuesByColumn(g: Frame, s: Scaler, j: nat)
    requires Valid(g) && Usable(s) && |s.mean| == |g.columns| && j < |g.columns|
    ensures forall i :: 0 <= i < g.length ==> j < |Values(g, s)[i]|
    ensures Cells(Values(g, s), j) == ScaledBy(g.columns[j], s.mean[j], s.std[j])
  {
  }

  // ---------------- windows and the split ----------------

  /** The windows from row `from` on: `values[s : s + size]` for s in steps of `stride`. */
  function WindowsFrom(values: seq<Row>, size: nat, stride: nat, from: nat): seq<seq<Row>>
    requires stride >= 1
    decreases if from <= |values| then |values| - from + 1 else 0
  {
    if from + size > |values| then []
    else [values[from..from + size]] + WindowsFrom(values, size, stride, from + stride)
  }

  /** `build_windows`. */
  function BuildWindows(values: seq<Row>, size: nat, stride: nat): seq<seq<Row>>
    requires stride >= 1
  {
    WindowsFrom(values, size, stride, 0)
  }

  /** Window i is the stretch of `size` rows that starts at row i * stride, and every such
      stretch that fits is there. */
  lemma {:induction false} WindowAt(values: seq<Row>, size: nat, stride: nat, from: nat, i: nat)
    requires stride >= 1
    ensures i < |WindowsFrom(values, size, stride, from)| <==> from + i * stride + size <= |values|
    ensures i < |WindowsFrom(values, size, stride, from)| ==>
      WindowsFrom(values, size, stride, from)[i] == values[from + i * stride..from + i * stride + size]
    decreases i
  {
    Multiple(i, stride);
    if from + size <= |values| && i > 0 {
      WindowAt(values, size, stride, from + stride, i - 1);
    }
  }

  lemma Multiple(i: nat, stride: nat)
    ensures i * stride >= 0 && (i == 0 ==> i * stride == 0)
    ensures i > 0 ==> i * stride == (i - 1) * stride + stride
  {
  }

  /** The row where the validation part begins. */
  function SplitAt(n: nat, valFraction: real): (k: nat)
    requires 0.0 <= valFraction <= 1.0
    ensures k <= n
    ensures k as real <= n as real * (1.0 - valFraction) < (k + 1) as real
  {
    SplitBounds(n, valFraction);
    (n as real * (1.0 - valFraction)).Floor
  }

  lemma SplitBounds(n: nat, valFraction: real)
    requires 0.0 <= valFraction <= 1.0
    ensures 0.0 <= n as real * (1.0 - valFraction) <= n as real
  {
    var x, y := n as real, 1.0 - valFraction;
    assert x * y >= 0.0;
    assert x * valFraction >= 0.0;
    assert x * y == x - x * valFraction;
  }

  datatype Prepared = Prepared(train: seq<seq<Row>>, val: seq<seq<Row>>, scaler: Scaler)

  /** `prepare_node_windows`. */
  function PrepareNodeWindows(g: Frame, size: nat, stride: nat, valFraction: real, sqrt: real -> real): Prepared
    requires Valid(g) && stride >= 1 && 0.0 <= valFraction <= 1.0
  {
    var filled, k := FillGaps(g), SplitAt(g.length, valFraction);
    var scaler := Fit(Take(filled, k), sqrt);
    Prepared(BuildWindows(Values(Take(filled, k), scaler), size, stride),
             BuildWindows(Values(Drop(filled, k), scaler), size, stride),
             scaler)
  }

  /** What the detector is trained on: the windows are cut from rows in which every observed feature
      has mean zero, and unit variance unless it is constant, when it is zero throughout. */
  lemma TrainingIsNormalized(g: Frame, size: nat, stride: nat, valFraction: real, sqrt: real -> real, j: nat)
      returns (rows: seq<Row>)
    requires Valid(g) && stride >= 1 && 0.0 <= valFraction <= 1.0
    requires j < |g.columns| && Observed(g.columns[j]) && SplitAt(g.length, valFraction) > 0
    requires forall x: real :: x >= 0.0 ==> Square(sqrt(x)) == x
    ensures PrepareNodeWindows(g, size, stride, valFraction, sqrt).train == BuildWindows(rows, size, stride)
    ensures |rows| == SplitAt(g.length, valFraction) && forall i :: 0 <= i < |rows| ==> j < |rows[i]|
    ensures
      var y, c := Cells(rows, j), Fill(g.columns[j])[..|rows|];
      && SumOf(y) == Some(0.0)
      && if Constant(c) then forall i :: 0 <= i < |y| ==> y[i] == Some(0.0)
         else SumOf(Squares(y, 0.0)) == Some(|rows| as real)
  {
    var k := SplitAt(g.length, valFraction);
    var part := Take(FillGaps(g), k);
    var scaler := Fit(part, sqrt);
    rows := Values(part, scaler);
    ValuesByColumn(part, scaler, j);
    var c := Fill(g.columns[j])[..k];
    assert part.columns[j] == c;
    FillKeepsAndCloses(g.columns[j]);
    VarianceExists(c);
    Normalized(c, sqrt);
  }

  lemma VarianceExists(c: Column)
    requires NoGaps(c) && c != []
    ensures Variance(c).Some? && Variance(c).value >= 0.0
  {
    SumExists(c);
    NoSpread(c, Mean(c).value);
    NonNegative(SumOf(Squares(c, Mean(c).value)).value, |c| as real);
  }

  /** Scaler and training windows of two prepared data sets are the same. */
  predicate SameTraining(p1: Prepared, p2: Prepared) {
    p1.train == p2.train && p1.scaler == p2.scaler
  }

  /** No leakage: although the gaps are filled first, the scaler and the training windows
      depend on nothing but the rows before the split. */
  lemma NoLeakage(g1: Frame, g2: Frame, size: nat, stride: nat, valFraction: real, sqrt: real -> real)
    requires Valid(g1) && Valid(g2) && stride >= 1 && 0.0 <= valFraction <= 1.0
    requires g1.length == g2.length
    requires
      var k := SplitAt(g1.length, valFraction);
      SettledBy(g1, k) && SettledBy(g2, k) && Take(g1, k) == Take(g2, k)
    ensures SameTraining(PrepareNodeWindows(g1, size, stride, valFraction, sqrt),
                         PrepareNodeWindows(g2, size, stride, valFraction, sqrt))
  {
    var k := SplitAt(g1.length, valFraction);
    FillTake(g1, k);
    FillTake(g2, k);
  }

  lemma {:induction false} MeanKnown(c: Column)
    ensures (forall i :: 0 <= i < |c| ==> c[i].Some?) <==> SumOf(c).Some?
  {
    if c != [] {
      var n := |c| - 1;
      MeanKnown(c[..n]);
      if forall i :: 0 <= i < n ==> c[..n][i].Some? {
        assert forall i :: 0 <= i < n ==> c[i] == c[..n][i];
      }
    }
  }

  /** A column that comes late gives the scaler a mean if its later rows are looked at, and none
      otherwise. */
  lemma LateMean(c: Column, k: nat)
    requires 0 < k <= |c| && !Observed(c[..k])
    ensures Mean(Fill(c)[..k]).Some? <==> Observed(c)
    ensures Mean(Fill(c[..k])).None?
  {
    LateColumn(c, k);
    MeanKnown(Fill(c)[..k]);
    MeanKnown(Fill(c[..k]));
    assert Fill(c)[..k][0] == Fill(c)[0] && Fill(c[..k])[0].None?;
  }

  /** What would be prepared from the first k rows alone. */
  function PreparedAlone(g: Frame, k: nat, size: nat, stride: nat, sqrt: real -> real): Prepared
    requires Valid(g) && k <= g.length && stride >= 1
  {
    var rows := FillGaps(Take(g, k));
    Prepared(BuildWindows(Values(rows, Fit(rows, sqrt)), size, stride), [], Fit(rows, sqrt))
  }

  /** Filling first makes no difference to the training data exactly if every feature that is
      observed at all is observed before the split. */
  lemma FillingFirstIsHarmless(g: Frame, size: nat, stride: nat, valFraction: real, sqrt: real -> real)
    requires Valid(g) && stride >= 1 && 0.0 <= valFraction <= 1.0
    ensures
      var k := SplitAt(g.length, valFraction);
      SameTraining(PrepareNodeWindows(g, size, stride, valFraction, sqrt), PreparedAlone(g, k, size, stride, sqrt))
      <==> SettledBy(g, k)
  {
    var k := SplitAt(g.length, valFraction);
    FillTake(g, k);
    if !SettledBy(g, k) {
      var j :| 0 <= j < |g.columns| && k > 0 && !Observed(g.columns[j][..k]) && Observed(g.columns[j]);
      LateMean(g.columns[j], k);
      var scaler := PrepareNodeWindows(g, size, stride, valFraction, sqrt).scaler;
      assert scaler.mean[j] == Mean(Fill(g.columns[j])[..k]);
      assert PreparedAlone(g, k, size, stride, sqrt).scaler.mean[j] == Mean(Fill(g.columns[j][..k]));
    }
  }

  ghost predicate SamePrefix(g: Frame, other: Frame, k: nat)
    requires Valid(g) && k <= g.length
  {
    Valid(other) && other.length == g.length && Take(other, k) == Take(g, k)
  }

  /** Whatever comes after the split, the training data stay the same. */
  ghost predicate PrefixDecides(g: Frame, size: nat, stride: nat, valFraction: real, sqrt: real -> real)
    requires Valid(g) && stride >= 1 && 0.0 <= valFraction <= 1.0
  {
    forall other: Frame :: SamePrefix(g, other, SplitAt(g.length, valFraction)) ==>
      SameTraining(PrepareNodeWindows(g, size, stride, valFraction, sqrt),
                   PrepareNodeWindows(other, size, stride, valFraction, sqrt))
  }

  /** The rows before the split decide the training data exactly if every feature is observed
      among them, or there are no other rows. */
  lemma LeakageExactly(g: Frame, size: nat, stride: nat, valFraction: real, sqrt: real -> real)
    requires Valid(g) && stride >= 1 && 0.0 <= valFraction <= 1.0
    ensures
      var k := SplitAt(g.length, valFraction);
      PrefixDecides(g, size, stride, valFraction, sqrt) <==> ObservedBy(g, k) || k == g.length
  {
    var k := SplitAt(g.length, valFraction);
    if ObservedBy(g, k) || k == g.length {
      forall other: Frame | SamePrefix(g, other, k)
        ensures SameTraining(PrepareNodeWindows(g, size, stride, valFraction, sqrt),
                             PrepareNodeWindows(other, size, stride, valFraction, sqrt))
      {
        SettledAlike(g, other, k);
        NoLeakage(g, other, size, stride, valFraction, sqrt);
      }
    } else {
      var other := AnotherFuture(g, size, stride, valFraction, sqrt);
      assert SamePrefix(g, other, k);
    }
  }

  lemma SettledAlike(g: Frame, other: Frame, k: nat)
    requires Valid(g) && k <= g.length && SamePrefix(g, other, k)
    requires ObservedBy(g, k) || k == g.length
    ensures SettledBy(g, k) && SettledBy(other, k)
  {
    var a, b := Take(g, k), Take(other, k);
    assert |other.columns| == |b.columns| == |a.columns| == |g.columns|;
    forall j | 0 <= j < |g.columns|
      ensures g.columns[j][..k] == other.columns[j][..k]
    {
      assert a.columns[j] == b.columns[j];
    }
    if k == g.length {
      assert forall j :: 0 <= j < |g.columns| ==> g.columns[j][..k] == g.columns[j];
      assert forall j :: 0 <= j < |g.columns| ==> other.columns[j][..k] == other.columns[j];
    }
  }

  /** The same rows before the split and a future that changes the scaler. */
  lemma AnotherFuture(g: Frame, size: nat, stride: nat, valFraction: real, sqrt: real -> real) returns (other: Frame)
    requires Valid(g) && stride >= 1 && 0.0 <= valFraction <= 1.0
    requires
      var k := SplitAt(g.length, valFraction);
      !ObservedBy(g, k) && k < g.length
    ensures SamePrefix(g, other, SplitAt(g.length, valFraction))
    ensures !SameTraining(PrepareNodeWindows(g, size, stride, valFraction, sqrt),
                          PrepareNodeWindows(other, size, stride, valFraction, sqrt))
  {
    var k := SplitAt(g.length, valFraction);
    var j :| 0 <= j < |g.columns| && k > 0 && !Observed(g.columns[j][..k]);
    var c := g.columns[j];
    var c' := OtherColumn(c, k);
    other := Frame(g.length, g.columns[j := c']);
    assert Take(other, k).columns == Take(g, k).columns;
    LateMean(c, k);
    LateMean(c', k);
    assert PrepareNodeWindows(g, size, stride, valFraction, sqrt).scaler.mean[j] == Mean(Fill(c)[..k]);
    assert PrepareNodeWindows(other, size, stride, valFraction, sqrt).scaler.mean[j] == Mean(Fill(c')[..k]);
  }

  lemma OtherColumn(c: Column, k: nat) returns (c': Column)
    requires k < |c| && !Observed(c[..k])
    ensures |c'| == |c| && c'[..k] == c[..k] && (Observed(c') <==> !Observed(c))
  {
    if Observed(c) {
      c' := seq(|c|, _ => None);
      assert forall i :: 0 <= i < k ==> c[..k][i].None?;
      assert c'[..k] == c[..k];
    } else {
      c' := c[k := Some(0.0)];
      assert c'[k].Some?;
    }
  }

  predicate IsStretch(window: seq<Row>, values: seq<Row>, from: int, size: nat) {
    0 <= from && from + size <= |values| && window == values[from..from + size]
  }

  /** No window straddles the split: a training window is a stretch of normalized rows that
      ends before it, a validation window one that begins at it or later. */
  lemma NoStraddling(g: Frame, size: nat, stride: nat, valFraction: real, sqrt: real -> real, i: nat)
    requires Valid(g) && stride >= 1 && 0.0 <= valFraction <= 1.0
    ensures
      var p := PrepareNodeWindows(g, size, stride, valFraction, sqrt);
      var k := SplitAt(g.length, valFraction);
      var all := Values(FillGaps(g), p.scaler);
      && (i < |p.train| ==> IsStretch(p.train[i], all, i * stride, size) && i * stride + size <= k)
      && (i < |p.val| ==> IsStretch(p.val[i], all, k + i * stride, size))
  {
    var p := PrepareNodeWindows(g, size, stride, valFraction, sqrt);
    var filled, k := FillGaps(g), SplitAt(g.length, valFraction);
    var all := Values(filled, p.scaler);
    ValuesOfParts(filled, k, p.scaler);
    if i < |p.train| {
      WindowIsStretch(Values(Take(filled, k), p.scaler), all, 0, size, stride, i);
    }
    if i < |p.val| {
      WindowIsStretch(Values(Drop(filled, k), p.scaler), all, k, size, stride, i);
    }
  }

  lemma WindowIsStretch(part: seq<Row>, all: seq<Row>, from: nat, size: nat, stride: nat, i: nat)
    requires stride >= 1 && from + |part| <= |all| && part == all[from..from + |part|]
    requires i < |BuildWindows(part, size, stride)|
    ensures IsStretch(BuildWindows(part, size, stride)[i], all, from + i * stride, size)
    ensures i * stride + size <= |part|
  {
    WindowAt(part, size, stride, 0, i);
    StretchOfPart(part, all, from, i * stride, size);
  }

  lemma StretchOfPart(part: seq<Row>, all: seq<Row>, from: nat, s: int, size: nat)
    requires from + |part| <= |all| && part == all[from..from + |part|]
    requires 0 <= s && s + size <= |part|
    ensures part[s..s + size] == all[from + s..from + s + size]
  {
    assert forall i :: 0 <= i < |part| ==> part[i] == all[from + i];
  }

  lemma ValuesOfParts(g: Frame, k: nat, s: Scaler)
    requires Valid(g) && k <= g.length && Usable(s) && |s.mean| == |g.columns|
    ensures Values(Take(g, k), s) == Values(g, s)[..k]
    ensures Values(Drop(g, k), s) == Values(g, s)[k..]
  {
    forall i | 0 <= i < k ensures Values(Take(g, k), s)[i] == Values(g, s)[..k][i] {
      assert RowAt(Take(g, k), i) == RowAt(g, i);
    }
    forall i | 0 <= i < g.length - k ensures Values(Drop(g, k), s)[i] == Values(g, s)[k..][i] {
      assert RowAt(Drop(g, k), i) == RowAt(g, k + i);
    }
  }
}
