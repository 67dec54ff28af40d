/** Spreading tiles evenly over the rows they need anyway (frontend/src/components.tsx). */
module Tiles {
  import opened Basics

  const TILE_MIN_WIDTH := 160
  const TILE_GAP := 14

  function CeilDiv(a: nat, b: nat): (q: nat)
    requires 0 < b
    ensures a <= q * b && (q - 1) * b < a
  {
    var q := (a + b - 1) / b;
    assert q * b <= a + b - 1 < (q + 1) * b;
    assert (q - 1) * b == q * b - b;
    q
  }

  lemma CeilIsLeast(a: nat, b: nat, q: nat)
    requires 0 < b && a <= q * b
    ensures CeilDiv(a, b) <= q
  {
    var c := CeilDiv(a, b);
    TimesOrder(q, c as int - 1, b);
  }

  lemma CeilIsPositive(a: nat, b: nat)
    requires 0 < a && 0 < b
    ensures 0 < CeilDiv(a, b)
  {
    TimesOrder(CeilDiv(a, b), 0, b);
  }

  /** The pixels `columns` tiles and the gaps between them take. */
  function WidthOf(columns: nat): int {
    columns * TILE_MIN_WIDTH + (columns - 1) * TILE_GAP
  }

  function MaxColumns(width: nat): nat {
    var fit := (width + TILE_GAP) / (TILE_MIN_WIDTH + TILE_GAP);
    if fit <= 1 then 1 else fit
  }

  function Rows(count: nat, width: nat): nat
    requires 0 < count
  {
    CeilDiv(count, Min(count, MaxColumns(width)))
  }

  /** The columns the effect sets. */
  function Columns(count: nat, width: nat): nat
    requires 0 < count
    requires 0 < Rows(count, width)
  {
    CeilDiv(count, Rows(count, width))
  }

  /** `MaxColumns` is what fits: that many columns do, one more does not (one always goes in). */
  lemma MaxColumnsFit(width: nat, columns: nat)
    requires 0 < columns
    ensures columns <= MaxColumns(width) <==> columns == 1 || WidthOf(columns) <= width
    ensures WidthOf(columns) == columns * 160 + (columns - 1) * 14
  {
    assert WidthOf(columns) == columns * 174 - 14;
  }

  lemma RowsPositive(count: nat, width: nat)
    requires 0 < count
    ensures 0 < Rows(count, width)
  {
    CeilIsPositive(count, Min(count, MaxColumns(width)));
  }

  /** The rows greedy filling needs at the greatest number of columns that fits. */
  lemma RowsAreGreedy(count: nat, width: nat)
    requires 0 < count
    ensures Rows(count, width) == CeilDiv(count, MaxColumns(width))
  {
    var most := MaxColumns(width);
    if count < most {
      CeilIsLeast(count, count, 1);
      CeilIsLeast(count, most, 1);
      CeilIsPositive(count, count);
      CeilIsPositive(count, most);
    }
  }

  /** Any column count filling no more than these rows is at least the chosen one. */
  lemma LeastColumns(count: nat, rows: nat, columns: nat)
    requires 0 < rows && 0 < columns && CeilDiv(count, columns) <= rows
    ensures CeilDiv(count, rows) <= columns
  {
    var need := CeilDiv(count, columns);
    assert count <= need * columns;
    assert need * columns <= rows * columns;
    assert rows * columns == columns * rows;
    CeilIsLeast(count, rows, columns);
  }

  lemma ColumnsGiveRows(count: nat, rows: nat, most: nat)
    requires 0 < count && 0 < rows && 0 < most && rows == CeilDiv(count, most)
    ensures 0 < CeilDiv(count, rows) <= most
    ensures CeilDiv(count, CeilDiv(count, rows)) == rows
  {
    CeilIsPositive(count, rows);
    LeastColumns(count, rows, most);
    var columns := CeilDiv(count, rows);
    assert count <= columns * rows == rows * columns;
    CeilIsLeast(count, columns, rows);
    MoreColumnsFewerRows(count, columns, most);
  }

  lemma MoreColumnsFewerRows(count: nat, a: nat, b: nat)
    requires 0 < a <= b
    ensures CeilDiv(count, b) <= CeilDiv(count, a)
  {
    var rows := CeilDiv(count, a);
    assert rows * a <= rows * b;
    CeilIsLeast(count, b, rows);
  }

  lemma FewEmptySlots(count: nat, rows: nat)
    requires 0 < rows
    ensures 0 <= CeilDiv(count, rows) * rows - count < rows
  {
    var columns := CeilDiv(count, rows);
    assert (columns - 1) * rows == columns * rows - rows;
  }

  /** The chosen columns fit wherever greedy filling fits, need exactly as many rows, are the
      least such number, and leave fewer slots empty than there are rows (so no more than one a
      row). */
  lemma BalancedColumns(count: nat, width: nat)
    requires 0 < count
    ensures 0 < Rows(count, width)
    ensures 0 < Columns(count, width) <= MaxColumns(width)
    ensures CeilDiv(count, Columns(count, width)) == CeilDiv(count, MaxColumns(width))
    ensures forall c: nat :: 0 < c && CeilDiv(count, c) <= CeilDiv(count, MaxColumns(width)) ==>
      Columns(count, width) <= c
    ensures 0 <= Columns(count, width) * Rows(count, width) - count < Rows(count, width)
  {
    RowsPositive(count, width);
    RowsAreGreedy(count, width);
    var rows := Rows(count, width);
    ColumnsGiveRows(count, rows, MaxColumns(width));
    forall c: nat | 0 < c && CeilDiv(count, c) <= rows ensures Columns(count, width) <= c {
      LeastColumns(count, rows, c);
    }
    FewEmptySlots(count, rows);
  }
}
