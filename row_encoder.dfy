/**
 Row run-length encoding: the loop of `createRowList` that walks one row of
 the colour grid and emits a (colour, count) entry whenever the colour
 changes and once more at the end of the row.
 */
module RowEncoder {
  import opened Colors

  /** `n` copies of colour `c`. */
  function Repeat(c: Color, n: nat): (s: seq<Color>)
    ensures |s| == n
  {
    if n == 0 then [] else Repeat(c, n - 1) + [c]
  }

  /** The row a run list stands for: each colour repeated by its count, in order. */
  function Expand(runs: seq<ColorCount>): seq<Color>
  {
    if runs == [] then []
    else Expand(runs[..|runs| - 1]) + Repeat(runs[|runs| - 1].color, runs[|runs| - 1].count)
  }

  /**
   Every run holds at least one cell and differs in colour from the run
   before it; stated run by run from the end, as the encoder emits them.
   */
  predicate Maximal(runs: seq<ColorCount>)
  {
    if runs == [] then true
    else
      var init, last := runs[..|runs| - 1], runs[|runs| - 1];
      && Maximal(init)
      && last.count >= 1
      && (init != [] ==> init[|init| - 1].color != last.color)
  }

  /** The same property stated index by index. */
  ghost predicate MaximalByIndex(runs: seq<ColorCount>)
  {
    && (forall i :: 0 <= i < |runs| ==> runs[i].count >= 1)
    && (forall i :: 0 <= i < |runs| - 1 ==> runs[i].color != runs[i + 1].color)
  }

  lemma {:induction false} MaximalIffByIndex(runs: seq<ColorCount>)
    ensures Maximal(runs) <==> MaximalByIndex(runs)
  {
    if runs != [] {
      var init := runs[..|runs| - 1];
      MaximalIffByIndex(init);
      assert forall i :: 0 <= i < |init| ==> init[i] == runs[i];
    }
  }

  /** A run may be appended to a maximal list if it is non-empty and differs in colour from the last run. */
  lemma MaximalSnoc(runs: seq<ColorCount>, r: ColorCount)
    requires Maximal(runs) && r.count >= 1
    requires runs != [] ==> runs[|runs| - 1].color != r.color
    ensures Maximal(runs + [r])
  {
  }

  /** Appending a run appends its cells to the expanded row. */
  lemma ExpandSnoc(runs: seq<ColorCount>, r: ColorCount)
    ensures Expand(runs + [r]) == Expand(runs) + Repeat(r.color, r.count)
  {
    assert (runs + [r])[..|runs|] == runs;
  }

  /** Scanning cell `i`, of the current colour, lengthens the current run. */
  lemma ExtendRun(runs: seq<ColorCount>, c: Color, count: nat, row: seq<Color>, i: nat)
    requires i < |row| && row[i] == c
    requires Expand(runs) + Repeat(c, count) == row[..i]
    ensures Expand(runs) + Repeat(c, count + 1) == row[..i + 1]
  {
    assert row[..i + 1] == row[..i] + [c];
    assert Repeat(c, count + 1) == Repeat(c, count) + [c];
  }

  /** Emitting the current run: the list stays maximal and now expands to the cells scanned so far. */
  lemma CloseRun(runs: seq<ColorCount>, r: ColorCount, done: seq<Color>)
    requires Maximal(runs) && r.count >= 1
    requires runs != [] ==> runs[|runs| - 1].color != r.color
    requires Expand(runs) + Repeat(r.color, r.count) == done
    ensures Maximal(runs + [r])
    ensures Expand(runs + [r]) == done
  {
    MaximalSnoc(runs, r);
    ExpandSnoc(runs, r);
  }

  /** A run of one cell, appended to the cells before it, reaches one cell further. */
  lemma RunOfOne(row: seq<Color>, i: nat)
    requires i < |row|
    ensures row[..i] + Repeat(row[i], 1) == row[..i + 1]
  {
    assert Repeat(row[i], 1) == [row[i]];
  }

  /** The expanded row is as long as the counts add up to. */
  lemma {:induction false} ExpandLength(runs: seq<ColorCount>)
    ensures |Expand(runs)| == SumCounts(runs)
  {
    if runs != [] {
      ExpandLength(runs[..|runs| - 1]);
    }
  }

  /** With every count positive, there are no more runs than cells. */
  lemma {:induction false} SumCountsAtLeast(runs: seq<ColorCount>)
    requires Maximal(runs)
    ensures SumCounts(runs) >= |runs|
  {
    if runs != [] {
      var init := runs[..|runs| - 1];
      assert Maximal(init);
      SumCountsAtLeast(init);
    }
  }

  /** Number of trailing cells of `s` that have colour `c`. */
  function TrailingLength(s: seq<Color>, c: Color): (n: nat)
    ensures n <= |s|
  {
    if s == [] || s[|s| - 1] != c then 0 else 1 + TrailingLength(s[..|s| - 1], c)
  }

  lemma {:induction false} TrailingOfRepeat(t: seq<Color>, c: Color, n: nat)
    ensures TrailingLength(t + Repeat(c, n), c) == n + TrailingLength(t, c)
  {
    if n > 0 {
      var s := t + Repeat(c, n);
      assert s[|s| - 1] == c;
      assert s[..|s| - 1] == t + Repeat(c, n - 1);
      TrailingOfRepeat(t, c, n - 1);
    } else {
      assert t + Repeat(c, n) == t;
    }
  }

  /** The last run of a maximal run list is exactly the trailing block of its expansion. */
  lemma {:induction false} LastRunIsTrailing(runs: seq<ColorCount>)
    requires Maximal(runs) && runs != []
    ensures TrailingLength(Expand(runs), runs[|runs| - 1].color) == runs[|runs| - 1].count
  {
    var init, last := runs[..|runs| - 1], runs[|runs| - 1];
    TrailingOfRepeat(Expand(init), last.color, last.count);
    if init != [] {
      var prev := init[|init| - 1];
      assert Maximal(init);
      assert prev.color != last.color;
      ExpandEndsWith(init);
    }
  }

  /** A non-empty maximal run list expands to a row ending in its last run's colour. */
  lemma {:induction false} ExpandEndsWith(runs: seq<ColorCount>)
    requires Maximal(runs) && runs != []
    ensures Expand(runs) != [] && Expand(runs)[|Expand(runs)| - 1] == runs[|runs| - 1].color
  {
  }

  /** Unfolding the last run: the earlier runs stay maximal and expand to the rest of the row. */
  lemma SplitLastRun(runs: seq<ColorCount>)
    requires Maximal(runs) && runs != []
    ensures Maximal(runs[..|runs| - 1])
    ensures Expand(runs) == Expand(runs[..|runs| - 1]) + Repeat(runs[|runs| - 1].color, runs[|runs| - 1].count)
  {
  }

  lemma CancelRight(x: seq<Color>, y: seq<Color>, z: seq<Color>)
    requires x + z == y + z
    ensures x == y
  {
    assert x == (x + z)[..|x|];
    assert y == (y + z)[..|y|];
  }

  /**
   A row has only one maximal run list: the encoding is determined by the row,
   so a contract that fixes the expansion and maximality fixes the output.
   */
  lemma {:induction false} MaximalRunsUnique(a: seq<ColorCount>, b: seq<ColorCount>)
    requires Maximal(a) && Maximal(b) && Expand(a) == Expand(b)
    ensures a == b
    decreases |a|
  {
    ExpandLength(a);
    ExpandLength(b);
    SumCountsAtLeast(a);
    SumCountsAtLeast(b);
    if a != [] && b != [] {
      var ia, la := a[..|a| - 1], a[|a| - 1];
      var ib, lb := b[..|b| - 1], b[|b| - 1];
      // the last runs agree: same final colour, same trailing block length
      ExpandEndsWith(a);
      ExpandEndsWith(b);
      LastRunIsTrailing(a);
      LastRunIsTrailing(b);
      assert la == lb;
      // so the earlier runs expand to the same row
      SplitLastRun(a);
      SplitLastRun(b);
      CancelRight(Expand(ia), Expand(ib), Repeat(la.color, la.count));
      MaximalRunsUnique(ia, ib);
      assert a == ia + [la] && b == ib + [lb];
    }
  }

  /**
   The run-length loop of `createRowList` for one row: an empty row yields no
   runs; otherwise the runs expand back to the row, are maximal and their
   counts add up to the row's length.
   */
  method EncodeRow(row: seq<Color>) returns (runs: seq<ColorCount>)
    ensures Expand(runs) == row
    ensures Maximal(runs)
    ensures SumCounts(runs) == |row|
    ensures runs == [] <==> row == []
  {
    runs := [];
    if |row| == 0 {
      return;
    }
    var currentColor := row[0];
    var count := 1;
    assert row[..1] == Repeat(currentColor, count);
    for i := 1 to |row|
      invariant 1 <= count <= i
      invariant Expand(runs) + Repeat(currentColor, count) == row[..i]
      invariant Maximal(runs)
      invariant runs != [] ==> runs[|runs| - 1].color != currentColor
    {
      if row[i] == currentColor {
        ExtendRun(runs, currentColor, count, row, i);
        count := count + 1;
      } else {
        // the current run ends before cell i, which starts a run of one
        CloseRun(runs, ColorCount(currentColor, count), row[..i]);
        RunOfOne(row, i);
        runs := runs + [ColorCount(currentColor, count)];
        currentColor := row[i];
        count := 1;
      }
    }
    assert row[..|row|] == row;
    CloseRun(runs, ColorCount(currentColor, count), row);
    runs := runs + [ColorCount(currentColor, count)];
    ExpandLength(runs);
  }

  /** The rows of `grid` that hold at least one cell, in order. */
  function NonEmptyRows(grid: seq<seq<Color>>): (rows: seq<seq<Color>>)
    ensures forall row :: row in rows <==> row in grid && row != []
  {
    if grid == [] then []
    else if grid[|grid| - 1] == [] then NonEmptyRows(grid[..|grid| - 1])
    else NonEmptyRows(grid[..|grid| - 1]) + [grid[|grid| - 1]]
  }

  /**
   In a grid whose rows all have the same width, either no row is skipped
   (positive width) or every row is (width zero).
   */
  lemma {:induction false} NonEmptyRowsOfUniformGrid(grid: seq<seq<Color>>, width: nat)
    requires forall y :: 0 <= y < |grid| ==> |grid[y]| == width
    ensures width > 0 ==> NonEmptyRows(grid) == grid
    ensures width == 0 ==> NonEmptyRows(grid) == []
  {
    if grid != [] {
      NonEmptyRowsOfUniformGrid(grid[..|grid| - 1], width);
      assert grid[..|grid| - 1] + [grid[|grid| - 1]] == grid;
    }
  }

  /**
   `createRowList`: one run list per row of the grid, except that an empty row
   is skipped altogether (the source returns before adding its entry).
   */
  method CreateRowList(grid: seq<seq<Color>>) returns (rowList: seq<seq<ColorCount>>)
    ensures |rowList| == |NonEmptyRows(grid)|
    ensures forall k :: 0 <= k < |rowList| ==>
      Expand(rowList[k]) == NonEmptyRows(grid)[k] && Maximal(rowList[k])
  {
    rowList := [];
    for y := 0 to |grid|
      invariant |rowList| == |NonEmptyRows(grid[..y])|
      invariant forall k :: 0 <= k < |rowList| ==>
        Expand(rowList[k]) == NonEmptyRows(grid[..y])[k] && Maximal(rowList[k])
    {
      assert grid[..y + 1][..y] == grid[..y];
      var row := grid[y];
      if |row| != 0 {
        var runs := EncodeRow(row);
        rowList := rowList + [runs];
      }
    }
    assert grid[..|grid|] == grid;
  }
}
