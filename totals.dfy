/**
 Colour totals: the counting loop of `createTotalCount`, which tallies every
 cell of the flattened grid in a dictionary keyed by colour and then lists
 the dictionary's entries in the order their keys were first inserted.
 */
module Totals {
  import opened Colors

  /** `grid.flat()`: the cells of the grid, row after row. */
  function Flatten(grid: seq<seq<Color>>): (cells: seq<Color>)
    ensures forall y, x :: 0 <= y < |grid| && 0 <= x < |grid[y]| ==> grid[y][x] in cells
  {
    if grid == [] then [] else Flatten(grid[..|grid| - 1]) + grid[|grid| - 1]
  }

  /** A grid of rows that all have `width` cells has `width` cells per row in the flattened list. */
  lemma {:induction false} FlattenLength(grid: seq<seq<Color>>, width: nat)
    requires forall y :: 0 <= y < |grid| ==> |grid[y]| == width
    ensures |Flatten(grid)| == |grid| * width
  {
    if grid != [] {
      var init := grid[..|grid| - 1];
      FlattenLength(init, width);
      assert |Flatten(grid)| == |Flatten(init)| + width;
      OneMoreRow(|init|, width);
    }
  }

  lemma OneMoreRow(rows: nat, width: nat)
    ensures rows * width + width == (rows + 1) * width
  {
  }

  /** Every cell of the flattened grid comes from one of the grid's rows. */
  lemma {:induction false} FlattenMember(grid: seq<seq<Color>>, c: Color)
    requires c in Flatten(grid)
    ensures exists y :: 0 <= y < |grid| && c in grid[y]
  {
    var init := grid[..|grid| - 1];
    if c in Flatten(init) {
      FlattenMember(init, c);
      var y :| 0 <= y < |init| && c in init[y];
      assert grid[y] == init[y];
    } else {
      assert c in grid[|grid| - 1];
    }
  }

  predicate Distinct(s: seq<Color>)
  {
    forall i, j :: 0 <= i < j < |s| ==> s[i] != s[j]
  }

  /**
   The distinct colours of `s` in order of first occurrence: the order in
   which a JavaScript object enumerates string keys it was given one by one.
   It names each colour of `s` exactly once and nothing else.
   */
  function FirstSeen(s: seq<Color>): (keys: seq<Color>)
    ensures Distinct(keys)
    ensures forall c :: c in keys <==> c in s
  {
    if s == [] then []
    else
      var prev := FirstSeen(s[..|s| - 1]);
      assert s == s[..|s| - 1] + [s[|s| - 1]];
      if s[|s| - 1] in prev then prev else prev + [s[|s| - 1]]
  }

  /** Scanning further only appends: the keys seen in a prefix keep their places. */
  lemma {:induction false} FirstSeenPrefix(s: seq<Color>, n: nat)
    requires n <= |s|
    ensures FirstSeen(s[..n]) <= FirstSeen(s)
    decreases |s| - n
  {
    if n < |s| {
      FirstSeenPrefix(s, n + 1);
      assert s[..n + 1][..n] == s[..n];
    } else {
      assert s[..n] == s;
    }
  }

  /** One entry per key: the key and its number of occurrences in `cells`. */
  function CountsOf(keys: seq<Color>, cells: seq<Color>): (entries: seq<ColorCount>)
    ensures |entries| == |keys|
    ensures forall k :: 0 <= k < |keys| ==>
      entries[k] == ColorCount(keys[k], multiset(cells)[keys[k]])
  {
    if keys == [] then []
    else
      var last := keys[|keys| - 1];
      CountsOf(keys[..|keys| - 1], cells) + [ColorCount(last, multiset(cells)[last])]
  }

  /** Listing one more key appends its entry. */
  lemma CountsOfPrefix(keys: seq<Color>, cells: seq<Color>, k: nat)
    requires k < |keys|
    ensures CountsOf(keys[..k + 1], cells) ==
      CountsOf(keys[..k], cells) + [ColorCount(keys[k], multiset(cells)[keys[k]])]
  {
    assert keys[..k + 1][..k] == keys[..k];
  }

  /** The displayed totals: each distinct colour, in first-seen order, with its occurrence count. */
  function Tally(cells: seq<Color>): seq<ColorCount>
  {
    CountsOf(FirstSeen(cells), cells)
  }

  lemma {:induction false} CountsOfNothing(keys: seq<Color>)
    ensures SumCounts(CountsOf(keys, [])) == 0
  {
    if keys != [] {
      CountsOfNothing(keys[..|keys| - 1]);
    }
  }

  /** One more cell adds one to the sum, if its colour is among the (distinct) keys. */
  lemma {:induction false} CountsOfSnoc(keys: seq<Color>, cells: seq<Color>, x: Color)
    requires Distinct(keys)
    ensures SumCounts(CountsOf(keys, cells + [x])) ==
      SumCounts(CountsOf(keys, cells)) + (if x in keys then 1 else 0)
  {
    if keys != [] {
      var init := keys[..|keys| - 1];
      assert Distinct(init);
      CountsOfSnoc(init, cells, x);
      assert x in keys <==> x in init || x == keys[|keys| - 1];
      assert multiset(cells + [x]) == multiset(cells) + multiset{x};
    }
  }

  /** Over distinct keys that cover every cell, the counts add up to the number of cells. */
  lemma {:induction false} CountsOfSum(keys: seq<Color>, cells: seq<Color>)
    requires Distinct(keys)
    requires forall c :: c in cells ==> c in keys
    ensures SumCounts(CountsOf(keys, cells)) == |cells|
  {
    if cells == [] {
      CountsOfNothing(keys);
    } else {
      var init, x := cells[..|cells| - 1], cells[|cells| - 1];
      assert cells == init + [x];
      CountsOfSum(keys, init);
      CountsOfSnoc(keys, init, x);
    }
  }

  /**
   The tally lists exactly the colours that occur, each once, each with its
   occurrence count, which is at least one.
   */
  lemma TallyKeys(cells: seq<Color>)
    ensures Distinct(ColorsOf(Tally(cells)))
    ensures forall c :: c in ColorsOf(Tally(cells)) <==> c in cells
    ensures forall e :: e in Tally(cells) ==> e.count == multiset(cells)[e.color] && e.count >= 1
  {
    var keys := FirstSeen(cells);
    assert ColorsOf(Tally(cells)) == keys;
    forall e | e in Tally(cells)
      ensures e.count == multiset(cells)[e.color] && e.count >= 1
    {
      var k :| 0 <= k < |keys| && Tally(cells)[k] == e;
      assert e.color == keys[k] && keys[k] in cells;
    }
  }

  /** The tallied counts add up to the number of cells. */
  lemma TallySum(cells: seq<Color>)
    ensures SumCounts(Tally(cells)) == |cells|
  {
    CountsOfSum(FirstSeen(cells), cells);
  }

  /** The colours of a list of entries. */
  function ColorsOf(entries: seq<ColorCount>): seq<Color>
  {
    seq(|entries|, k requires 0 <= k < |entries| => entries[k].color)
  }

  /** The dictionary holds exactly the colours of `done`, each with its number of occurrences. */
  ghost predicate CountsAgree(colorTotals: map<Color, nat>, done: seq<Color>)
  {
    && (forall c :: c in colorTotals <==> c in done)
    && (forall c :: c in colorTotals ==> colorTotals[c] == multiset(done)[c])
  }

  /** Counting cell `i`: increment its entry (absent counting as zero); a new key joins the first-seen list. */
  lemma CountStep(colorTotals: map<Color, nat>, cells: seq<Color>, i: nat)
    requires i < |cells| && CountsAgree(colorTotals, cells[..i])
    ensures CountsAgree(colorTotals[cells[i] := (if cells[i] in colorTotals then colorTotals[cells[i]] else 0) + 1],
      cells[..i + 1])
    ensures FirstSeen(cells[..i + 1]) ==
      if cells[i] in colorTotals then FirstSeen(cells[..i]) else FirstSeen(cells[..i]) + [cells[i]]
  {
    assert cells[..i + 1] == cells[..i] + [cells[i]];
    assert cells[..i + 1][..i] == cells[..i];
  }

  /**
   `createTotalCount`: tally the flattened grid in a dictionary, recording each
   key when it is first inserted, then emit one entry per key in that order.
   */
  method CreateTotalCount(grid: seq<seq<Color>>) returns (summary: seq<ColorCount>)
    ensures summary == Tally(Flatten(grid))
    ensures SumCounts(summary) == |Flatten(grid)|
  {
    var cells := Flatten(grid);
    var colorTotals: map<Color, nat> := map[];
    var keys: seq<Color> := [];
    for i := 0 to |cells|
      invariant keys == FirstSeen(cells[..i])
      invariant CountsAgree(colorTotals, cells[..i])
    {
      var key := cells[i];
      var previous := if key in colorTotals then colorTotals[key] else 0;
      CountStep(colorTotals, cells, i);
      if key !in colorTotals {
        keys := keys + [key];
      }
      colorTotals := colorTotals[key := previous + 1];
    }
    assert cells[..|cells|] == cells;
    assert forall c :: c in keys ==> c in colorTotals && colorTotals[c] == multiset(cells)[c];
    summary := [];
    for k := 0 to |keys|
      invariant summary == CountsOf(keys[..k], cells)
    {
      CountsOfPrefix(keys, cells, k);
      summary := summary + [ColorCount(keys[k], colorTotals[keys[k]])];
    }
    assert keys[..|keys|] == keys;
    assert SumCounts(summary) == |cells| by {
      TallySum(cells);
    }
  }
}
