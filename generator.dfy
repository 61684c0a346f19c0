/**
 `processImage`: quantise the sampled canvas against the domino palette,
 then summarise the colour grid as per-row run lists and colour totals.
 The rendering of the tile field itself only displays the grid.
 */
module Generator {
  import opened Colors
  import opened Quantizer
  import opened RowEncoder
  import opened Totals

  /**
   The whole pipeline for a `width` by `height` canvas whose pixel at
   (x, y) is `pixelAt(x, y)`, quantised against the domino colours.
   */
  method ProcessImage(pixelAt: (nat, nat) -> Color, width: nat, height: nat)
    returns (colorGrid: seq<seq<Color>>, rowList: seq<seq<ColorCount>>, totals: seq<ColorCount>)
    ensures |colorGrid| == height
    ensures forall y :: 0 <= y < height ==> |colorGrid[y]| == width
    ensures forall y, x :: 0 <= y < height && 0 <= x < width ==>
      colorGrid[y][x] == Quantize(pixelAt(x, y), DominoColors)
    ensures width > 0 ==> |rowList| == height
    ensures width == 0 ==> rowList == []
    ensures forall y :: 0 <= y < |rowList| ==> Expand(rowList[y]) == colorGrid[y] && Maximal(rowList[y])
    ensures totals == Tally(Flatten(colorGrid))
    ensures forall e :: e in totals ==> e.color in DominoColors && e.count >= 1
    ensures SumCounts(totals) == width * height
  {
    colorGrid, rowList, totals := ProcessWithPalette(pixelAt, width, height, DominoColors);
  }

  /** The same pipeline over any non-empty palette. */
  method ProcessWithPalette(pixelAt: (nat, nat) -> Color, width: nat, height: nat, palette: seq<Color>)
    returns (colorGrid: seq<seq<Color>>, rowList: seq<seq<ColorCount>>, totals: seq<ColorCount>)
    requires |palette| > 0
    ensures |colorGrid| == height
    ensures forall y :: 0 <= y < height ==> |colorGrid[y]| == width
    ensures forall y, x :: 0 <= y < height && 0 <= x < width ==>
      colorGrid[y][x] == Quantize(pixelAt(x, y), palette)
    ensures width > 0 ==> |rowList| == height
    ensures width == 0 ==> rowList == []
    ensures forall y :: 0 <= y < |rowList| ==> Expand(rowList[y]) == colorGrid[y] && Maximal(rowList[y])
    ensures totals == Tally(Flatten(colorGrid))
    ensures forall e :: e in totals ==> e.color in palette && e.count >= 1
    ensures SumCounts(totals) == width * height
  {
    colorGrid := BuildColorGrid(pixelAt, width, height, palette);
    rowList := CreateRowList(colorGrid);
    totals := CreateTotalCount(colorGrid);
    NonEmptyRowsOfUniformGrid(colorGrid, width);
    assert SumCounts(totals) == width * height by {
      FlattenLength(colorGrid, width);
    }
    assert forall e :: e in totals ==> e.color in palette && e.count >= 1 by {
      assert forall y, x :: 0 <= y < |colorGrid| && 0 <= x < |colorGrid[y]| ==> colorGrid[y][x] in palette;
      TotalsWithinPalette(colorGrid, palette);
    }
  }

  /** When every cell of the grid is a palette colour, so is every colour in its totals. */
  lemma TotalsWithinPalette(grid: seq<seq<Color>>, palette: seq<Color>)
    requires forall y, x :: 0 <= y < |grid| && 0 <= x < |grid[y]| ==> grid[y][x] in palette
    ensures forall e :: e in Tally(Flatten(grid)) ==> e.color in palette && e.count >= 1
  {
    TallyKeys(Flatten(grid));
    forall e | e in Tally(Flatten(grid))
      ensures e.color in palette
    {
      assert e.color in ColorsOf(Tally(Flatten(grid)));
      FlattenMember(grid, e.color);
      var y :| 0 <= y < |grid| && e.color in grid[y];
      var x :| 0 <= x < |grid[y]| && grid[y][x] == e.color;
    }
  }
}
