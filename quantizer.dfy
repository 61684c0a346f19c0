/**
 Nearest-palette-colour quantisation: `findClosestColor` and the loop of
 `processImage` that turns every sampled canvas pixel into a palette colour.
 */
module Quantizer {
  import opened Colors

  /** The owner's domino colours: the palette every generated field uses. */
  const DominoColors: seq<Color> := [
    Color(255, 255, 255), // white
    Color(0, 0, 0),       // black
    Color(255, 0, 0),     // red
    Color(0, 128, 0),     // green
    Color(0, 0, 255),     // blue
    Color(255, 255, 0),   // yellow
    Color(255, 165, 0),   // orange
    Color(128, 0, 128)    // purple
  ]

  /** The palette holds eight colours, no two alike. */
  lemma DominoColorsDistinct()
    ensures |DominoColors| == 8
    ensures forall i, j :: 0 <= i < j < |DominoColors| ==> DominoColors[i] != DominoColors[j]
  {
  }

  /**
   `k` indexes a palette entry at least as near to `p` as every other entry,
   and every entry before it is strictly farther: the first nearest entry.
   */
  predicate IsFirstNearest(p: Color, palette: seq<Color>, k: int)
  {
    && 0 <= k < |palette|
    && (forall j :: 0 <= j < |palette| ==> SqDist(p, palette[k]) <= SqDist(p, palette[j]))
    && (forall j :: 0 <= j < k ==> SqDist(p, palette[k]) < SqDist(p, palette[j]))
  }

  /** At most one index is the first nearest one, so the choice is determined. */
  lemma FirstNearestUnique(p: Color, palette: seq<Color>, k1: int, k2: int)
    requires IsFirstNearest(p, palette, k1) && IsFirstNearest(p, palette, k2)
    ensures k1 == k2
  {
    // both are nearest, so equally near; neither may then come strictly first
    assert SqDist(p, palette[k1]) == SqDist(p, palette[k2]);
  }

  /**
   Reference definition of the quantiser's choice, written head-first: the
   head wins unless the nearest entry of the tail is strictly nearer.
   */
  function NearestIndex(p: Color, palette: seq<Color>): (k: nat)
    requires |palette| > 0
    ensures IsFirstNearest(p, palette, k)
    decreases |palette|
  {
    if |palette| == 1 then 0
    else
      var k := 1 + NearestIndex(p, palette[1..]);
      if SqDist(p, palette[0]) <= SqDist(p, palette[k]) then 0 else k
  }

  /** The palette colour the quantiser assigns to pixel `p`: a palette entry nearest to it. */
  function Quantize(p: Color, palette: seq<Color>): (c: Color)
    requires |palette| > 0
    ensures c in palette
    ensures forall q :: q in palette ==> SqDist(p, c) <= SqDist(p, q)
  {
    palette[NearestIndex(p, palette)]
  }

  /** The running minimum of the scan: it starts at infinity. */
  datatype Bound = Infinity | Finite(value: nat)
  {
    /** `d < this`, with every distance below infinity. */
    predicate Above(d: nat)
    {
      Infinity? || d < value
    }
  }

  /** A result that may be missing: `palette[0]` of an empty palette is `undefined` in the source. */
  datatype Option<T> = None | Some(value: T)

  /**
   `findClosestColor`: one scan over the palette keeping the running minimum,
   replaced only on a strictly smaller distance, so the earliest of several
   equally near entries is returned. An empty palette yields no colour.
   */
  method FindClosestColor(color: Color, palette: seq<Color>) returns (closest: Option<Color>)
    ensures closest == None <==> palette == []
    ensures closest.Some? ==> closest.value in palette
    ensures closest.Some? ==> forall c :: c in palette ==> SqDist(color, closest.value) <= SqDist(color, c)
    ensures palette != [] ==> closest == Some(Quantize(color, palette))
  {
    if palette == [] {
      return None;
    }
    var best := palette[0];
    var minDistance := Infinity;
    ghost var k := 0;
    for i := 0 to |palette|
      invariant i == 0 ==> minDistance == Infinity
      invariant i > 0 ==> IsFirstNearest(color, palette[..i], k)
      invariant i > 0 ==> best == palette[k] && minDistance == Finite(SqDist(color, best))
    {
      var distance := SqDist(color, palette[i]);
      if minDistance.Above(distance) {
        minDistance := Finite(distance);
        best := palette[i];
        k := i;
      }
    }
    assert palette[..|palette|] == palette;
    FirstNearestUnique(color, palette, k, NearestIndex(color, palette));
    closest := Some(best);
  }

  /**
   The grid-building loop of `processImage`: `height` rows of `width` cells,
   cell (y, x) being the palette colour chosen for the canvas pixel at (x, y).
   */
  method BuildColorGrid(pixelAt: (nat, nat) -> Color, width: nat, height: nat, palette: seq<Color>)
    returns (colorGrid: seq<seq<Color>>)
    requires |palette| > 0
    ensures |colorGrid| == height
    ensures forall y :: 0 <= y < height ==> |colorGrid[y]| == width
    ensures forall y, x :: 0 <= y < height && 0 <= x < width ==>
      colorGrid[y][x] == Quantize(pixelAt(x, y), palette)
  {
    colorGrid := [];
    for y := 0 to height
      invariant |colorGrid| == y
      invariant forall y' :: 0 <= y' < y ==> |colorGrid[y']| == width
      invariant forall y', x :: 0 <= y' < y && 0 <= x < width ==>
        colorGrid[y'][x] == Quantize(pixelAt(x, y'), palette)
    {
      var row := [];
      for x := 0 to width
        invariant |row| == x
        invariant forall x' :: 0 <= x' < x ==> row[x'] == Quantize(pixelAt(x', y), palette)
      {
        var pixelColor := pixelAt(x, y);
        var closestColor := FindClosestColor(pixelColor, palette);
        row := row + [closestColor.value];
      }
      colorGrid := colorGrid + [row];
    }
  }

  /** Of two entries equally near the pixel, the later one is never chosen. */
  lemma TieGoesToEarlier(p: Color, palette: seq<Color>, i: nat, j: nat)
    requires i < j < |palette|
    ensures SqDist(p, palette[i]) == SqDist(p, palette[j]) ==> NearestIndex(p, palette) != j
  {
  }
}
