# Domino field generator: a verified model of the image-to-dominoes core

The domino field generator turns an uploaded picture into a plan for a field
of dominoes. The picture is scaled to `width` × `height` cells. Each cell
takes the domino colour nearest to its pixel, chosen from a fixed palette of
eight RGB colours. The page then shows three things: the field itself, a
run-length "row list" (for each row, the sequence of colour/count pairs to
lay) and the total number of dominoes needed per colour.

This project models that pipeline in Dafny:

- `colors.dfy` (module `Colors`): RGB colours with 8-bit channels, the
  squared Euclidean distance, and the (colour, count) pair that every
  displayed entry consists of.
- `quantizer.dfy` (module `Quantizer`): `findClosestColor` as a loop that
  keeps a running minimum. It is proved against `NearestIndex`, a reference
  definition of the first nearest palette entry. The grid-building loops of
  `processImage` are modelled too, with the canvas pixel read as a function
  parameter `pixelAt(x, y)`.
- `row_encoder.dfy` (module `RowEncoder`): the run-length loop of
  `createRowList`. It is proved against `Expand`, which repeats each colour
  by its count, and against `Maximal`: every count is at least one and
  adjacent runs differ. Maximal run lists are unique, so the encoding is
  determined by the row.
- `totals.dfy` (module `Totals`): the counting loop of `createTotalCount`.
  A dictionary keyed by colour is modelled as a `map`, plus the list of keys
  in insertion order, which is the order a JavaScript object enumerates them.
  The loop is proved equal to `Tally`, whose entries list each distinct colour
  once, with its number of occurrences.
- `generator.dfy` (module `Generator`): `processImage`, composing the above
  over the domino palette.

## Model

| member | source | states |
|---|---|---|
| `Colors.SqDist` | script.js:98-102 | the distance is zero exactly when the two colours are equal |
| `Quantizer.DominoColorsDistinct` | script.js:7-16 | the domino palette holds eight colours, no two alike |
| `Quantizer.NearestIndex` | script.js:97-107 | the chosen index is a nearest palette entry and every earlier entry is strictly farther (first-index tie-break) |
| `Quantizer.FirstNearestUnique` | script.js:103-106 | at most one index is the first nearest, so the strict `<` comparison determines the choice |
| `Quantizer.Quantize` | script.js:93-109 | the assigned colour is a palette member no farther from the pixel than any other member |
| `Quantizer.FindClosestColor` | script.js:93-109 | the running-minimum scan returns the first nearest palette member; an empty palette yields no colour |
| `Quantizer.TieGoesToEarlier` | script.js:103-106 | for any pixel and palette, of two entries equally near the pixel the later one is never chosen |
| `Quantizer.BuildColorGrid` | script.js:76-86 | the grid has `height` rows of `width` cells, and cell (y, x) is the quantised pixel at (x, y) |
| `RowEncoder.MaximalIffByIndex` | script.js:134-142 | the run-by-run maximality is the same as: every count is at least one and adjacent runs differ in colour |
| `RowEncoder.EncodeRow` | script.js:129-143 | the runs expand back to the row, are maximal, add up to the row's length, and are empty exactly when the row is |
| `RowEncoder.ExpandLength` | script.js:132-143 | the expanded row is as long as the counts add up to |
| `RowEncoder.SumCountsAtLeast` | script.js:132-140 | a maximal run list (every count at least one) has no more runs than cells |
| `RowEncoder.MaximalRunsUnique` | script.js:129-143 | two maximal run lists with the same expansion are equal, so the encoder's output is the only one its contract allows |
| `RowEncoder.NonEmptyRows` | script.js:126-129 | the rows that get an entry are exactly the grid's non-empty rows |
| `RowEncoder.NonEmptyRowsOfUniformGrid` | script.js:129 | in a grid of equal-width rows, no row is skipped when the width is positive and every row is skipped when it is zero |
| `RowEncoder.CreateRowList` | script.js:123-146 | one maximal run list per non-empty row, in order, each expanding back to its row; empty rows get no entry |
| `Totals.Flatten` | script.js:153 | every cell of every row appears in the flattened list |
| `Totals.FlattenLength` | script.js:153 | flattening `height` rows of `width` cells gives `height * width` cells |
| `Totals.FlattenMember` | script.js:153 | every flattened cell comes from some row |
| `Totals.FirstSeen` | script.js:155-158 | the key list, in first-insertion order, names each colour of the cells exactly once and nothing else |
| `Totals.FirstSeenPrefix` | script.js:155-158 | scanning more cells only appends keys; earlier keys keep their places |
| `Totals.CountsOf` | script.js:158-162 | entry k is key k with its number of occurrences in the cells |
| `Totals.CountStep` | script.js:154-155 | counting one more cell keeps the dictionary equal to the occurrence counts, and a new key joins the end of the key list |
| `Totals.TallyKeys` | script.js:151-158 | the totals list exactly the colours that occur, each once, each with its occurrence count, which is at least one |
| `Totals.TallySum` | script.js:153-156 | the totals add up to the number of cells |
| `Totals.CreateTotalCount` | script.js:148-164 | the emitted entries are the tally of the flattened grid, in first-insertion order, and their counts add up to the number of cells |
| `Generator.TotalsWithinPalette` | script.js:82-90 | when every cell is a palette colour, every colour in the totals is one too, with a positive count |
| `Generator.ProcessWithPalette` | script.js:76-90 | for any non-empty palette: grid shape and cells as quantised, row lists expanding to the rows (none for zero width), totals as the tally, within the palette, summing to width × height |
| `Generator.ProcessImage` | script.js:67-91 | the same guarantees for the eight domino colours |

## Left out

- Page rendering is not modelled: the palette display, the domino field (`createDominoField`) and the DOM nodes that `appendSequence` builds. `appendSequence` appears only as the `ColorCount` entry it displays.
- Reading the uploaded file, decoding the image and the button handler are not modelled. The `parseInt` of the field sizes is also left out: width and height are natural numbers, so negative or non-numeric input is not covered.
- The canvas `drawImage`/`getImageData` scaling is not modelled. The pixel read is the function parameter `pixelAt(x, y)`, whose channels are the 0..255 values a canvas returns.
- `Math.sqrt`/`Math.pow` floating point is not modelled. Colours are compared by the squared integer distance. The square root is strictly increasing, and the distinct integers up to 3 × 255² keep distinct square roots as doubles, so the choice is the same.
- `JSON.stringify`/`JSON.parse` of colours is not modelled: colour keys compare by value.
- Quantizer.BuildColorGrid: requires a non-empty palette. The only palette it receives is the eight domino colours. With an empty palette the source would store `undefined` cells, which this model does not represent.
- Generator.ProcessWithPalette: requires a non-empty palette for the same reason.
