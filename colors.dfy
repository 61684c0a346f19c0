/**
 Colours as the generator sees them: RGB triples whose channels are the
 8-bit values a canvas pixel read yields, the squared Euclidean distance the
 nearest-colour search minimises, and the (colour, count) pair that every
 displayed sequence entry consists of.
 */
module Colors {

  /** One 8-bit colour channel. */
  type Channel = x: int | 0 <= x <= 255

  /** An RGB triple; equality is component-wise, like the JSON-string comparison of the source. */
  datatype Color = Color(r: Channel, g: Channel, b: Channel)

  /** A colour together with a count: what one `appendSequence` call displays. */
  datatype ColorCount = ColorCount(color: Color, count: nat)

  /** Sum of the counts of a list of entries. */
  function SumCounts(entries: seq<ColorCount>): nat
  {
    if entries == [] then 0 else SumCounts(entries[..|entries| - 1]) + entries[|entries| - 1].count
  }

  function Square(x: int): nat
  {
    x * x
  }

  /**
   Squared Euclidean distance in RGB space. The source compares the square
   root of this value; the root is strictly increasing, so both orderings agree.
   */
  function SqDist(p: Color, q: Color): (d: nat)
    ensures d == 0 <==> p == q
  {
    Square(p.r - q.r) + Square(p.g - q.g) + Square(p.b - q.b)
  }
}
