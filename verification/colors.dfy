/** Random colours for a round. The random source itself is not modelled:
    callers pass the values it produced, and this module states the ranges
    and shapes those values have.
 */
module Colors {

  /** Colour components are drawn from [0, ComponentRange); it is the default
      bound of the random-number helper. */
  const ComponentRange: nat := 256

  /** One box colour, shown as rgb(r,g,b). */
  datatype Rgb = Rgb(r: int, g: int, b: int)

  predicate IsComponent(x: int) {
    0 <= x < ComponentRange
  }

  /** A colour every component of which is in range. */
  predicate Displayable(c: Rgb) {
    IsComponent(c.r) && IsComponent(c.g) && IsComponent(c.b)
  }

  /** A list of raw component samples, all in range. */
  predicate Samples(xs: seq<int>) {
    forall i :: 0 <= i < |xs| ==> IsComponent(xs[i])
  }

  predicate AllDisplayable(cs: seq<Rgb>) {
    forall i :: 0 <= i < |cs| ==> Displayable(cs[i])
  }

  /** The modelling choice for a random sample in [0, 1): it is taken to be
      k / RandomGrid, with RandomGrid = 2^53, for an integer k in
      [0, RandomGrid). */
  const RandomGrid: nat := 0x20_0000_0000_0000

  /** The random-number helper: the floor of the sample k / RandomGrid scaled
      by max. Whatever k is, the result is a valid index below max, which is
      why the rest of the model takes these results as integers constrained
      to [0, max). */
  function RandomNumber(max: nat, k: int): (r: int)
    requires 0 < max
    requires 0 <= k < RandomGrid
    ensures 0 <= r < max
  {
    ScaledBelow(k, RandomGrid, max);
    (k * max) / RandomGrid
  }

  lemma ScaledBelow(k: nat, n: nat, m: nat)
    requires k < n && 0 < m
    ensures 0 <= k * m < n * m
  {
    assert n * m - k * m == (n - k) * m;
  }

  /** The colours built from consecutive triples of samples, in order: the
      first three samples are the first box's red, green and blue. */
  function ColorsFrom(samples: seq<int>): (cs: seq<Rgb>)
    requires |samples| % 3 == 0
    ensures 3 * |cs| == |samples|
    ensures forall k :: 0 <= k < |cs| ==>
              cs[k] == Rgb(samples[3 * k], samples[3 * k + 1], samples[3 * k + 2])
    ensures Samples(samples) ==> AllDisplayable(cs)
    decreases |samples|
  {
    if |samples| == 0 then []
    else [Rgb(samples[0], samples[1], samples[2])] + ColorsFrom(samples[3..])
  }

  /** The components of a list of colours, in order. */
  function Flatten(cs: seq<Rgb>): (xs: seq<int>)
    ensures |xs| == 3 * |cs|
    ensures AllDisplayable(cs) ==> Samples(xs)
  {
    if |cs| == 0 then []
    else [cs[0].r, cs[0].g, cs[0].b] + Flatten(cs[1..])
  }

  /** Grouping samples into colours loses nothing. */
  lemma {:induction false} FlattenColorsFrom(samples: seq<int>)
    requires |samples| % 3 == 0
    ensures Flatten(ColorsFrom(samples)) == samples
    decreases |samples|
  {
    if |samples| > 0 {
      FlattenColorsFrom(samples[3..]);
      assert ColorsFrom(samples)[1..] == ColorsFrom(samples[3..]);
    }
  }

  /** Every list of colours is the grouping of its own components. */
  lemma {:induction false} ColorsFromFlatten(cs: seq<Rgb>)
    ensures ColorsFrom(Flatten(cs)) == cs
  {
    if |cs| > 0 {
      ColorsFromFlatten(cs[1..]);
      assert Flatten(cs)[3..] == Flatten(cs[1..]);
    }
  }

  /** Builds one colour per box by pushing a colour for i = 0 .. count-1,
      taking three samples per colour. */
  method RandomRgbColors(count: nat, samples: seq<int>) returns (cs: seq<Rgb>)
    requires |samples| == 3 * count
    ensures |cs| == count
    ensures forall k :: 0 <= k < count ==>
              cs[k] == Rgb(samples[3 * k], samples[3 * k + 1], samples[3 * k + 2])
    ensures cs == ColorsFrom(samples)
    ensures Samples(samples) ==> AllDisplayable(cs)
  {
    cs := [];
    var i := 0;
    while i < count
      invariant 0 <= i <= count
      invariant |cs| == i
      invariant forall k :: 0 <= k < i ==>
                  cs[k] == Rgb(samples[3 * k], samples[3 * k + 1], samples[3 * k + 2])
    {
      cs := cs + [Rgb(samples[3 * i], samples[3 * i + 1], samples[3 * i + 2])];
      i := i + 1;
    }
  }
}
