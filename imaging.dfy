/**
  Pixels and the compose step of the preview accumulation buffer.

  The preview is an RGB raster; `ImageChops.add(a, b)` with its default
  scale 1 and offset 0 adds the two images channel by channel and clips
  every sum to 255. The result has the size of the overlap of the two
  operands (the width and the height of the smaller one).
*/
module Imaging {

  /** One 8-bit colour channel. */
  type Channel = x: int | 0 <= x <= 255

  datatype Color = Color(r: Channel, g: Channel, b: Channel)

  const Black := Color(0, 0, 0)
  const White := Color(255, 255, 255)
  /** The overlay colour of a subtask that has been sent out. */
  const Green := Color(0, 255, 0)
  /** The overlay colour of a subtask that failed. */
  const Red := Color(255, 0, 0)

  /** A decoded image as a sequence of rows; `g[row][column]`. */
  type Grid = seq<seq<Color>>

  function Min(a: int, b: int): int { if a <= b then a else b }

  function Width(g: Grid): nat { if |g| == 0 then 0 else |g[0]| }

  predicate Rectangular(g: Grid) {
    forall row :: 0 <= row < |g| ==> |g[row]| == Width(g)
  }

  /** Saturating 8-bit addition of one channel. */
  function AddChannel(x: Channel, y: Channel): (r: Channel)
    ensures x <= r && y <= r && r <= x + y
    ensures r == 255 || r == x + y
    ensures x + y <= 255 <==> r == x + y
  {
    if x + y <= 255 then x + y else 255
  }

  function AddColor(p: Color, q: Color): Color {
    Color(AddChannel(p.r, q.r), AddChannel(p.g, q.g), AddChannel(p.b, q.b))
  }

  /** `ImageChops.add(a, b)`: the pixel-wise saturating sum over the overlap. */
  function Compose(a: Grid, b: Grid): (r: Grid)
    requires Rectangular(a) && Rectangular(b)
    ensures Rectangular(r)
    ensures |r| == Min(|a|, |b|)
    ensures |r| > 0 ==> Width(r) == Min(Width(a), Width(b))
    ensures forall row, col :: 0 <= row < |r| && 0 <= col < |r[row]| ==>
              r[row][col] == AddColor(a[row][col], b[row][col])
  {
    var h := Min(|a|, |b|);
    var w := Min(Width(a), Width(b));
    seq(h, row requires 0 <= row < h =>
      seq(w, col requires 0 <= col < w => AddColor(a[row][col], b[row][col])))
  }

  /** A `w` by `h` image of one colour. */
  function Filled(w: nat, h: nat, c: Color): (g: Grid)
    ensures |g| == h && Rectangular(g)
    ensures h > 0 ==> Width(g) == w
    ensures forall row, col :: 0 <= row < h && 0 <= col < |g[row]| ==> g[row][col] == c
  {
    seq(h, row => seq(w, col => c))
  }

  /** Adding a black image of the same size leaves an image as it was. */
  lemma ComposeBlackIsIdentity(a: Grid)
    requires Rectangular(a)
    ensures Compose(a, Filled(Width(a), |a|, Black)) == a
  {
    var r := Compose(a, Filled(Width(a), |a|, Black));
    forall row | 0 <= row < |a| ensures r[row] == a[row] {
      assert |r[row]| == |a[row]|;
    }
  }

  /** Adding is symmetric: the order of two tiles does not matter. */
  lemma ComposeCommutes(a: Grid, b: Grid)
    requires Rectangular(a) && Rectangular(b)
    ensures Compose(a, b) == Compose(b, a)
  {
    var r, s := Compose(a, b), Compose(b, a);
    forall row | 0 <= row < |r| ensures r[row] == s[row] {
      assert |r[row]| == |s[row]|;
    }
  }

  /** Adding onto white stays white: channels saturate, they do not wrap around. */
  lemma ComposeOntoWhiteSaturates(b: Grid, w: nat, h: nat)
    requires Rectangular(b)
    ensures var r := Compose(Filled(w, h, White), b);
      forall row, col :: 0 <= row < |r| && 0 <= col < |r[row]| ==> r[row][col] == White
  {
  }

  /** Two black tiles compose to black. */
  lemma ComposeBlackTiles(w1: nat, h1: nat, w2: nat, h2: nat)
    ensures var r := Compose(Filled(w1, h1, Black), Filled(w2, h2, Black));
      forall row, col :: 0 <= row < |r| && 0 <= col < |r[row]| ==> r[row][col] == Black
  {
  }
}
