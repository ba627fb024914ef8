/** The greyscale pre-pass: every pixel's red, green and blue channels are
    replaced, in place, by its luma; alpha is kept. */
module Greyscale {
  import opened Colors
  import opened Images

  /** Perceptual brightness `0.3 r + 0.59 g + 0.11 b`. */
  function Luma(c: Color): real
  {
    0.3 * c.r + 0.59 * c.g + 0.11 * c.b
  }

  /** One pixel made grey: its three colour channels all become its luma. */
  function Grey(c: Color): (g: Color)
    ensures g.a == c.a
    ensures g.r == g.g == g.b == Luma(c)
  {
    Argb(c.a, Luma(c), Luma(c), Luma(c))
  }

  /** A pixel is grey when its three colour channels agree. */
  predicate IsGrey(c: Color)
  {
    c.r == c.g == c.b
  }

  /** The luma weights sum to one, so a grey pixel is its own luma and
      greying it again changes nothing. */
  lemma GreyFixesGrey(c: Color)
    requires IsGrey(c)
    ensures Luma(c) == c.r
    ensures Grey(c) == c
  {
  }

  /** Greying a pixel twice is the same as greying it once. */
  lemma GreyIdempotent(c: Color)
    ensures Grey(Grey(c)) == Grey(c)
  {
    GreyFixesGrey(Grey(c));
  }

  /** A pixel in the unit cube stays there when greyed. */
  lemma GreyInUnit(c: Color)
    requires InUnit(c)
    ensures InUnit(Grey(c))
  {
  }

  /** Every pixel of a buffer greyed. */
  function Greyscaled(s: seq<Color>): seq<Color>
  {
    seq(|s|, i requires 0 <= i < |s| => Grey(s[i]))
  }

  /** A greyed buffer keeps its length and every pixel's alpha, and every
      pixel is grey with the luma of the pixel it replaced. */
  lemma GreyscaledPixels(s: seq<Color>)
    ensures |Greyscaled(s)| == |s|
    ensures forall i :: 0 <= i < |s| ==> Greyscaled(s)[i].a == s[i].a
    ensures forall i :: 0 <= i < |s| ==>
      Greyscaled(s)[i].r == Greyscaled(s)[i].g == Greyscaled(s)[i].b == Luma(s[i])
  {
  }

  /** Greying a whole buffer twice is the same as greying it once. */
  lemma GreyscaledIdempotent(s: seq<Color>)
    ensures Greyscaled(Greyscaled(s)) == Greyscaled(s)
  {
    forall i | 0 <= i < |s|
      ensures Greyscaled(Greyscaled(s))[i] == Greyscaled(s)[i]
    {
      GreyIdempotent(s[i]);
    }
  }

  /** Greys every one of the image's `width * height` pixels in place, row by row. */
  method MakeGreyscale(image: Image)
    requires image.Valid()
    modifies image.data
    ensures image.data[..] == Greyscaled(old(image.data[..]))
  {
    var w, h := image.width, image.height;
    var d := 0;
    for y := 0 to h
      invariant d == y * w && d <= w * h
      invariant forall i :: 0 <= i < d ==> image.data[i] == Grey(old(image.data[i]))
      invariant forall i :: d <= i < w * h ==> image.data[i] == old(image.data[i])
    {
      for x := 0 to w
        invariant d == y * w + x && d <= w * h
        invariant forall i :: 0 <= i < d ==> image.data[i] == Grey(old(image.data[i]))
        invariant forall i :: d <= i < w * h ==> image.data[i] == old(image.data[i])
      {
        PixelInBounds(y, x, w, h);
        var col := image.data[d];
        var b := 0.3 * col.r + 0.59 * col.g + 0.11 * col.b;
        image.data[d] := Argb(col.a, b, b, b);
        d := d + 1;
      }
      NextRow(y, w);
      RowStartInBounds(y + 1, w, h);
    }
  }
}
