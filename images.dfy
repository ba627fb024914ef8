/** Images as flat, row-major pixel arrays, and the counted loops that convert
    a byte image to a float image and back. */
module Images {
  import opened Colors

  /** A float image. Like the by-value C++ struct, it carries a reference to
      a pixel buffer that other values may share. */
  datatype Image = Image(width: nat, height: nat, data: array<Color>) {
    /** The buffer holds exactly one pixel per position. */
    predicate Valid() {
      data.Length == width * height
    }
  }

  /** A byte image, laid out like `Image`. */
  datatype BImage = BImage(width: nat, height: nat, data: array<BColor>) {
    predicate Valid() {
      data.Length == width * height
    }
  }

  /** Every pixel converted from bytes to floats. */
  function ToFloatAll(s: seq<BColor>): seq<Color>
  {
    seq(|s|, i requires 0 <= i < |s| => ConvertToFloat(s[i]))
  }

  /** Every pixel converted from floats to bytes. */
  function ToByteAll(s: seq<Color>): seq<BColor>
  {
    seq(|s|, i requires 0 <= i < |s| => ConvertToByte(s[i]))
  }

  /** Converting a byte image to floats and back reproduces every pixel. */
  lemma RoundTripAll(s: seq<BColor>)
    ensures ToByteAll(ToFloatAll(s)) == s
  {
    forall i | 0 <= i < |s|
      ensures ToByteAll(ToFloatAll(s))[i] == s[i]
    {
      ColorRoundTrip(s[i]);
    }
  }

  /** A converted byte image has every channel in [0, 1]. */
  lemma ToFloatAllInUnit(s: seq<BColor>)
    ensures forall i :: 0 <= i < |s| ==> InUnit(ToFloatAll(s)[i])
  {
  }

  /** The start of row `y` lies within a `w` by `h` buffer. */
  lemma RowStartInBounds(y: nat, w: nat, h: nat)
    requires y <= h
    ensures y * w <= w * h
  {
    assert (h - y) * w >= 0;
  }

  /** Position `x` of row `y` lies within a `w` by `h` buffer. */
  lemma PixelInBounds(y: nat, x: nat, w: nat, h: nat)
    requires y < h && x < w
    ensures y * w + x < w * h
  {
    RowStartInBounds(y + 1, w, h);
    assert (y + 1) * w == y * w + w;
  }

  lemma NextRow(y: nat, w: nat)
    ensures y * w + w == (y + 1) * w
  {
  }

  /** The counted loop converting `w * h` byte pixels into a fresh float buffer. */
  method ConvertPixelsToFloat(w: nat, h: nat, input: array<BColor>) returns (data: array<Color>)
    requires w * h <= input.Length
    ensures fresh(data) && data.Length == w * h
    ensures data[..] == ToFloatAll(input[..w * h])
  {
    data := new Color[w * h];
    var d := 0;
    for y := 0 to h
      invariant d == y * w && d <= w * h
      invariant forall i :: 0 <= i < d ==> data[i] == ConvertToFloat(input[i])
    {
      for x := 0 to w
        invariant d == y * w + x && d <= w * h
        invariant forall i :: 0 <= i < d ==> data[i] == ConvertToFloat(input[i])
      {
        PixelInBounds(y, x, w, h);
        var p := input[d];
        data[d] := ConvertToFloat(p);
        d := d + 1;
      }
      NextRow(y, w);
      RowStartInBounds(y + 1, w, h);
    }
    assert d == w * h;
  }

  /** The counted loop converting `w * h` float pixels into a fresh byte buffer. */
  method ConvertPixelsToByte(w: nat, h: nat, input: array<Color>) returns (data: array<BColor>)
    requires w * h <= input.Length
    ensures fresh(data) && data.Length == w * h
    ensures data[..] == ToByteAll(input[..w * h])
  {
    data := new BColor[w * h];
    var d := 0;
    for y := 0 to h
      invariant d == y * w && d <= w * h
      invariant forall i :: 0 <= i < d ==> data[i] == ConvertToByte(input[i])
    {
      for x := 0 to w
        invariant d == y * w + x && d <= w * h
        invariant forall i :: 0 <= i < d ==> data[i] == ConvertToByte(input[i])
      {
        PixelInBounds(y, x, w, h);
        var p := input[d];
        data[d] := ConvertToByte(p);
        d := d + 1;
      }
      NextRow(y, w);
      RowStartInBounds(y + 1, w, h);
    }
    assert d == w * h;
  }

  /** A byte image converted to a float image of the same size. */
  method ConvertImageToFloat(input: BImage) returns (result: Image)
    requires input.Valid()
    ensures fresh(result.data) && result.Valid()
    ensures result.width == input.width && result.height == input.height
    ensures result.data[..] == ToFloatAll(input.data[..])
  {
    var data := ConvertPixelsToFloat(input.width, input.height, input.data);
    assert input.data[..input.width * input.height] == input.data[..];
    result := Image(input.width, input.height, data);
  }

  /** A float image converted to a byte image of the same size. */
  method ConvertImageToByte(input: Image) returns (result: BImage)
    requires input.Valid()
    ensures fresh(result.data) && result.Valid()
    ensures result.width == input.width && result.height == input.height
    ensures result.data[..] == ToByteAll(input.data[..])
  {
    var data := ConvertPixelsToByte(input.width, input.height, input.data);
    assert input.data[..input.width * input.height] == input.data[..];
    result := BImage(input.width, input.height, data);
  }
}
