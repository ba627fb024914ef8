/** The image-diff kernel: every pixel of the right image is compared with the
    pixel of the left image at the same position; similar pixels are copied
    from the left image, the others are drawn as a blend toward an error
    colour, and the fraction of similar pixels is reported. */
module Diff {
  import opened Colors
  import opened Images
  import opened Greyscale

  /** How a dissimilar pixel is drawn. */
  datatype OverlayType = Flat | Movement

  /** The options of one comparison. The two flags are bytes, set when non-zero. */
  datatype DiffOptions = DiffOptions(
    errorColor: BColor,
    tolerance: real,
    overlayTransparency: real,
    overlayType: OverlayType,
    weightByDiffPercentage: Byte,
    ignoreColor: Byte)

  /** A float result: a number, or the NaN that dividing zero by zero gives. */
  datatype Score = Number(value: real) | NaN

  /** The diff image and the similarity of a float comparison. */
  datatype DiffResult = DiffResult(img: Image, similarity: Score)

  /** The diff image and the similarity of a byte comparison. */
  datatype BDiffResult = BDiffResult(img: BImage, similarity: Score)

  // ---------------------------------------------------------------------------
  // Image sizes

  /** The size check written in the kernel: it compares the left image's
      height with the right image's WIDTH. */
  predicate DimensionsMatchAsWritten(lw: nat, lh: nat, rw: nat, rh: nat)
  {
    lw == rw && lh == rw
  }

  /** The size check the kernel needs: equal widths and equal heights. */
  predicate DimensionsMatch(lw: nat, lh: nat, rw: nat, rh: nat)
  {
    lw == rw && lh == rh
  }

  /** Two images of equal width and equal height. */
  predicate SameSize(left: Image, right: Image)
  {
    DimensionsMatch(left.width, left.height, right.width, right.height)
  }

  /** The check as written rejects two equal 2x1 images, and accepts a 2x2
      left image with a 2x1 right image, whose buffer holds two pixels where
      the kernel reads four. */
  lemma SizeCheckAsWrittenMisjudges()
    ensures DimensionsMatch(2, 1, 2, 1) && !DimensionsMatchAsWritten(2, 1, 2, 1)
    ensures DimensionsMatchAsWritten(2, 2, 2, 1) && 2 * 1 < 2 * 2
  {
  }

  /** With matching sizes the right buffer has a pixel at every position the
      kernel walks over the left buffer; on a square left image the written
      check lets every matching pair through. */
  lemma DimensionsMatchReadsInBounds(left: Image, right: Image)
    requires left.Valid() && right.Valid()
    ensures SameSize(left, right) ==> right.data.Length == left.data.Length == left.width * left.height
    ensures SameSize(left, right) && left.width == left.height ==>
      DimensionsMatchAsWritten(left.width, left.height, right.width, right.height)
  {
  }

  // ---------------------------------------------------------------------------
  // One pixel

  /** The squared Euclidean RGBA distance between two pixels. */
  function SquaredDistance(left: Color, right: Color): (q: real)
    ensures q >= 0.0
  {
    var d := Minus(right, left);
    d.r * d.r + d.g * d.g + d.b * d.b + d.a * d.a
  }

  lemma MulMonotone(c: real, a: real, b: real)
    requires 0.0 <= c && a <= b
    ensures c * a <= c * b
  {
    assert c * b - c * a == c * (b - a);
  }

  lemma MulStrict(c: real, a: real, b: real)
    requires 0.0 < c && a < b
    ensures c * a < c * b
  {
    assert c * b - c * a == c * (b - a);
  }

  lemma SquareLt(x: real, y: real)
    requires 0.0 <= y < x
    ensures y * y < x * x
  {
    MulStrict(x + y, 0.0, x - y);
    assert x * x - y * y == (x + y) * (x - y);
  }

  lemma SquareLe(x: real, y: real)
    requires 0.0 <= x <= y
    ensures x * x <= y * y
  {
    MulMonotone(x + y, 0.0, y - x);
    assert y * y - x * x == (x + y) * (y - x);
  }

  lemma SquareZero(x: real)
    ensures x * x >= 0.0
    ensures x * x == 0.0 <==> x == 0.0
  {
    if x > 0.0 {
      SquareLt(x, 0.0);
    } else if x < 0.0 {
      SquareLt(-x, 0.0);
      assert (-x) * (-x) == x * x;
    }
  }

  /** The distance is zero exactly between equal pixels. */
  lemma SquaredDistanceZero(left: Color, right: Color)
    ensures SquaredDistance(left, right) == 0.0 <==> left == right
  {
    var d := Minus(right, left);
    SquareZero(d.r);
    SquareZero(d.g);
    SquareZero(d.b);
    SquareZero(d.a);
  }

  /** `distance <= tolerance`, where distance is the square root of the
      squared distance. Both sides are compared squared, which is only sound
      for a non-negative tolerance; a negative one admits nothing, since no
      distance is negative. */
  predicate IsSimilar(left: Color, right: Color, tolerance: real)
  {
    tolerance >= 0.0 && SquaredDistance(left, right) <= tolerance * tolerance
  }

  lemma SquaresOrdered(x: real, y: real)
    requires 0.0 <= x && 0.0 <= y
    ensures x <= y <==> x * x <= y * y
  {
    if x <= y {
      SquareLe(x, y);
    } else {
      SquareLt(x, y);
    }
  }

  /** For any non-negative square root of the squared distance, the squared
      comparison says the same as comparing the distance with the tolerance. */
  lemma SimilarIffWithinTolerance(left: Color, right: Color, tolerance: real, distance: real)
    requires distance >= 0.0 && distance * distance == SquaredDistance(left, right)
    ensures IsSimilar(left, right, tolerance) <==> distance <= tolerance
  {
    if tolerance >= 0.0 {
      SquaresOrdered(distance, tolerance);
    }
  }

  /** A pixel similar under some tolerance stays similar under a larger one. */
  lemma SimilarMonotone(left: Color, right: Color, t1: real, t2: real)
    requires t1 <= t2 && IsSimilar(left, right, t1)
    ensures IsSimilar(left, right, t2)
  {
    SquaresOrdered(t1, t2);
  }

  /** Every pixel is similar to itself under a non-negative tolerance. */
  lemma SimilarToItself(c: Color, tolerance: real)
    requires tolerance >= 0.0
    ensures IsSimilar(c, c, tolerance)
  {
    SquaredDistanceZero(c, c);
    SquareZero(tolerance);
  }

  /** The blend weight toward the error colour: the overlay transparency,
      multiplied by the distance when weighting by divergence. */
  function BlendWeight(options: DiffOptions, distance: real): real
  {
    if options.weightByDiffPercentage != 0 then options.overlayTransparency * distance
    else options.overlayTransparency
  }

  /** The output pixel for one position, given the distance of its two pixels. */
  function DiffPixel(left: Color, right: Color, error: Color, options: DiffOptions, distance: real): Color
  {
    var t := BlendWeight(options, distance);
    if IsSimilar(left, right, options.tolerance) then left
    else if options.overlayType == Movement then Mix(Times(right, error), error, t).(a := 1.0)
    else Mix(right, error, t)
  }

  // ---------------------------------------------------------------------------
  // Whole images

  /** The buffer the kernel compares: greyed when colour is ignored. */
  function Prepared(s: seq<Color>, options: DiffOptions): seq<Color>
  {
    if options.ignoreColor != 0 then Greyscaled(s) else s
  }

  /** The diff image of two equally long buffers; `sqrt` gives the distance
      from the squared distance. */
  function DiffPixels(ls: seq<Color>, rs: seq<Color>, error: Color, options: DiffOptions, sqrt: real -> real): seq<Color>
    requires |ls| == |rs|
  {
    seq(|ls|, i requires 0 <= i < |ls| =>
      DiffPixel(ls[i], rs[i], error, options, sqrt(SquaredDistance(ls[i], rs[i]))))
  }

  /** The number of positions below `n` whose pixels are similar. */
  function CountSimilar(ls: seq<Color>, rs: seq<Color>, tolerance: real, n: nat): (c: nat)
    requires n <= |ls| == |rs|
    ensures c <= n
  {
    if n == 0 then 0
    else CountSimilar(ls, rs, tolerance, n - 1) + (if IsSimilar(ls[n - 1], rs[n - 1], tolerance) then 1 else 0)
  }

  /** The number of positions whose pixels are similar. */
  function SimilarCount(ls: seq<Color>, rs: seq<Color>, tolerance: real): (c: nat)
    requires |ls| == |rs|
    ensures c <= |ls|
  {
    CountSimilar(ls, rs, tolerance, |ls|)
  }

  /** The positions below `n` whose pixels are similar. */
  function SimilarPositions(ls: seq<Color>, rs: seq<Color>, tolerance: real, n: nat): set<nat>
    requires n <= |ls| == |rs|
  {
    set i: nat | i < n && IsSimilar(ls[i], rs[i], tolerance)
  }

  /** The similarity of `count` similar pixels out of `total`:
      `float(count) / total`, NaN for an empty image. */
  function Similarity(count: nat, total: nat): Score
  {
    if total == 0 then NaN else Number(count as real / total as real)
  }

  /** The output is a buffer of the same length; a similar position holds the
      left pixel; a dissimilar one holds the right pixel blended toward the
      error colour in Flat mode, and the tinted right pixel blended toward it,
      made opaque, in Movement mode. */
  lemma DiffSelection(ls: seq<Color>, rs: seq<Color>, error: Color, options: DiffOptions, sqrt: real -> real, i: int)
    requires |ls| == |rs| && 0 <= i < |ls|
    ensures |DiffPixels(ls, rs, error, options, sqrt)| == |ls|
    ensures IsSimilar(ls[i], rs[i], options.tolerance) ==> DiffPixels(ls, rs, error, options, sqrt)[i] == ls[i]
    ensures !IsSimilar(ls[i], rs[i], options.tolerance) && options.overlayType == Flat ==>
      DiffPixels(ls, rs, error, options, sqrt)[i] ==
        Mix(rs[i], error, BlendWeight(options, sqrt(SquaredDistance(ls[i], rs[i]))))
    ensures !IsSimilar(ls[i], rs[i], options.tolerance) && options.overlayType == Movement ==>
      var m := Mix(Times(rs[i], error), error, BlendWeight(options, sqrt(SquaredDistance(ls[i], rs[i]))));
      var p := DiffPixels(ls, rs, error, options, sqrt)[i];
      p.a == 1.0 && p.r == m.r && p.g == m.g && p.b == m.b
  {
    PixelOfDiff(ls, rs, error, options, sqrt, i);
  }

  lemma PixelOfDiff(ls: seq<Color>, rs: seq<Color>, error: Color, options: DiffOptions, sqrt: real -> real, i: int)
    requires |ls| == |rs| && 0 <= i < |ls|
    ensures |DiffPixels(ls, rs, error, options, sqrt)| == |ls|
    ensures DiffPixels(ls, rs, error, options, sqrt)[i] ==
      DiffPixel(ls[i], rs[i], error, options, sqrt(SquaredDistance(ls[i], rs[i])))
  {
  }

  /** The count is the number of similar positions. */
  lemma {:induction false} CountIsCardinality(ls: seq<Color>, rs: seq<Color>, tolerance: real, n: nat)
    requires n <= |ls| == |rs|
    ensures CountSimilar(ls, rs, tolerance, n) == |SimilarPositions(ls, rs, tolerance, n)|
  {
    if n > 0 {
      var before := SimilarPositions(ls, rs, tolerance, n - 1);
      CountIsCardinality(ls, rs, tolerance, n - 1);
      if IsSimilar(ls[n - 1], rs[n - 1], tolerance) {
        assert SimilarPositions(ls, rs, tolerance, n) == before + {n - 1};
      } else {
        assert SimilarPositions(ls, rs, tolerance, n) == before;
      }
    }
  }

  /** Every position below `n` is counted exactly when every pair of pixels
      there is similar. */
  lemma {:induction false} AllSimilarIff(ls: seq<Color>, rs: seq<Color>, tolerance: real, n: nat)
    requires n <= |ls| == |rs|
    ensures CountSimilar(ls, rs, tolerance, n) == n <==>
      forall i :: 0 <= i < n ==> IsSimilar(ls[i], rs[i], tolerance)
  {
    if n > 0 {
      AllSimilarIff(ls, rs, tolerance, n - 1);
    }
  }

  /** No position below `n` is counted exactly when no pair of pixels there
      is similar. */
  lemma {:induction false} NoneSimilarIff(ls: seq<Color>, rs: seq<Color>, tolerance: real, n: nat)
    requires n <= |ls| == |rs|
    ensures CountSimilar(ls, rs, tolerance, n) == 0 <==>
      forall i :: 0 <= i < n ==> !IsSimilar(ls[i], rs[i], tolerance)
  {
    if n > 0 {
      NoneSimilarIff(ls, rs, tolerance, n - 1);
    }
  }

  /** Raising the tolerance never lowers the count of similar pixels. */
  lemma {:induction false} ToleranceMonotone(ls: seq<Color>, rs: seq<Color>, t1: real, t2: real, n: nat)
    requires n <= |ls| == |rs| && t1 <= t2
    ensures CountSimilar(ls, rs, t1, n) <= CountSimilar(ls, rs, t2, n)
  {
    if n > 0 {
      ToleranceMonotone(ls, rs, t1, t2, n - 1);
      if IsSimilar(ls[n - 1], rs[n - 1], t1) {
        SimilarMonotone(ls[n - 1], rs[n - 1], t1, t2);
      }
    }
  }

  /** A similarity is a fraction in [0, 1] for a non-empty image; it is 1
      exactly when every pixel is counted and 0 exactly when none is. */
  lemma SimilarityInUnit(count: nat, total: nat)
    requires count <= total && total > 0
    ensures Similarity(count, total).Number?
    ensures 0.0 <= Similarity(count, total).value <= 1.0
    ensures Similarity(count, total).value == 1.0 <==> count == total
    ensures Similarity(count, total).value == 0.0 <==> count == 0
  {
    var v := count as real / total as real;
    assert v * total as real == count as real;
  }

  /** Raising the tolerance never lowers the similarity. */
  lemma SimilarityMonotone(ls: seq<Color>, rs: seq<Color>, t1: real, t2: real)
    requires |ls| == |rs| && |ls| > 0 && t1 <= t2
    ensures Similarity(SimilarCount(ls, rs, t1), |ls|).value <= Similarity(SimilarCount(ls, rs, t2), |ls|).value
  {
    ToleranceMonotone(ls, rs, t1, t2, |ls|);
    DivMonotone(SimilarCount(ls, rs, t1) as real, SimilarCount(ls, rs, t2) as real, |ls| as real);
  }

  lemma DivMonotone(a: real, b: real, n: real)
    requires a <= b && n > 0.0
    ensures a / n <= b / n
  {
    assert b / n - a / n == (b - a) / n;
  }

  /** Comparing a buffer with an equal one under a non-negative tolerance
      copies it unchanged and counts every pixel as similar. */
  lemma {:induction false} IdentityDiff(ls: seq<Color>, error: Color, options: DiffOptions, sqrt: real -> real)
    requires options.tolerance >= 0.0
    ensures DiffPixels(ls, ls, error, options, sqrt) == ls
    ensures SimilarCount(ls, ls, options.tolerance) == |ls|
  {
    forall i | 0 <= i < |ls|
      ensures IsSimilar(ls[i], ls[i], options.tolerance)
      ensures DiffPixels(ls, ls, error, options, sqrt)[i] == ls[i]
    {
      SimilarToItself(ls[i], options.tolerance);
      PixelOfDiff(ls, ls, error, options, sqrt, i);
    }
    AllSimilarIff(ls, ls, options.tolerance, |ls|);
  }

  /** Pixels of the unit cube give output pixels of the unit cube. */
  lemma DiffPixelInUnit(left: Color, right: Color, error: Color, options: DiffOptions, distance: real)
    requires InUnit(left) && InUnit(right) && InUnit(error)
    ensures InUnit(DiffPixel(left, right, error, options, distance))
  {
    var t := BlendWeight(options, distance);
    if options.overlayType == Movement {
      TimesInUnit(right, error);
      MixInUnit(Times(right, error), error, t);
    } else {
      MixInUnit(right, error, t);
    }
  }

  /** Buffers of the unit cube give a diff image of the unit cube, which the
      byte conversion maps without leaving the range of a byte. */
  lemma DiffPixelsInUnit(ls: seq<Color>, rs: seq<Color>, error: Color, options: DiffOptions, sqrt: real -> real)
    requires |ls| == |rs| && InUnit(error)
    requires forall i :: 0 <= i < |ls| ==> InUnit(ls[i]) && InUnit(rs[i])
    ensures forall i :: 0 <= i < |ls| ==> InUnit(DiffPixels(ls, rs, error, options, sqrt)[i])
  {
    forall i | 0 <= i < |ls|
      ensures InUnit(DiffPixels(ls, rs, error, options, sqrt)[i])
    {
      DiffPixelInUnit(ls[i], rs[i], error, options, sqrt(SquaredDistance(ls[i], rs[i])));
      PixelOfDiff(ls, rs, error, options, sqrt, i);
    }
  }

  /** Opaque white against opaque black with tolerance 0.2, full overlay
      transparency, Flat mode and no weighting: every pixel is dissimilar and
      drawn in the error colour, and nothing is counted. */
  lemma WhiteAgainstBlack(ls: seq<Color>, rs: seq<Color>, error: Color, options: DiffOptions, sqrt: real -> real)
    requires |ls| == |rs|
    requires forall i :: 0 <= i < |ls| ==> ls[i] == Argb(1.0, 1.0, 1.0, 1.0) && rs[i] == Argb(1.0, 0.0, 0.0, 0.0)
    requires options.tolerance == 0.2 && options.overlayTransparency == 1.0
    requires options.overlayType == Flat && options.weightByDiffPercentage == 0
    ensures forall i :: 0 <= i < |ls| ==> DiffPixels(ls, rs, error, options, sqrt)[i] == error
    ensures SimilarCount(ls, rs, options.tolerance) == 0
  {
    forall i | 0 <= i < |ls|
      ensures !IsSimilar(ls[i], rs[i], options.tolerance)
      ensures DiffPixels(ls, rs, error, options, sqrt)[i] == error
    {
      assert SquaredDistance(ls[i], rs[i]) == 3.0;
      PixelOfDiff(ls, rs, error, options, sqrt, i);
    }
    NoneSimilarIff(ls, rs, options.tolerance, |ls|);
  }

  // ---------------------------------------------------------------------------
  // The kernel

  /** The body of the kernel's pixel loop: the distance, the blend weight,
      the classification and the output pixel for one position. */
  method DiffOnePixel(l: Color, r: Color, error: Color, options: DiffOptions, sqrt: real -> real)
    returns (p: Color, isSimilar: bool)
    ensures isSimilar == IsSimilar(l, r, options.tolerance)
    ensures p == DiffPixel(l, r, error, options, sqrt(SquaredDistance(l, r)))
  {
    var squared := SquaredDistance(l, r);
    var distance := sqrt(squared);
    var t := options.overlayTransparency;
    if options.weightByDiffPercentage != 0 {
      t := t * distance;
    }
    assert t == BlendWeight(options, distance);
    isSimilar := options.tolerance >= 0.0 && squared <= options.tolerance * options.tolerance;
    assert isSimilar == IsSimilar(l, r, options.tolerance);
    if isSimilar {
      p := l;
    } else if options.overlayType == Movement {
      var m := Mix(Times(r, error), error, t);
      p := m.(a := 1.0);
    } else {
      p := Mix(r, error, t);
    }
  }

  /** Greys both input buffers in place when colour is ignored. Two images
      sharing one buffer get it greyed twice, which is the same as once. */
  method PrepareInputs(left: Image, right: Image, options: DiffOptions)
    requires left.Valid() && right.Valid()
    modifies left.data, right.data
    ensures left.data[..] == Prepared(old(left.data[..]), options)
    ensures right.data[..] == Prepared(old(right.data[..]), options)
  {
    ghost var left0 := left.data[..];
    if options.ignoreColor != 0 {
      MakeGreyscale(left);
      MakeGreyscale(right);
      if left.data == right.data {
        GreyscaledIdempotent(left0);
      }
    }
  }

  /** The first `n` positions of `out` hold the diff of `ls` and `rs`. */
  predicate Compared(out: seq<Color>, ls: seq<Color>, rs: seq<Color>, error: Color, options: DiffOptions,
                     sqrt: real -> real, n: nat)
    requires n <= |out| && n <= |ls| && n <= |rs|
  {
    forall i :: 0 <= i < n ==>
      out[i] == DiffPixel(ls[i], rs[i], error, options, sqrt(SquaredDistance(ls[i], rs[i])))
  }

  /** The inner loop of the kernel: the `w` pixels of one row, starting at
      position `start`, written to `out`, with the running count of similar
      pixels carried on. */
  method CompareRow(start: nat, w: nat, left: array<Color>, right: array<Color>, out: array<Color>,
                    error: Color, options: DiffOptions, sqrt: real -> real, count0: nat)
    returns (count: nat)
    requires left.Length == right.Length == out.Length && start + w <= out.Length
    requires out != left && out != right
    requires Compared(out[..], left[..], right[..], error, options, sqrt, start)
    requires count0 == CountSimilar(left[..], right[..], options.tolerance, start)
    modifies out
    ensures Compared(out[..], left[..], right[..], error, options, sqrt, start + w)
    ensures count == CountSimilar(left[..], right[..], options.tolerance, start + w)
  {
    count := count0;
    var d := start;
    for x := 0 to w
      invariant d == start + x
      invariant Compared(out[..], left[..], right[..], error, options, sqrt, d)
      invariant count == CountSimilar(left[..], right[..], options.tolerance, d)
    {
      var p, isSimilar := DiffOnePixel(left[d], right[d], error, options, sqrt);
      out[d] := p;
      if isSimilar {
        count := count + 1;
      }
      d := d + 1;
    }
  }

  /** A buffer compared at every position is the diff image. */
  lemma ComparedAll(out: seq<Color>, ls: seq<Color>, rs: seq<Color>, error: Color, options: DiffOptions,
                    sqrt: real -> real)
    requires |out| == |ls| == |rs|
    requires Compared(out, ls, rs, error, options, sqrt, |out|)
    ensures out == DiffPixels(ls, rs, error, options, sqrt)
  {
  }

  /** `rows` rows of `w` pixels, counted row by row. */
  function Area(w: nat, rows: nat): (n: nat)
  {
    if rows == 0 then 0 else Area(w, rows - 1) + w
  }

  /** Counting rows one by one gives the product. */
  lemma {:induction false} AreaIsProduct(w: nat, rows: nat)
    ensures Area(w, rows) == w * rows
  {
    if rows > 0 {
      AreaIsProduct(w, rows - 1);
    }
  }

  /** Fewer rows cover fewer pixels. */
  lemma {:induction false} AreaMonotone(w: nat, y: nat, rows: nat)
    requires y <= rows
    ensures Area(w, y) <= Area(w, rows)
    decreases rows - y
  {
    if y < rows {
      AreaMonotone(w, y + 1, rows);
    }
  }

  /** The kernel's pixel loop over two buffers of `w * h` pixels, row by
      row: it fills a fresh output buffer and counts the similar pixels. */
  method ComparePixels(w: nat, h: nat, left: array<Color>, right: array<Color>, error: Color,
                       options: DiffOptions, sqrt: real -> real)
    returns (out: array<Color>, similarPixelCount: nat)
    requires left.Length == w * h && right.Length == w * h
    ensures fresh(out)
    ensures out[..] == DiffPixels(left[..], right[..], error, options, sqrt)
    ensures similarPixelCount == SimilarCount(left[..], right[..], options.tolerance)
  {
    AreaIsProduct(w, h);
    out := new Color[w * h];
    similarPixelCount := 0;
    var d := 0;
    for y := 0 to h
      invariant d == Area(w, y) && d <= Area(w, h)
      invariant Compared(out[..], left[..], right[..], error, options, sqrt, d)
      invariant similarPixelCount == CountSimilar(left[..], right[..], options.tolerance, d)
    {
      AreaMonotone(w, y + 1, h);
      similarPixelCount := CompareRow(d, w, left, right, out, error, options, sqrt, similarPixelCount);
      d := d + w;
    }
    ComparedAll(out[..], left[..], right[..], error, options, sqrt);
  }

  /** Compares two images of the same size. When colour is ignored both
      input buffers are first greyed in place. The output is a fresh image of
      the same size, and the similarity is the fraction of similar pixels. */
  method DiffImg(left: Image, right: Image, options: DiffOptions, sqrt: real -> real) returns (result: DiffResult)
    requires left.Valid() && right.Valid() && SameSize(left, right)
    modifies left.data, right.data
    ensures left.data[..] == Prepared(old(left.data[..]), options)
    ensures right.data[..] == Prepared(old(right.data[..]), options)
    ensures fresh(result.img.data) && result.img.Valid()
    ensures result.img.width == left.width && result.img.height == left.height
    ensures result.img.data[..] ==
      DiffPixels(left.data[..], right.data[..], ConvertToFloat(options.errorColor), options, sqrt)
    ensures result.similarity ==
      Similarity(SimilarCount(left.data[..], right.data[..], options.tolerance), left.width * left.height)
    ensures left.width * left.height > 0 ==>
      result.similarity.Number? && 0.0 <= result.similarity.value <= 1.0
  {
    PrepareInputs(left, right, options);
    var error := ConvertToFloat(options.errorColor);
    var out, similarPixelCount := ComparePixels(left.width, left.height, left.data, right.data, error, options, sqrt);
    result := DiffResult(Image(left.width, left.height, out), Similarity(similarPixelCount, left.height * left.width));
    if left.width * left.height > 0 {
      SimilarityInUnit(similarPixelCount, left.width * left.height);
    }
  }

  /** Compares two byte images: both are converted to float images, compared,
      and the diff image is converted back to bytes. The byte inputs are not
      changed; only the float copies are greyed. */
  method DiffImgByte(left: BImage, right: BImage, options: DiffOptions, sqrt: real -> real) returns (result: BDiffResult)
    requires left.Valid() && right.Valid()
    requires DimensionsMatch(left.width, left.height, right.width, right.height)
    ensures fresh(result.img.data) && result.img.Valid()
    ensures result.img.width == left.width && result.img.height == left.height
    ensures result.img.data[..] == ToByteAll(DiffPixels(
      Prepared(ToFloatAll(left.data[..]), options), Prepared(ToFloatAll(right.data[..]), options),
      ConvertToFloat(options.errorColor), options, sqrt))
    ensures result.similarity == Similarity(SimilarCount(
      Prepared(ToFloatAll(left.data[..]), options), Prepared(ToFloatAll(right.data[..]), options),
      options.tolerance), left.width * left.height)
  {
    var leftf := ConvertImageToFloat(left);
    var rightf := ConvertImageToFloat(right);
    var resultf := DiffImg(leftf, rightf, options, sqrt);
    var img := ConvertImageToByte(resultf.img);
    result := BDiffResult(img, resultf.similarity);
  }

  /** Comparing a byte image with an equal one, colours kept and a
      non-negative tolerance, gives back the same bytes: the float round
      trip loses nothing. */
  lemma ByteIdentityDiff(s: seq<BColor>, options: DiffOptions, sqrt: real -> real)
    requires options.tolerance >= 0.0 && options.ignoreColor == 0
    ensures ToByteAll(DiffPixels(Prepared(ToFloatAll(s), options), Prepared(ToFloatAll(s), options),
      ConvertToFloat(options.errorColor), options, sqrt)) == s
  {
    IdentityDiff(ToFloatAll(s), ConvertToFloat(options.errorColor), options, sqrt);
    RoundTripAll(s);
  }

  /** Comparing a non-empty byte image with an equal one under a
      non-negative tolerance gives similarity 1, whether or not colour is
      ignored: both inputs are prepared the same way. */
  lemma ByteIdentitySimilarity(s: seq<BColor>, w: nat, h: nat, options: DiffOptions)
    requires |s| == w * h && w * h > 0 && options.tolerance >= 0.0
    ensures Similarity(SimilarCount(Prepared(ToFloatAll(s), options), Prepared(ToFloatAll(s), options),
      options.tolerance), w * h) == Number(1.0)
  {
    var p := Prepared(ToFloatAll(s), options);
    AllSimilarIff(p, p, options.tolerance, |p|);
    forall i | 0 <= i < |p|
      ensures IsSimilar(p[i], p[i], options.tolerance)
    {
      SimilarToItself(p[i], options.tolerance);
    }
    SimilarityInUnit(w * h, w * h);
  }
}
