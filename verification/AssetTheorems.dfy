/** What the image pipeline keeps, and the laws of its operations. */
module AssetTheorems {
  import opened Wrappers
  import opened Utf8
  import opened Assets

  /** A grey pixel has its own value for luma. */
  lemma {:induction false} LumaOfGrey(y: byte)
    ensures Luma(y, y, y) == y
  {
  }

  lemma {:induction false} GrayAt(p: Bytes, i: nat)
    requires i < |p| && InPixel(|p|, i)
    ensures Grayed(p)[i] == Luma(p[i / 3 * 3], p[i / 3 * 3 + 1], p[i / 3 * 3 + 2])
  {
    hide Luma;
  }

  /** Graying twice is graying once. */
  lemma {:induction false} GrayscaleIdempotent(p: Bytes)
    ensures Grayed(Grayed(p)) == Grayed(p)
  {
    hide Luma, Grayed;
    var q := Grayed(p);
    forall i | 0 <= i < |p| ensures Grayed(q)[i] == q[i] {
      if InPixel(|p|, i) {
        GrayAt(q, i);
        GrayTriple(p, i / 3 * 3);
        GrayAt(p, i);
        LumaOfGrey(q[i]);
      } else {
        GrayTail(q, i / 3 * 3, i);
      }
    }
  }

  /** Inverting twice changes nothing. */
  lemma {:induction false} InvertInvolution(p: Bytes)
    ensures Inverted(Inverted(p)) == p
  {
    var q := Inverted(p);
    forall i | 0 <= i < |p| ensures Inverted(q)[i] == p[i] {
      assert q[i] == 255 - p[i];
    }
  }

  lemma {:induction false} IdentityAt(p: Bytes, w: nat, h: nat, k: nat)
    requires 0 < w && 0 < h && k < |p| == Size(w, h)
    ensures Resized(p, w, h, w, h)[k] == p[k]
  {
    hide *;
    var x, y, c := PixelX(k, w), PixelY(k, w), k % 3;
    Coordinates(k, w, h);
    ByteCopied(p, w, h, w, h, x, y, c);
    SourceWithin(x, y, c, w, h, w, h);
  }

  /** Resizing a picture with pixels to the size it has changes nothing. */
  lemma {:induction false} ResizeIdentity(p: Bytes, w: nat, h: nat)
    requires 0 < w && 0 < h && |p| == Size(w, h)
    ensures Resized(p, w, h, w, h) == p
  {
    hide Resized, Size;
    var q := Resized(p, w, h, w, h);
    forall k | 0 <= k < |p| ensures q[k] == p[k] {
      IdentityAt(p, w, h, k);
    }
  }

  /** The pixel of the source that each pixel of a resized picture is: one, for all three channels. */
  function SourcePixel(srcW: nat, srcH: nat, dstW: nat, dstH: nat, k: nat): nat
    requires 0 < dstW && 0 < dstH
  {
    SourceAt(PixelX(k, dstW), PixelY(k, dstW), 0, srcW, srcH, dstW, dstH)
  }

  lemma {:induction false} ResizedPixel(p: Bytes, srcW: nat, srcH: nat, dstW: nat, dstH: nat, k: nat)
    requires 0 < srcW && 0 < srcH && 0 < dstW && 0 < dstH
    requires |p| == Size(srcW, srcH) && k % 3 == 0 && k < Size(dstW, dstH)
    ensures var from := SourcePixel(srcW, srcH, dstW, dstH, k);
            var q := Resized(p, srcW, srcH, dstW, dstH);
            && from % 3 == 0 && from + 3 <= |p| && k + 3 <= |q|
            && q[k] == p[from] && q[k + 1] == p[from + 1] && q[k + 2] == p[from + 2]
  {
    hide Resized, Sampled, Size, RowStart, PixelX, PixelY;
    Coordinates(k, dstW, dstH);
    RowsOfThree(Sampled(PixelY(k, dstW), srcH, dstH), srcW);
    PixelCopied(p, srcW, srcH, dstW, dstH, PixelX(k, dstW), PixelY(k, dstW));
  }

  lemma {:induction false} RowsOfThree(y: nat, w: nat)
    ensures RowStart(y, w) % 3 == 0
  {
  }

  /** Operations that look at one pixel at a time commute with resizing. */
  lemma {:induction false} InvertCommutesWithResize(p: Bytes, srcW: nat, srcH: nat, dstW: nat, dstH: nat)
    requires 0 < srcW && 0 < srcH && |p| == Size(srcW, srcH)
    ensures Resized(Inverted(p), srcW, srcH, dstW, dstH) == Inverted(Resized(p, srcW, srcH, dstW, dstH))
  {
    hide Resized, SourcePixel, Size;
    var q := Resized(p, srcW, srcH, dstW, dstH);
    var a, b := Resized(Inverted(p), srcW, srcH, dstW, dstH), Inverted(q);
    forall k | 0 <= k < |a| ensures a[k] == b[k] {
      WholePixels(k, dstW, dstH);
      ResizedPixel(p, srcW, srcH, dstW, dstH, k / 3 * 3);
      ResizedPixel(Inverted(p), srcW, srcH, dstW, dstH, k / 3 * 3);
      assert k == k / 3 * 3 + k % 3;
    }
  }

  lemma {:induction false} GrayscaleCommutesWithResize(p: Bytes, srcW: nat, srcH: nat, dstW: nat, dstH: nat)
    requires 0 < srcW && 0 < srcH && |p| == Size(srcW, srcH)
    ensures Resized(Grayed(p), srcW, srcH, dstW, dstH) == Grayed(Resized(p, srcW, srcH, dstW, dstH))
  {
    hide Resized, SourcePixel, Size, Luma, Grayed;
    var q := Resized(p, srcW, srcH, dstW, dstH);
    var a, b := Resized(Grayed(p), srcW, srcH, dstW, dstH), Grayed(q);
    forall k | 0 <= k < |a| ensures a[k] == b[k] {
      WholePixels(k, dstW, dstH);
      ResizedPixel(p, srcW, srcH, dstW, dstH, k / 3 * 3);
      ResizedPixel(Grayed(p), srcW, srcH, dstW, dstH, k / 3 * 3);
      GrayTriple(q, k / 3 * 3);
      GrayTriple(p, SourcePixel(srcW, srcH, dstW, dstH, k / 3 * 3));
      assert k == k / 3 * 3 + k % 3;
    }
  }

  lemma {:induction false} WholePixels(k: nat, w: nat, h: nat)
    requires k < Size(w, h)
    ensures k / 3 * 3 + 3 <= Size(w, h) && 0 < w && 0 < h
  {
    Coordinates(k, w, h);
    assert Size(w, h) % 3 == 0;
  }

  // ---------------------------------------------------------------------------------------------
  // Whole pipelines
  // ---------------------------------------------------------------------------------------------

  predicate ValidSteps(steps: seq<Operation>) {
    forall i | 0 <= i < |steps| :: steps[i].Valid()
  }

  lemma {:induction false} StepsConcat(image: Picture, a: seq<Operation>, b: seq<Operation>)
    requires image.Valid() && ValidSteps(a) && ValidSteps(b)
    ensures RunSteps(image, a + b) ==
              match RunSteps(image, a)
              case Err(e) => Err(e)
              case Ok(mid) => RunSteps(mid, b)
    decreases |a|
  {
    hide RunStep;
    if a == [] {
      assert a + b == b;
    } else {
      assert (a + b)[0] == a[0] && (a + b)[1..] == a[1..] + b;
      StepKeepsLength(image, a[0]);
      if RunStep(image, a[0]).Ok? {
        StepsConcat(RunStep(image, a[0]).value, a[1..], b);
      }
    }
  }

  /** A step that cannot be done: a table that cannot be read, or a size out of range or with no source. */
  predicate CannotBeDone(image: Picture, step: Operation) {
    || (step.Lut? && step.table.None?)
    || (step.Resize? && 0 < step.width && 0 < step.height
        && (image.width == 0 || image.height == 0 || 33_554_432 < Size(step.width, step.height)))
  }

  /**
    A list of steps on a picture whose bytes fit its size either ends in such a picture, or fails: at
    one step, which could not be done on what the steps before it made.
    */
  lemma {:induction false} PipelineFailsAtOneStep(image: Picture, steps: seq<Operation>)
    requires image.Valid() && ValidSteps(steps)
    ensures RunSteps(image, steps).Ok? ==> RunSteps(image, steps).value.Valid()
    ensures RunSteps(image, steps).Err? <==>
              exists n | 0 <= n < |steps| ::
                && RunSteps(image, steps[..n]).Ok?
                && CannotBeDone(RunSteps(image, steps[..n]).value, steps[n])
    decreases |steps|
  {
    if steps != [] {
      var front, last := steps[..|steps| - 1], steps[|steps| - 1];
      assert steps == front + [last];
      StepsConcat(image, front, [last]);
      PipelineFailsAtOneStep(image, front);
      forall n | 0 <= n < |front| ensures steps[..n] == front[..n] {
      }
      if RunSteps(image, front).Ok? {
        OneStep(RunSteps(image, front).value, last);
      } else {
        var n :| 0 <= n < |front| && RunSteps(image, front[..n]).Ok?
                 && CannotBeDone(RunSteps(image, front[..n]).value, front[n]);
        assert steps[..n] == front[..n] && steps[n] == front[n];
      }
      hide CannotBeDone;
    }
  }

  lemma {:induction false} OneStep(image: Picture, step: Operation)
    requires image.Valid() && step.Valid()
    ensures RunSteps(image, [step]) == RunStep(image, step)
    ensures RunStep(image, step).Err? <==> CannotBeDone(image, step)
  {
    assert [step][1..] == [];
    StepKeepsLength(image, step);
    if RunStep(image, step).Ok? {
      assert RunSteps(RunStep(image, step).value, [step][1..]) == Ok(RunStep(image, step).value);
    }
  }

  // ---------------------------------------------------------------------------------------------
  // What one step does to the bytes
  // ---------------------------------------------------------------------------------------------

  /** A picture whose bytes fit its size, of which a step is asked; and what comes of it. */
  predicate OneStepMakes(image: Picture, step: Operation, made: Picture) {
    image.Valid() && step.Valid() && Apply(image, [step]) == Ok(made)
  }

  lemma {:induction false} ApplyOne(image: Picture, step: Operation)
    requires image.Valid() && step.Valid()
    ensures Apply(image, [step]) == RunStep(image, step)
  {
    OneStep(image, step);
  }

  /** The nearest whole number to the weighted sum, on a tie the upper one. */
  predicate IsLuma(y: int, r: int, g: int, b: int) {
    var sum := 299 * r + 587 * g + 114 * b;
    -500 < 1000 * y - sum <= 500
  }

  lemma {:induction false} LumaIsNearest(r: byte, g: byte, b: byte)
    ensures IsLuma(Luma(r, g, b), r, g, b)
  {
  }

  /** Graying gives all three channels of each pixel its luma. */
  lemma {:induction false} GrayscaleStep(image: Picture, made: Picture, at: nat)
    requires OneStepMakes(image, Grayscale, made) && at % 3 == 0 && at < |image.pixels|
    ensures at + 2 < |image.pixels|
    ensures made.width == image.width && made.height == image.height && |made.pixels| == |image.pixels|
    ensures made.pixels[at] == made.pixels[at + 1] == made.pixels[at + 2]
    ensures IsLuma(made.pixels[at], image.pixels[at], image.pixels[at + 1], image.pixels[at + 2])
  {
    hide Grayed, Luma, IsLuma, Size, RunStep;
    ApplyOne(image, Grayscale);
    InPixels(image, at);
    GrayTriple(image.pixels, at);
    LumaIsNearest(image.pixels[at], image.pixels[at + 1], image.pixels[at + 2]);
    GrayscaleRuns(image);
  }

  lemma {:induction false} GrayscaleRuns(image: Picture)
    requires image.Valid()
    ensures RunStep(image, Grayscale) == Ok(image.(pixels := Grayed(image.pixels)))
  {
  }

  lemma {:induction false} InPixels(image: Picture, at: nat)
    requires image.Valid() && at < |image.pixels|
    ensures at / 3 * 3 + 2 < |image.pixels|
  {
    assert |image.pixels| % 3 == 0;
  }

  /** Inverting takes every byte to what it lacks of 255. */
  lemma {:induction false} InvertStep(image: Picture, made: Picture, at: nat)
    requires OneStepMakes(image, Invert, made) && at < |image.pixels|
    ensures made.width == image.width && made.height == image.height && |made.pixels| == |image.pixels|
    ensures made.pixels[at] == 255 - image.pixels[at]
  {
    ApplyOne(image, Invert);
    hide Size;
  }

  /** The nearest whole number to the product, on a tie the upper one, but never above 255. */
  predicate IsProduct(y: int, sample: real, factor: real) {
    if sample * factor < 254.5 then y as real - 0.5 <= sample * factor < y as real + 0.5 else y == 255
  }

  lemma {:induction false} ScaledIsNearest(sample: byte, factor: real)
    requires 0.0 <= factor
    ensures IsProduct(Scaled(sample, factor), sample as real, factor)
  {
  }

  /** A gain scales one channel, by the factor brought between 0 and 4, and leaves the others. */
  lemma {:induction false} GainStep(image: Picture, offset: nat, value: real, made: Picture, at: nat)
    requires offset < CHANNELS && OneStepMakes(image, Gain(offset, Finite(value)), made) && at < |image.pixels|
    ensures made.width == image.width && made.height == image.height && |made.pixels| == |image.pixels|
    ensures at % 3 != offset ==> made.pixels[at] == image.pixels[at]
    ensures at % 3 == offset && 0.0 <= value <= 4.0 ==> IsProduct(made.pixels[at], image.pixels[at] as real, value)
    ensures at % 3 == offset && value < 0.0 ==> made.pixels[at] == 0
    ensures at % 3 == offset && 4.0 < value ==> IsProduct(made.pixels[at], image.pixels[at] as real, 4.0)
  {
    ApplyOne(image, Gain(offset, Finite(value)));
    InPixels(image, at);
    ScaledIsNearest(image.pixels[at], Clamped(Finite(value)));
    hide Size, Scaled, IsProduct;
    assert value < 0.0 ==> Clamped(Finite(value)) == 0.0;
    ScaledByNothing(image.pixels[at]);
  }

  lemma {:induction false} ScaledByNothing(sample: byte)
    ensures Scaled(sample, 0.0) == 0
  {
  }

  /** No number, and anything below zero, is a factor of 0; infinity is one of 4. */
  lemma {:induction false} GainExtremes(image: Picture, offset: nat)
    requires image.Valid() && offset < CHANNELS
    ensures Apply(image, [Gain(offset, NotANumber)]) == Apply(image, [Gain(offset, Finite(0.0))])
    ensures Apply(image, [Gain(offset, MinusInfinity)]) == Apply(image, [Gain(offset, Finite(0.0))])
    ensures Apply(image, [Gain(offset, PlusInfinity)]) == Apply(image, [Gain(offset, Finite(4.0))])
  {
    ApplyOne(image, Gain(offset, NotANumber));
    ApplyOne(image, Gain(offset, MinusInfinity));
    ApplyOne(image, Gain(offset, PlusInfinity));
    ApplyOne(image, Gain(offset, Finite(0.0)));
    ApplyOne(image, Gain(offset, Finite(4.0)));
    hide Scaled, Size;
    assert Gained(image.pixels, offset, NotANumber) == Gained(image.pixels, offset, Finite(0.0));
    assert Gained(image.pixels, offset, MinusInfinity) == Gained(image.pixels, offset, Finite(0.0));
    assert Gained(image.pixels, offset, PlusInfinity) == Gained(image.pixels, offset, Finite(4.0));
  }

  /** A table is looked up channel by channel, each in its own column. */
  lemma {:induction false} LutStep(image: Picture, table: seq<Entry>, made: Picture, at: nat)
    requires OneStepMakes(image, Lut(Some(table)), made) && at % 3 == 0 && at < |image.pixels|
    ensures at + 2 < |image.pixels|
    ensures made.width == image.width && made.height == image.height && |made.pixels| == |image.pixels|
    ensures made.pixels[at] == table[image.pixels[at]].red
    ensures made.pixels[at + 1] == table[image.pixels[at + 1]].green
    ensures made.pixels[at + 2] == table[image.pixels[at + 2]].blue
  {
    ApplyOne(image, Lut(Some(table)));
    InPixels(image, at);
    hide Size;
  }

  /** `s` is the source coordinate of `d`: the whole part of its share of the source. */
  predicate Samples(s: nat, d: nat, src: nat, dst: nat) {
    s * dst <= d * src < s * dst + dst
  }

  lemma {:induction false} SamplesOne(s: nat, d: nat, src: nat, dst: nat)
    requires 0 < dst && Samples(s, d, src, dst)
    ensures s == Sampled(d, src, dst)
  {
    var q := d * src / dst;
    assert q * dst <= d * src < q * dst + dst;
    Quotients(q, s, dst);
    Quotients(s, q, dst);
  }

  /** A byte of a picture by its coordinates and channel, where there is one. */
  function PixelByte(image: Picture, x: nat, y: nat, c: nat): Option<byte> {
    var k := (y * image.width + x) * 3 + c;
    if x < image.width && y < image.height && c < 3 && k < |image.pixels| then Some(image.pixels[k]) else None
  }

  /** Resizing copies, into each pixel and channel, the source pixel its coordinates sample. */
  lemma {:induction false} ResizeStep(
    image: Picture, made: Picture, width: nat, height: nat, x: nat, y: nat, sx: nat, sy: nat, c: nat)
    requires OneStepMakes(image, Resize(width, height), made) && x < width && y < height && c < 3
    requires Samples(sx, x, image.width, width) && Samples(sy, y, image.height, height)
    ensures made.width == width && made.height == height && |made.pixels| == width * height * 3
    ensures PixelByte(made, x, y, c).Some? && PixelByte(made, x, y, c) == PixelByte(image, sx, sy, c)
  {
    hide Sampled, Samples, Resized, OneStepMakes, RowStart, Size;
    ResizeRuns(image, made, width, height);
    SamplesOne(sx, x, image.width, width);
    SamplesOne(sy, y, image.height, height);
    SampledWithin(x, image.width, width);
    SampledWithin(y, image.height, height);
    ByteCopied(image.pixels, image.width, image.height, width, height, x, y, c);
    InRow(x, y, width, height);
    InRow(sx, sy, image.width, image.height);
  }

  /** Towards no area it leaves a picture without pixels, whatever there was. */
  lemma {:induction false} EmptyResize(image: Picture, width: nat, height: nat)
    requires image.Valid() && Resize(width, height).Valid() && (width == 0 || height == 0)
    ensures Apply(image, [Resize(width, height)]) == Ok(Picture(width, height, []))
  {
    ApplyOne(image, Resize(width, height));
  }

  lemma {:induction false} InRow(x: nat, y: nat, w: nat, h: nat)
    ensures RowStart(y, w) + x * 3 == (y * w + x) * 3 && Size(w, h) == w * h * 3
  {
  }

  lemma {:induction false} ResizeRuns(image: Picture, made: Picture, width: nat, height: nat)
    requires OneStepMakes(image, Resize(width, height), made) && 0 < width && 0 < height
    ensures 0 < image.width && 0 < image.height && |image.pixels| == Size(image.width, image.height)
    ensures made == Picture(width, height, Resized(image.pixels, image.width, image.height, width, height))
  {
    ApplyOne(image, Resize(width, height));
    hide Resized;
  }

  /** The ceiling is set against a 64-bit count, which decides as the exact one does if it fits or still exceeds. */
  lemma {:induction false} CeilingTestExact(w: nat, h: nat)
    requires w <= U32_MAX && h <= U32_MAX
    ensures (Size(w, h) % TWO_64 > MAX_IMAGE_BYTES <==> Size(w, h) > MAX_IMAGE_BYTES)
       <==> Size(w, h) < TWO_64 || Size(w, h) % TWO_64 > MAX_IMAGE_BYTES
    ensures Size(2147506637, 2863280879) >= TWO_64 && Size(2147506637, 2863280879) % TWO_64 <= MAX_IMAGE_BYTES
  {
    assert 2147506637 * 2863280879 * 3 == TWO_64 + 33530153;
    hide Size;
  }

  /**
    So is a picture's own byte count: the test decides as the exact one does if that count fits, or if
    the buffer is of any other length than the wrapped one.
    */
  lemma {:induction false} ValidateTestExact(image: Picture)
    requires |image.pixels| < TWO_64
    ensures (image.Passes() <==> image.Valid()) <==> image.Measurable()
  {
    hide Size;
  }

  /** 2147506637 by 2863280879 passes with 33530153 bytes, 2 to the 64 short of what it needs. */
  lemma {:induction false} WrappedSizePasses(image: Picture)
    requires image.width == 2147506637 && image.height == 2863280879 && |image.pixels| == 33530153
    ensures image.Passes() && !image.Valid()
  {
    assert 2147506637 * 2863280879 * 3 == TWO_64 + 33530153;
  }

  // ---------------------------------------------------------------------------------------------
  // Reads of a resize
  // ---------------------------------------------------------------------------------------------

  /** Every byte a resize samples is below `length`. */
  ghost predicate ReadsBelow(srcW: nat, srcH: nat, dstW: nat, dstH: nat, length: nat)
    requires 0 < dstW && 0 < dstH
  {
    forall x: nat, y: nat, c: nat | x < dstW && y < dstH && c < 3 ::
      SourceAt(x, y, c, srcW, srcH, dstW, dstH) < length
  }

  lemma {:induction false} SampledGrows(d: nat, e: nat, src: nat, dst: nat)
    requires d <= e && 0 < dst
    ensures Sampled(d, src, dst) <= Sampled(e, src, dst)
  {
    MulAtMost(d, e, src);
    var p, q := d * src / dst, e * src / dst;
    assert p * dst <= d * src && e * src < q * dst + dst;
    Quotients(p, q, dst);
  }

  /** The last pixel samples furthest, so its last byte decides for all. */
  lemma {:induction false} ReadsBelowExactly(srcW: nat, srcH: nat, dstW: nat, dstH: nat, length: nat)
    requires 0 < dstW && 0 < dstH
    ensures ReadsBelow(srcW, srcH, dstW, dstH, length)
       <==> SourceAt(dstW - 1, dstH - 1, 2, srcW, srcH, dstW, dstH) < length
  {
    hide Sampled;
    var lastX, lastY := Sampled(dstW - 1, srcW, dstW), Sampled(dstH - 1, srcH, dstH);
    forall x: nat, y: nat, c: nat | x < dstW && y < dstH && c < 3
      ensures SourceAt(x, y, c, srcW, srcH, dstW, dstH) <= SourceAt(dstW - 1, dstH - 1, 2, srcW, srcH, dstW, dstH)
    {
      SampledGrows(x, dstW - 1, srcW, dstW);
      SampledGrows(y, dstH - 1, srcH, dstH);
      MulAtMost(Sampled(y, srcH, dstH), lastY, srcW);
    }
  }

  /** In a picture whose bytes fit its size they all are; the buffer could be no shorter for every target. */
  lemma {:induction false} ValidReadsBelow(image: Picture, dstW: nat, dstH: nat)
    requires image.Valid() && 0 < image.width && 0 < image.height && 0 < dstW && 0 < dstH
    ensures ReadsBelow(image.width, image.height, dstW, dstH, |image.pixels|)
    ensures !ReadsBelow(image.width, image.height, image.width, image.height, |image.pixels| - 1)
  {
    hide SourceAt;
    var w, h := image.width, image.height;
    SourceWithin(dstW - 1, dstH - 1, 2, w, h, dstW, dstH);
    ReadsBelowExactly(w, h, dstW, dstH, |image.pixels|);
    SourceWithin(w - 1, h - 1, 2, w, h, w, h);
    ReadsBelowExactly(w, h, w, h, |image.pixels| - 1);
    assert RowStart(h - 1, w) + w * 3 == Size(w, h) by {
      LastRowStart(w, h);
    }
  }

  lemma {:induction false} LastRowStart(w: nat, h: nat)
    requires 0 < h
    ensures RowStart(h - 1, w) + w * 3 == Size(w, h)
  {
    assert (h - 1) * w + w == h * w == w * h;
  }

  lemma {:induction false} HalfWay(src: nat, dst: nat)
    requires 2 <= dst
    ensures src / 2 <= Sampled(dst - 1, src, dst)
  {
    var q, half := (dst - 1) * src / dst, src / 2;
    assert half * 2 <= src;
    assert half * dst <= (dst - 1) * src by {
      MulAtMost(half * 2, src, dst - 1);
      assert half * 2 * (dst - 1) == half * (2 * (dst - 1));
      MulAtMost(dst, 2 * (dst - 1), half);
    }
    assert (dst - 1) * src < q * dst + dst;
    Quotients(half, q, dst);
  }

  /** Of the picture that passes by wrapping, only a single pixel can be sampled from within its buffer. */
  lemma {:induction false} WrappedSizeReads(image: Picture, dstW: nat, dstH: nat)
    requires image.width == 2147506637 && image.height == 2863280879 && |image.pixels| == 33530153
    requires 0 < dstW && 0 < dstH
    ensures ReadsBelow(image.width, image.height, dstW, dstH, |image.pixels|) <==> dstW == 1 && dstH == 1
  {
    ReadsBelowExactly(image.width, image.height, dstW, dstH, |image.pixels|);
    hide Sampled;
    var lastX, lastY := Sampled(dstW - 1, image.width, dstW), Sampled(dstH - 1, image.height, dstH);
    if dstH >= 2 {
      HalfWay(image.height, dstH);
      MulAtMost(1, lastY, image.width);
    } else if dstW >= 2 {
      HalfWay(image.width, dstW);
    } else {
      FirstSample(image.width);
      FirstSample(image.height);
    }
  }

  lemma {:induction false} FirstSample(src: nat)
    ensures Sampled(0, src, 1) == 0
  {
  }
}
