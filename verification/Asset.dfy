/**
  The image pipeline of the C++ asset plugin: RGB8 buffers rewritten in place, step by step.

  Each operation is a loop over an array, proved against a function on its contents.
  */
module Assets {
  import opened Wrappers
  import opened Utf8

  type Bytes = seq<byte>

  const CHANNELS := 3
  const MAX_IMAGE_BYTES := 32 * 1024 * 1024
  const TWO_64 := 0x1_0000_0000_0000_0000
  const U32_MAX := 0xFFFF_FFFF

  datatype Entry = Entry(red: byte, green: byte, blue: byte)

  datatype Failure = Malformed | Unreadable

  /** A factor as it arrives, not yet brought into range. */
  datatype Factor = NotANumber | MinusInfinity | PlusInfinity | Finite(value: real)

  /** A lookup table is what a file was read into, `None` when it could not be. */
  datatype Operation =
    | Grayscale
    | Invert
    | Gain(offset: nat, factor: Factor)
    | Resize(width: nat, height: nat)
    | Lut(table: Option<seq<Entry>>)
  {
    /** What the interface's types allow: a channel, 32-bit sizes, and tables of 256 entries. */
    predicate Valid() {
      && (Gain? ==> offset < CHANNELS)
      && (Resize? ==> width <= U32_MAX && height <= U32_MAX)
      && (Lut? && table.Some? ==> |table.value| == 256)
    }

    /** The byte count of a resize fits the 64 bits it is computed in, or is over the ceiling even so. */
    predicate CeilingHolds() {
      Resize? ==> Size(width, height) < TWO_64 || Size(width, height) % TWO_64 > MAX_IMAGE_BYTES
    }
  }

  function Size(width: nat, height: nat): nat {
    width * height * CHANNELS
  }

  // ---------------------------------------------------------------------------------------------
  // On contents
  // ---------------------------------------------------------------------------------------------

  function Luma(r: byte, g: byte, b: byte): (y: byte) {
    (299 * r as int + 587 * g as int + 114 * b as int + 500) / 1000
  }

  /** Whether a byte belongs to a whole pixel. */
  predicate InPixel(length: nat, i: nat) {
    i / 3 * 3 + 3 <= length
  }

  function Grayed(p: Bytes): (q: Bytes)
    ensures |q| == |p|
  {
    seq(|p|, i requires 0 <= i < |p| =>
      if InPixel(|p|, i) then Luma(p[i / 3 * 3], p[i / 3 * 3 + 1], p[i / 3 * 3 + 2]) else p[i])
  }

  function Inverted(p: Bytes): (q: Bytes)
    ensures |q| == |p|
  {
    seq(|p|, i requires 0 <= i < |p| => 255 - p[i])
  }

  /** Between 0 and 4; no number counts as 0. */
  function Clamped(factor: Factor): (f: real)
    ensures 0.0 <= f <= 4.0
  {
    match factor
    case NotANumber => 0.0
    case MinusInfinity => 0.0
    case PlusInfinity => 4.0
    case Finite(value) => if value < 0.0 then 0.0 else if value > 4.0 then 4.0 else value
  }

  /**
    Rounded half up, and capped. A float's product with a byte is exact in a double, and adding a half to
    it does not round across a whole number.
    */
  function Scaled(sample: byte, factor: real): byte
    requires 0.0 <= factor
  {
    var scaled := (sample as real * factor + 0.5).Floor;
    if scaled > 255 then 255 else scaled
  }

  function Gained(p: Bytes, offset: nat, factor: Factor): (q: Bytes)
    ensures |q| == |p|
  {
    seq(|p|, i requires 0 <= i < |p| =>
      if i % 3 == offset && InPixel(|p|, i) then Scaled(p[i], Clamped(factor)) else p[i])
  }

  function Column(e: Entry, channel: nat): byte {
    if channel == 0 then e.red else if channel == 1 then e.green else e.blue
  }

  function LookedUp(p: Bytes, table: seq<Entry>): (q: Bytes)
    requires |table| == 256
    ensures |q| == |p|
  {
    seq(|p|, i requires 0 <= i < |p| => if InPixel(|p|, i) then Column(table[p[i]], i % 3) else p[i])
  }

  /** The source coordinate a destination coordinate samples. */
  function Sampled(d: nat, src: nat, dst: nat): nat
    requires 0 < dst
  {
    d * src / dst
  }

  /** The offset of a row, and of a pixel in it. */
  function RowStart(y: nat, w: nat): nat {
    y * w * 3
  }

  /** The source byte that the destination byte (x, y, c) copies. */
  function SourceAt(x: nat, y: nat, c: nat, srcW: nat, srcH: nat, dstW: nat, dstH: nat): nat
    requires 0 < dstW && 0 < dstH
  {
    RowStart(Sampled(y, srcH, dstH), srcW) + Sampled(x, srcW, dstW) * 3 + c
  }

  lemma {:induction false} SampledWithin(d: nat, src: nat, dst: nat)
    requires d < dst && 0 < src
    ensures Sampled(d, src, dst) < src
    ensures src == dst ==> Sampled(d, src, dst) == d
  {
    var q := d * src / dst;
    assert q * dst <= d * src;
    assert d * src < dst * src by {
      MulLess(d, dst, src);
    }
    if src <= q {
      MulAtMost(src, q, dst);
      assert false;
    }
    if src == dst {
      DivideBack(d, dst);
    }
  }

  lemma {:induction false} MulLess(a: nat, b: nat, c: nat)
    requires a < b && 0 < c
    ensures a * c < b * c
  {
  }

  lemma {:induction false} MulAtMost(a: nat, b: nat, c: nat)
    requires a <= b
    ensures a * c <= b * c
  {
  }

  lemma {:induction false} DivideBack(d: nat, n: nat)
    requires 0 < n
    ensures d * n / n == d
  {
    var q := d * n / n;
    assert q * n <= d * n < q * n + n;
    Quotients(q, d, n);
    Quotients(d, q, n);
  }

  /** A row-major offset stays in the image, and gives back its row and column. */
  lemma {:induction false} RowMajor(x: nat, y: nat, w: nat, h: nat)
    requires x < w && y < h
    ensures y * w + x < w * h
    ensures (y * w + x) / w == y && (y * w + x) % w == x
  {
    MulAtMost(y + 1, h, w);
    assert (y + 1) * w == y * w + w;
    DivideRow(x, y, w);
  }

  lemma {:induction false} DivideRow(x: nat, y: nat, w: nat)
    requires x < w
    ensures (y * w + x) / w == y && (y * w + x) % w == x
    decreases y
  {
    if y > 0 {
      DivideRow(x, y - 1, w);
      assert y * w + x == (y - 1) * w + x + w;
      OneMore((y - 1) * w + x, w);
    }
  }

  lemma {:induction false} OneMore(n: nat, w: nat)
    requires 0 < w
    ensures (n + w) / w == n / w + 1 && (n + w) % w == n % w
  {
    var q, p := n / w, (n + w) / w;
    assert q * w <= n < q * w + w && p * w <= n + w < p * w + w;
    Quotients(p, q + 1, w);
    Quotients(q + 1, p, w);
  }

  lemma {:induction false} Quotients(p: int, q: int, w: nat)
    requires 0 < w && p * w < q * w + w
    ensures p <= q
  {
    Ordered(q + 1, p, w);
  }

  lemma {:induction false} Ordered(p: int, q: int, w: nat)
    ensures p <= q ==> p * w <= q * w
  {
  }

  lemma {:induction false} SourceWithin(x: nat, y: nat, c: nat, srcW: nat, srcH: nat, dstW: nat, dstH: nat)
    requires x < dstW && y < dstH && 0 < srcW && 0 < srcH && c < 3
    ensures SourceAt(x, y, c, srcW, srcH, dstW, dstH) < Size(srcW, srcH)
    ensures srcW == dstW && srcH == dstH ==> SourceAt(x, y, c, srcW, srcH, dstW, dstH) == RowStart(y, dstW) + x * 3 + c
  {
    hide Sampled;
    SampledWithin(y, srcH, dstH);
    SampledWithin(x, srcW, dstW);
    var sy, sx := Sampled(y, srcH, dstH), Sampled(x, srcW, dstW);
    RowMajor(sx, sy, srcW, srcH);
    assert RowStart(sy, srcW) + sx * 3 == (sy * srcW + sx) * 3;
  }

  /** The column and row of the pixel a byte offset is in. */
  function PixelX(k: nat, w: nat): nat
    requires 0 < w
  {
    k / 3 % w
  }

  function PixelY(k: nat, w: nat): nat
    requires 0 < w
  {
    k / 3 / w
  }

  lemma {:induction false} Coordinates(k: nat, w: nat, h: nat)
    requires k < Size(w, h)
    ensures 0 < w && 0 < h && PixelX(k, w) < w && PixelY(k, w) < h
    ensures k == RowStart(PixelY(k, w), w) + PixelX(k, w) * 3 + k % 3
  {
    assert w != 0 && h != 0;
    var n, q := k / 3, k / 3 / w;
    assert n < w * h;
    assert n == q * w + n % w;
    Quotients(q, h - 1, w);
    assert (h - 1) * w == h * w - w;
  }

  /** The destination byte at an offset: the byte its pixel samples, in the same channel. */
  function ResizedByte(p: Bytes, srcW: nat, srcH: nat, dstW: nat, dstH: nat, k: nat): byte
    requires 0 < srcW && 0 < srcH && |p| == Size(srcW, srcH) && k < Size(dstW, dstH)
  {
    hide *;
    Coordinates(k, dstW, dstH);
    SourceWithin(PixelX(k, dstW), PixelY(k, dstW), k % 3, srcW, srcH, dstW, dstH);
    p[SourceAt(PixelX(k, dstW), PixelY(k, dstW), k % 3, srcW, srcH, dstW, dstH)]
  }

  /** Nearest neighbour: every destination byte, in row-major order, from its source byte. */
  function Resized(p: Bytes, srcW: nat, srcH: nat, dstW: nat, dstH: nat): (q: Bytes)
    requires 0 < srcW && 0 < srcH && |p| == Size(srcW, srcH)
    ensures |q| == Size(dstW, dstH)
  {
    var total := Size(dstW, dstH);
    seq(total, k requires 0 <= k < total => ResizedByte(p, srcW, srcH, dstW, dstH, k))
  }

  datatype Picture = Picture(width: nat, height: nat, pixels: Bytes) {
    predicate Valid() {
      |pixels| == Size(width, height)
    }

    /** The test in 64 bits. */
    predicate Passes() {
      |pixels| == Size(width, height) % TWO_64
    }

    /** The buffer is one memory can hold, and its length not what a wrapped byte count happens to be. */
    predicate Measurable() {
      |pixels| < TWO_64 && (Size(width, height) < TWO_64 || |pixels| != Size(width, height) % TWO_64)
    }
  }

  function RunStep(image: Picture, step: Operation): Result<Picture, Failure>
    requires image.Valid() && step.Valid()
  {
    match step
    case Grayscale => Ok(image.(pixels := Grayed(image.pixels)))
    case Invert => Ok(image.(pixels := Inverted(image.pixels)))
    case Gain(offset, factor) => Ok(image.(pixels := Gained(image.pixels, offset, factor)))
    case Resize(width, height) =>
      if width == 0 || height == 0 then Ok(Picture(width, height, []))
      else if image.width == 0 || image.height == 0 then Err(Malformed)
      else if Size(width, height) > MAX_IMAGE_BYTES then Err(Malformed)
      else Ok(Picture(width, height, Resized(image.pixels, image.width, image.height, width, height)))
    case Lut(table) =>
      match table
      case None => Err(Unreadable)
      case Some(entries) => Ok(image.(pixels := LookedUp(image.pixels, entries)))
  }

  lemma {:induction false} StepKeepsLength(image: Picture, step: Operation)
    requires image.Valid() && step.Valid()
    ensures RunStep(image, step).Ok? ==> RunStep(image, step).value.Valid()
  {
  }

  /** Steps in order, stopping at the first that cannot be done. */
  function RunSteps(image: Picture, steps: seq<Operation>): (r: Result<Picture, Failure>)
    requires image.Valid() && forall i | 0 <= i < |steps| :: steps[i].Valid()
    ensures r.Ok? ==> r.value.Valid()
    decreases |steps|
  {
    if steps == [] then Ok(image)
    else
      StepKeepsLength(image, steps[0]);
      var next :- RunStep(image, steps[0]);
      RunSteps(next, steps[1..])
  }

  function Apply(image: Picture, steps: seq<Operation>): Result<Picture, Failure>
    requires forall i | 0 <= i < |steps| :: steps[i].Valid()
  {
    if image.Valid() then RunSteps(image, steps) else Err(Malformed)
  }

  // ---------------------------------------------------------------------------------------------
  // In place
  // ---------------------------------------------------------------------------------------------

  lemma {:induction false} GrayTriple(p: Bytes, at: nat)
    requires at % 3 == 0 && at + 3 <= |p|
    ensures var luma := Luma(p[at], p[at + 1], p[at + 2]);
            Grayed(p)[at] == luma && Grayed(p)[at + 1] == luma && Grayed(p)[at + 2] == luma
  {
    hide Luma;
  }

  /** Bytes past the last whole pixel stay. */
  lemma {:induction false} GrayTail(p: Bytes, at: nat, i: nat)
    requires at <= i < |p| < at + 3 && at % 3 == 0
    ensures Grayed(p)[i] == p[i]
  {
  }

  method GrayscaleInPlace(pixels: array<byte>)
    modifies pixels
    ensures pixels[..] == Grayed(old(pixels[..]))
  {
    hide Luma, Grayed, InPixel;
    ghost var was := pixels[..];
    var at := 0;
    while at + 3 <= pixels.Length
      invariant at % 3 == 0 && at <= pixels.Length
      invariant forall i | 0 <= i < at :: pixels[i] == Grayed(was)[i]
      invariant forall i | at <= i < pixels.Length :: pixels[i] == was[i]
    {
      GrayTriple(was, at);
      var luma := Luma(pixels[at], pixels[at + 1], pixels[at + 2]);
      pixels[at], pixels[at + 1], pixels[at + 2] := luma, luma, luma;
      at := at + 3;
    }
    forall i | at <= i < pixels.Length ensures pixels[i] == Grayed(was)[i] {
      GrayTail(was, at, i);
    }
  }

  method InvertInPlace(pixels: array<byte>)
    modifies pixels
    ensures pixels[..] == Inverted(old(pixels[..]))
  {
    for at := 0 to pixels.Length
      invariant forall i | 0 <= i < at :: pixels[i] == 255 - old(pixels[i])
      invariant forall i | at <= i < pixels.Length :: pixels[i] == old(pixels[i])
    {
      pixels[at] := 255 - pixels[at];
    }
  }

  method GainInPlace(pixels: array<byte>, offset: nat, factor: Factor)
    requires offset < CHANNELS
    modifies pixels
    ensures pixels[..] == Gained(old(pixels[..]), offset, factor)
  {
    hide Scaled, Clamped;
    var clamped := Clamped(factor);
    var at := 0;
    while at + 3 <= pixels.Length
      invariant at % 3 == 0 && at <= pixels.Length
      invariant forall i | 0 <= i < at :: pixels[i] == Gained(old(pixels[..]), offset, factor)[i]
      invariant forall i | at <= i < pixels.Length :: pixels[i] == old(pixels[i])
    {
      pixels[at + offset] := Scaled(pixels[at + offset], clamped);
      at := at + 3;
    }
  }

  method LutInPlace(pixels: array<byte>, table: seq<Entry>)
    requires |table| == 256
    modifies pixels
    ensures pixels[..] == LookedUp(old(pixels[..]), table)
  {
    var at := 0;
    while at + 3 <= pixels.Length
      invariant at % 3 == 0 && at <= pixels.Length
      invariant forall i | 0 <= i < at :: pixels[i] == LookedUp(old(pixels[..]), table)[i]
      invariant forall i | at <= i < pixels.Length :: pixels[i] == old(pixels[i])
    {
      pixels[at] := table[pixels[at]].red;
      pixels[at + 1] := table[pixels[at + 1]].green;
      pixels[at + 2] := table[pixels[at + 2]].blue;
      at := at + 3;
    }
  }

  /** One row of the destination. */
  method ResizeRow(
    src: array<byte>, srcW: nat, srcH: nat, out: array<byte>, dstW: nat, dstH: nat, dy: nat)
    returns (at: nat)
    requires 0 < srcW && 0 < srcH && 0 < dstW && dy < dstH && src != out
    requires src.Length == Size(srcW, srcH) && out.Length == Size(dstW, dstH)
    requires RowStart(dy, dstW) <= out.Length
    requires out[..RowStart(dy, dstW)] == Resized(src[..], srcW, srcH, dstW, dstH)[..RowStart(dy, dstW)]
    modifies out
    ensures at == RowStart(dy + 1, dstW) <= out.Length
    ensures out[..at] == Resized(src[..], srcW, srcH, dstW, dstH)[..at]
  {
    hide Resized, Sampled, Size, RowStart;
    ghost var want := Resized(src[..], srcW, srcH, dstW, dstH);
    var start := RowStart(dy, dstW);
    at := start;
    var row := RowStart(Sampled(dy, srcH, dstH), srcW);
    RowFits(dy, dstW, dstH);
    for dx := 0 to dstW
      invariant at == start + dx * 3 && start + dstW * 3 <= out.Length == |want|
      invariant out[..at] == want[..at]
    {
      PixelCopied(src[..], srcW, srcH, dstW, dstH, dx, dy);
      var from := row + Sampled(dx, srcW, dstW) * 3;
      out[at], out[at + 1], out[at + 2] := src[from], src[from + 1], src[from + 2];
      ThreeMore(out[..], want, at);
      at := at + 3;
    }
  }

  lemma {:induction false} ThreeMore(a: Bytes, b: Bytes, at: nat)
    requires at + 3 <= |a| == |b| && a[..at] == b[..at]
    requires a[at] == b[at] && a[at + 1] == b[at + 1] && a[at + 2] == b[at + 2]
    ensures a[..at + 3] == b[..at + 3]
  {
    assert a[..at + 3] == a[..at] + [a[at], a[at + 1], a[at + 2]];
    assert b[..at + 3] == b[..at] + [b[at], b[at + 1], b[at + 2]];
  }

  lemma {:induction false} RowFits(y: nat, w: nat, h: nat)
    requires y < h
    ensures RowStart(y, w) + w * 3 == RowStart(y + 1, w) <= Size(w, h)
  {
    MulAtMost(y + 1, h, w);
    assert (y + 1) * w == y * w + w;
  }

  /** The three bytes of a destination pixel are the three bytes of the source pixel it samples. */
  lemma {:induction false} PixelCopied(p: Bytes, srcW: nat, srcH: nat, dstW: nat, dstH: nat, x: nat, y: nat)
    requires 0 < srcW && 0 < srcH && |p| == Size(srcW, srcH) && x < dstW && y < dstH
    ensures var from := RowStart(Sampled(y, srcH, dstH), srcW) + Sampled(x, srcW, dstW) * 3;
            var at := RowStart(y, dstW) + x * 3;
            var q := Resized(p, srcW, srcH, dstW, dstH);
            && from + 3 <= |p| && at + 3 <= |q|
            && q[at] == p[from] && q[at + 1] == p[from + 1] && q[at + 2] == p[from + 2]
  {
    hide Size, Resized, RowStart, Sampled;
    ByteCopied(p, srcW, srcH, dstW, dstH, x, y, 0);
    ByteCopied(p, srcW, srcH, dstW, dstH, x, y, 1);
    ByteCopied(p, srcW, srcH, dstW, dstH, x, y, 2);
  }

  /** The nearest-neighbour formula, at every coordinate and channel. */
  lemma {:induction false} ByteCopied(p: Bytes, srcW: nat, srcH: nat, dstW: nat, dstH: nat, x: nat, y: nat, c: nat)
    requires 0 < srcW && 0 < srcH && |p| == Size(srcW, srcH) && x < dstW && y < dstH && c < 3
    ensures var k := RowStart(y, dstW) + x * 3 + c;
            && k < Size(dstW, dstH) && SourceAt(x, y, c, srcW, srcH, dstW, dstH) < |p|
            && Resized(p, srcW, srcH, dstW, dstH)[k] == p[SourceAt(x, y, c, srcW, srcH, dstW, dstH)]
  {
    ByteOffset(x, y, c, dstW, dstH);
    SourceWithin(x, y, c, srcW, srcH, dstW, dstH);
    hide SourceAt, Size, RowStart, PixelX, PixelY;
  }

  lemma {:induction false} ByteOffset(x: nat, y: nat, c: nat, w: nat, h: nat)
    requires x < w && y < h && c < 3
    ensures var k := RowStart(y, w) + x * 3 + c;
            k < Size(w, h) && PixelX(k, w) == x && PixelY(k, w) == y && k % 3 == c
  {
    RowMajor(x, y, w, h);
    var n := y * w + x;
    var k := n * 3 + c;
    assert RowStart(y, w) + x * 3 + c == k;
    assert k / 3 == n && k % 3 == c;
  }

  /** The byte counts are taken in 64 bits. */
  class Image {
    var width: nat
    var height: nat
    var pixels: array<byte>

    constructor (width: nat, height: nat, data: Bytes)
      ensures Now() == Picture(width, height, data) && fresh(pixels)
    {
      this.width, this.height := width, height;
      pixels := new byte[|data|](i requires 0 <= i < |data| => data[i]);
    }

    function Now(): Picture
      reads this, pixels
    {
      Picture(width, height, pixels[..])
    }

    /** The byte count the buffer is held to is what 64 bits keep of the exact one. */
    method Validate() returns (ok: bool)
      ensures ok <==> Now().Passes()
    {
      var expected := width * height * CHANNELS % TWO_64;
      ok := pixels.Length == expected;
    }

    method ResizeTo(dstW: nat, dstH: nat) returns (ok: bool)
      requires Now().Valid() && Operation.Resize(dstW, dstH).Valid() && Operation.Resize(dstW, dstH).CeilingHolds()
      modifies this
      ensures match RunStep(old(Now()), Operation.Resize(dstW, dstH))
              case Err(_) => !ok && Now() == old(Now()) && pixels == old(pixels)
              case Ok(after) => ok && Now() == after && fresh(pixels)
    {
      hide Resized, Size, RowStart;
      if dstW == 0 || dstH == 0 {
        width, height := dstW, dstH;
        pixels := new byte[0];
        return true;
      }
      if width == 0 || height == 0 {
        return false;
      }
      var bytes := Size(dstW, dstH) % TWO_64;
      if bytes > MAX_IMAGE_BYTES {
        return false;
      }
      var src, srcW, srcH := pixels, width, height;
      ghost var source := src[..];
      var out := new byte[bytes];
      var at := 0;
      FirstRow(dstW, dstH);
      for dy := 0 to dstH
        invariant at == RowStart(dy, dstW) <= out.Length && src[..] == source
        invariant out[..at] == Resized(source, srcW, srcH, dstW, dstH)[..at]
        modifies out
      {
        at := ResizeRow(src, srcW, srcH, out, dstW, dstH, dy);
      }
      LastRow(dstW, dstH);
      assert out[..at] == out[..];
      width, height, pixels := dstW, dstH, out;
      ok := true;
    }

    method Run(step: Operation) returns (r: Result<(), Failure>)
      requires Now().Valid() && step.Valid() && step.CeilingHolds()
      modifies this, pixels
      ensures pixels == old(pixels) || fresh(pixels)
      ensures match RunStep(old(Now()), step)
              case Err(e) => r == Err(e)
              case Ok(after) => r.Ok? && Now() == after
    {
      match step {
        case Grayscale => GrayscaleInPlace(pixels);
        case Invert => InvertInPlace(pixels);
        case Gain(offset, factor) => GainInPlace(pixels, offset, factor);
        case Resize(dstW, dstH) =>
          var ok := ResizeTo(dstW, dstH);
          if !ok {
            return Err(Malformed);
          }
        case Lut(table) =>
          if table.None? {
            return Err(Unreadable);
          }
          LutInPlace(pixels, table.value);
      }
      r := Ok(());
    }
  }

  lemma {:induction false} FirstRow(w: nat, h: nat)
    ensures RowStart(0, w) == 0
  {
  }

  lemma {:induction false} LastRow(w: nat, h: nat)
    ensures RowStart(h, w) == Size(w, h)
  {
    assert h * w == w * h;
  }

  /** Take the picture over, check it, and run the steps until one fails. */
  method ApplySteps(input: Picture, steps: seq<Operation>) returns (r: Result<Picture, Failure>)
    requires input.Measurable()
    requires forall i | 0 <= i < |steps| :: steps[i].Valid() && steps[i].CeilingHolds()
    ensures r == Apply(input, steps)
  {
    hide RunStep;
    var image := new Image(input.width, input.height, input.pixels);
    var valid := image.Validate();
    if !valid {
      return Err(Malformed);
    }
    assert image.Now() == input;
    for at := 0 to |steps|
      invariant fresh(image) && fresh(image.pixels) && image.Now().Valid()
      invariant RunSteps(image.Now(), steps[at..]) == Apply(input, steps)
    {
      assert steps[at..][0] == steps[at] && steps[at..][1..] == steps[at + 1..];
      StepKeepsLength(image.Now(), steps[at]);
      var step := image.Run(steps[at]);
      if step.Err? {
        return Err(step.error);
      }
    }
    assert steps[|steps|..] == [];
    r := Ok(image.Now());
  }
}
