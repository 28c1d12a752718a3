/**
  The decoders of the example plugins, each with its own arithmetic: C++ in wrapping 8-bit and 64-bit
  registers, JavaScript in numbers masked to a byte over a flat index array, Python in unbounded
  integers. All three compute `DecodeFile`, so they agree on every input: the same image, or the same
  failure with the same count.

  Indexing is checked throughout: no decoder reads outside the data or writes outside its buffer.
  */
module QoiDecoders {
  import opened Wrappers
  import opened Utf8
  import opened Qoi

  /** What one chunk does: the pixel it stands for, how often, and where the next one starts. */
  datatype Decoded = Cut(missing: nat) | Colour(px: Pixel, count: nat, next: nat, isRun: bool)

  function Interpret(data: Bytes, pos: nat, bodyEnd: nat, s: State): (d: Decoded)
    requires pos < bodyEnd <= |data| && s.Valid()
    ensures d.Colour? ==> pos < d.next <= bodyEnd && 1 <= d.count && (!d.isRun ==> d.count == 1)
  {
    match ParseChunk(data, pos, bodyEnd)
    case Short(missing) => Cut(missing)
    case Got(chunk, next) => Colour(s.Next(chunk), chunk.Count(), next, chunk.Run?)
  }

  lemma {:induction false} BodyStep(data: Bytes, bodyEnd: nat, total: nat, pos: nat, s: State, out: seq<Pixel>)
    requires bodyEnd <= |data| && s.Valid() && |out| < total && pos < bodyEnd
    ensures Body(data, bodyEnd, total, pos, s, out) ==
            match Interpret(data, pos, bodyEnd, s)
            case Cut(missing) => Err(Truncated(missing))
            case Colour(px, count, next, _) =>
              Body(data, bodyEnd, total, next, s.Saw(px), out + Repeat(px, Min(count, total - |out|)))
  {
  }

  // ---------------------------------------------------------------------------------------------
  // The pixel buffer
  // ---------------------------------------------------------------------------------------------

  method Emit(pixels: array<byte>, written: nat, p: Pixel, ghost out: seq<Pixel>) returns (w: nat)
    requires written == 4 * |out| && written + 4 <= pixels.Length && pixels[..written] == Flatten(out)
    modifies pixels
    ensures w == written + 4 && pixels[..w] == Flatten(out + [p])
  {
    pixels[written] := p.r;
    pixels[written + 1] := p.g;
    pixels[written + 2] := p.b;
    pixels[written + 3] := p.a;
    w := written + 4;
    assert (out + [p])[..|out|] == out;
    assert pixels[..w] == pixels[..written] + PixelBytes(p);
  }

  method EmitRun(pixels: array<byte>, written: nat, p: Pixel, run: nat, ghost out: seq<Pixel>) returns (w: nat)
    requires written == 4 * |out| && written <= pixels.Length && pixels.Length % 4 == 0
    requires pixels[..written] == Flatten(out)
    modifies pixels
    ensures var k := Min(run, pixels.Length / 4 - |out|);
            w == written + 4 * k && pixels[..w] == Flatten(out + Repeat(p, k))
  {
    hide Flatten, PixelBytes;
    w := written;
    var i := 0;
    assert out + Repeat(p, 0) == out;
    while i < run && w < pixels.Length
      invariant i <= run && w == written + 4 * i <= pixels.Length
      invariant pixels[..w] == Flatten(out + Repeat(p, i))
    {
      w := Emit(pixels, w, p, out + Repeat(p, i));
      assert out + Repeat(p, i) + [p] == out + Repeat(p, i + 1);
      i := i + 1;
    }
  }

  // ---------------------------------------------------------------------------------------------
  // C++
  // ---------------------------------------------------------------------------------------------

  lemma {:induction false} WrapTwice(x: int, y: int)
    ensures Wrap(x + Wrap(y)) == Wrap(x + y)
  {
  }

  lemma {:induction false} WrapLuma(px: byte, green: int, less: int)
    ensures Wrap(px + Wrap(Wrap(green) + Wrap(less))) == Wrap(px + (green + less))
  {
    WrapTwice(px, Wrap(green) + Wrap(less));
    WrapTwice(Wrap(green), less);
    WrapTwice(less, green);
  }

  const MAGIC_CPP: Bytes := [0x71, 0x6F, 0x69, 0x66]
  const END_MARKER_CPP: Bytes := [0, 0, 0, 0, 0, 0, 0, 1]

  /** The slot, of a pixel: `uint8_t` promoted to `int`. */
  function HashCpp(p: Pixel): (h: nat)
    ensures h == Hash(p)
  {
    var r: nat, g: nat, b: nat, a: nat := p.r, p.g, p.b, p.a;
    (r * 3 + g * 5 + b * 7 + a * 11) % 64
  }

  /** `uint8_t` arithmetic: every intermediate result wraps. */
  method DiffCpp(px: Pixel, b1: nat) returns (next: Pixel)
    ensures next == Pixel(
              Wrap(px.r + (b1 / 16 % 4 - 2)), Wrap(px.g + (b1 / 4 % 4 - 2)), Wrap(px.b + (b1 % 4 - 2)), px.a)
  {
    hide Wrap;
    var r: int, g: int, b: int := b1 / 16 % 4 - 2, b1 / 4 % 4 - 2, b1 % 4 - 2;
    var dr: int, dg: int, db: int := Wrap(r), Wrap(g), Wrap(b);
    WrapTwice(px.r, r);
    WrapTwice(px.g, g);
    WrapTwice(px.b, b);
    next := Pixel(Wrap(px.r + dr), Wrap(px.g + dg), Wrap(px.b + db), px.a);
  }

  method LumaCpp(px: Pixel, b1: nat, b2: nat) returns (next: Pixel)
    ensures var green := b1 % 64 - 32;
            next == Pixel(
              Wrap(px.r + (green + (b2 / 16 - 8))), Wrap(px.g + green), Wrap(px.b + (green + (b2 % 16 - 8))), px.a)
  {
    hide Wrap;
    var dg: int, drDg: int, dbDg: int := Wrap(b1 % 64 - 32), Wrap(b2 / 16 - 8), Wrap(b2 % 16 - 8);
    WrapLuma(px.r, b1 % 64 - 32, b2 / 16 - 8);
    WrapTwice(px.g, b1 % 64 - 32);
    WrapLuma(px.b, b1 % 64 - 32, b2 % 16 - 8);
    next := Pixel(Wrap(px.r + Wrap(dg + drDg)), Wrap(px.g + dg), Wrap(px.b + Wrap(dg + dbDg)), px.a);
  }

  method ReadChunkCpp(data: Bytes, start: nat, bodyEnd: nat, px: Pixel, index: array<Pixel>) returns (d: Decoded)
    requires start < bodyEnd <= |data| && index.Length == 64
    ensures d == Interpret(data, start, bodyEnd, State(px, index[..]))
  {
    hide Wrap;
    var b1: nat := data[start];
    var pos := start + 1;
    if b1 == 0xFE {
      if pos + 3 > bodyEnd {
        return Cut(pos + 3 - bodyEnd);
      }
      return Colour(Pixel(data[pos], data[pos + 1], data[pos + 2], px.a), 1, pos + 3, false);
    }
    if b1 == 0xFF {
      if pos + 4 > bodyEnd {
        return Cut(pos + 4 - bodyEnd);
      }
      return Colour(Pixel(data[pos], data[pos + 1], data[pos + 2], data[pos + 3]), 1, pos + 4, false);
    }
    if b1 / 64 == 0 {
      return Colour(index[b1 % 64], 1, pos, false);
    }
    if b1 / 64 == 1 {
      var next := DiffCpp(px, b1);
      return Colour(next, 1, pos, false);
    }
    if b1 / 64 == 2 {
      if pos >= bodyEnd {
        return Cut(1);
      }
      var b2: nat := data[pos];
      var next := LumaCpp(px, b1, b2);
      return Colour(next, 1, pos + 1, false);
    }
    d := Colour(px, b1 % 64 + 1, pos, true);
  }

  const TWO_64 := 0x1_0000_0000_0000_0000

  /** The size check in 64-bit arithmetic is exact. */
  lemma {:induction false} OverflowCheck(width: nat, height: nat)
    requires width <= SIZE_MAX && height <= SIZE_MAX
    ensures Area(width, height) < TWO_64
    ensures var bytes := Area(width, height) * 4 % TWO_64;
            (bytes / 4 != Area(width, height) || bytes > SIZE_MAX) <==> Area(width, height) * 4 > SIZE_MAX
  {
    assert width * height <= SIZE_MAX * SIZE_MAX by {
      MulMonotone(width, SIZE_MAX, height);
      MulMonotone(height, SIZE_MAX, SIZE_MAX);
    }
    var n := width * height;
    if n * 4 >= TWO_64 {
      var wrapped := n * 4 % TWO_64;
      assert wrapped / 4 < n;
    }
  }

  lemma {:induction false} MulMonotone(a: nat, b: nat, c: nat)
    requires a <= b
    ensures a * c <= b * c && c * a <= c * b
  {
  }

  lemma {:induction false} ReadU32Bound(data: Bytes, at: nat)
    requires at + 4 <= |data|
    ensures ReadU32(data, at) <= SIZE_MAX
  {
  }

  method BodyCpp(data: Bytes, pixels: array<byte>) returns (r: Result<nat, Failure>)
    requires |data| <= SIZE_MAX && |data| >= HEADER_LEN && pixels.Length % 4 == 0
    modifies pixels
    ensures match Body(data, BodyEnd(data), pixels.Length / 4, HEADER_LEN, Start(), [])
            case Ok((out, pos)) => r == Ok(pos) && pixels[..] == Flatten(out)
            case Err(e) => r == Err(e)
  {
    hide ParseChunk, Interpret, Flatten, Hash, HashCpp;
    var index := new Pixel[64](_ => Pixel(0, 0, 0, 0));
    var px := Pixel(0, 0, 0, 255);
    var pos: nat := HEADER_LEN;
    var bodyEnd := if |data| >= 8 then |data| - 8 else 0;
    var written, total := 0, pixels.Length;
    ghost var s, out: seq<Pixel> := Start(), [];
    assert index[..] == s.index;
    ghost var whole := Body(data, bodyEnd, total / 4, pos, s, out);
    FlattenNone();
    while written < total
      invariant s.Valid() && px == s.px && index[..] == s.index
      invariant |out| <= total / 4 && written == 4 * |out| && pixels[..written] == Flatten(out)
      invariant Body(data, bodyEnd, total / 4, pos, s, out) == whole
      decreases total - written
    {
      if pos >= bodyEnd {
        return Err(Truncated((total - written) / 4));
      }
      BodyStep(data, bodyEnd, total / 4, pos, s, out);
      var d := ReadChunkCpp(data, pos, bodyEnd, px, index);
      assert State(px, index[..]) == s;
      if d.Cut? {
        return Err(Truncated(d.missing));
      }
      px, pos := d.px, d.next;
      if d.isRun {
        written := EmitRun(pixels, written, px, d.count, out);
        index[HashCpp(px)] := px;
      } else {
        index[HashCpp(px)] := px;
        written := Emit(pixels, written, px, out);
        assert [px] == Repeat(px, 1);
      }
      out := out + Repeat(px, Min(d.count, total / 4 - |out|));
      s := s.Saw(px);
    }
    assert pixels[..written] == pixels[..];
    r := Ok(pos);
  }

  lemma {:induction false} FlattenNone()
    ensures Flatten([]) == []
  {
  }

  method HeaderCpp(data: Bytes) returns (r: Result<(nat, nat), Failure>)
    requires |data| <= SIZE_MAX
    ensures r == Header(data)
  {
    hide Area, ReadU32;
    assert MAGIC <= data <==> |data| >= 4 && data[..4] == MAGIC;
    if |data| < 4 || data[..4] != MAGIC_CPP {
      return Err(NotThisFormat);
    }
    if |data| < HEADER_LEN {
      return Err(Truncated(HEADER_LEN - |data|));
    }
    var width, height, channels := ReadU32(data, 4), ReadU32(data, 8), data[12];
    if channels < 3 || channels > 4 {
      return Err(Corrupt(BadChannels));
    }
    if width == 0 || height == 0 {
      return Err(Corrupt(ZeroDimension));
    }
    ReadU32Bound(data, 4);
    ReadU32Bound(data, 8);
    OverflowCheck(width, height);
    var pixelCount := Area(width, height) % TWO_64;
    var byteCount := pixelCount * 4 % TWO_64;
    if byteCount / 4 != pixelCount || byteCount > SIZE_MAX {
      return Err(Corrupt(Overflows));
    }
    r := Ok((width, height));
  }

  method DecodeCpp(data: Bytes) returns (r: Result<Image, Failure>)
    requires |data| <= SIZE_MAX
    ensures r == DecodeFile(data)
  {
    hide Header, Area, Body, Flatten, Start;
    var header := HeaderCpp(data);
    if header.Err? {
      return Err(header.error);
    }
    var (width, height) := header.value;
    var pixels := new byte[Area(width, height) * 4];
    var body := BodyCpp(data, pixels);
    if body.Err? {
      return Err(body.error);
    }
    if |data| < body.value + 8 || data[|data| - 8..] != END_MARKER_CPP {
      return Err(Corrupt(NoEndMarker));
    }
    r := Ok(Image(width, height, pixels[..]));
  }

  // ---------------------------------------------------------------------------------------------
  // JavaScript
  // ---------------------------------------------------------------------------------------------

  const MAGIC_JS: Bytes := [0x71, 0x6F, 0x69, 0x66]
  const END_MARKER_JS: Bytes := [0, 0, 0, 0, 0, 0, 0, 1]

  /** The slot, of four channels. */
  function HashJs(r: nat, g: nat, b: nat, a: nat): (h: nat)
    requires r < 256 && g < 256 && b < 256 && a < 256
    ensures h == Hash(Pixel(r, g, b, a))
  {
    (r * 3 + g * 5 + b * 7 + a * 11) % 64
  }

  /** The flat index array holds the pixels' channels in order. */
  ghost predicate FlatIndex(flat: seq<byte>, index: seq<Pixel>) {
    && |flat| == 256 && |index| == 64
    && forall i | 0 <= i < 64 :: index[i] == Pixel(flat[4 * i], flat[4 * i + 1], flat[4 * i + 2], flat[4 * i + 3])
  }

  method RememberJs(flat: array<byte>, p: Pixel, ghost index: seq<Pixel>)
    requires flat.Length == 256 && FlatIndex(flat[..], index)
    modifies flat
    ensures FlatIndex(flat[..], index[Hash(p) := p])
  {
    hide Hash, HashJs;
    var at := HashJs(p.r, p.g, p.b, p.a) * 4;
    assert Pixel(p.r, p.g, p.b, p.a) == p;
    flat[at] := p.r;
    flat[at + 1] := p.g;
    flat[at + 2] := p.b;
    flat[at + 3] := p.a;
  }

  /** Number arithmetic, masked to a byte at the end. */
  method ReadChunkJs(data: Bytes, start: nat, bodyEnd: nat, px: Pixel, flat: array<byte>, ghost index: seq<Pixel>)
    returns (d: Decoded)
    requires start < bodyEnd <= |data| && flat.Length == 256 && FlatIndex(flat[..], index)
    ensures d == Interpret(data, start, bodyEnd, State(px, index))
  {
    var b1: nat := data[start];
    var pos := start + 1;
    if b1 == 0xFE {
      if pos + 3 > bodyEnd {
        return Cut(pos + 3 - bodyEnd);
      }
      return Colour(Pixel(data[pos], data[pos + 1], data[pos + 2], px.a), 1, pos + 3, false);
    }
    if b1 == 0xFF {
      if pos + 4 > bodyEnd {
        return Cut(pos + 4 - bodyEnd);
      }
      return Colour(Pixel(data[pos], data[pos + 1], data[pos + 2], data[pos + 3]), 1, pos + 4, false);
    }
    if b1 / 64 == 0 {
      var at := b1 % 64 * 4;
      return Colour(Pixel(flat[at], flat[at + 1], flat[at + 2], flat[at + 3]), 1, pos, false);
    }
    if b1 / 64 == 1 {
      var next := Pixel((px.r + b1 / 16 % 4 - 2) % 256, (px.g + b1 / 4 % 4 - 2) % 256, (px.b + b1 % 4 - 2) % 256, px.a);
      return Colour(next, 1, pos, false);
    }
    if b1 / 64 == 2 {
      if pos >= bodyEnd {
        return Cut(1);
      }
      var b2: nat := data[pos];
      var dg, drDg, dbDg := b1 % 64 - 32, b2 / 16 - 8, b2 % 16 - 8;
      var next := Pixel((px.r + dg + drDg) % 256, (px.g + dg) % 256, (px.b + dg + dbDg) % 256, px.a);
      return Colour(next, 1, pos + 1, false);
    }
    d := Colour(px, b1 % 64 + 1, pos, true);
  }

  method BodyJs(data: Bytes, pixels: array<byte>) returns (r: Result<nat, Failure>)
    requires |data| >= HEADER_LEN && pixels.Length % 4 == 0
    modifies pixels
    ensures match Body(data, BodyEnd(data), pixels.Length / 4, HEADER_LEN, Start(), [])
            case Ok((out, pos)) => r == Ok(pos) && pixels[..] == Flatten(out)
            case Err(e) => r == Err(e)
  {
    hide ParseChunk, Interpret, Flatten, Hash;
    var index := new byte[256](_ => 0);
    var px := Pixel(0, 0, 0, 255);
    var pos: nat := HEADER_LEN;
    var bodyEnd := if |data| - 8 > 0 then |data| - 8 else 0;
    var written, total := 0, pixels.Length;
    ghost var s, out: seq<Pixel> := Start(), [];
    ghost var whole := Body(data, bodyEnd, total / 4, pos, s, out);
    FlattenNone();
    while written < total
      invariant s.Valid() && px == s.px && FlatIndex(index[..], s.index)
      invariant |out| <= total / 4 && written == 4 * |out| && pixels[..written] == Flatten(out)
      invariant Body(data, bodyEnd, total / 4, pos, s, out) == whole
      decreases total - written
    {
      if pos >= bodyEnd {
        return Err(Truncated((total - written) / 4));
      }
      BodyStep(data, bodyEnd, total / 4, pos, s, out);
      var d := ReadChunkJs(data, pos, bodyEnd, px, index, s.index);
      if d.Cut? {
        return Err(Truncated(d.missing));
      }
      px, pos := d.px, d.next;
      if d.isRun {
        written := EmitRun(pixels, written, px, d.count, out);
        RememberJs(index, px, s.index);
      } else {
        RememberJs(index, px, s.index);
        written := Emit(pixels, written, px, out);
        assert [px] == Repeat(px, 1);
      }
      out := out + Repeat(px, Min(d.count, total / 4 - |out|));
      s := s.Saw(px);
    }
    assert pixels[..written] == pixels[..];
    r := Ok(pos);
  }

  const SAFE_INTEGER := 0x20_0000_0000_0000

  /** Rounding to a double: exact up to 2^53, and never below it from above. */
  ghost predicate RoundsLikeDoubles(round: nat -> nat) {
    forall n: nat :: if n <= SAFE_INTEGER then round(n) == n else round(n) >= SAFE_INTEGER
  }

  method HeaderJs(data: Bytes, round: nat -> nat) returns (r: Result<(nat, nat), Failure>)
    requires RoundsLikeDoubles(round)
    ensures r == Header(data)
  {
    hide Area, ReadU32;
    assert MAGIC <= data <==> |data| >= 4 && data[..4] == MAGIC;
    if |data| < 4 || data[..4] != MAGIC_JS {
      return Err(NotThisFormat);
    }
    if |data| < HEADER_LEN {
      return Err(Truncated(HEADER_LEN - |data|));
    }
    var width, height, channels := ReadU32(data, 4), ReadU32(data, 8), data[12];
    if channels < 3 || channels > 4 {
      return Err(Corrupt(BadChannels));
    }
    if width == 0 || height == 0 {
      return Err(Corrupt(ZeroDimension));
    }
    var pixelCount := round(Area(width, height));
    var byteCount := round(pixelCount * 4);
    if byteCount > SAFE_INTEGER - 1 || byteCount > 0xFFFF_FFFF {
      return Err(Corrupt(Overflows));
    }
    r := Ok((width, height));
  }

  method DecodeJs(data: Bytes, round: nat -> nat) returns (r: Result<Image, Failure>)
    requires RoundsLikeDoubles(round)
    ensures r == DecodeFile(data)
  {
    hide Header, Area, Body, Flatten, Start;
    var header := HeaderJs(data, round);
    if header.Err? {
      return Err(header.error);
    }
    var (width, height) := header.value;
    var pixels := new byte[Area(width, height) * 4];
    var body := BodyJs(data, pixels);
    if body.Err? {
      return Err(body.error);
    }
    if |data| < body.value + 8 || data[|data| - 8..] != END_MARKER_JS {
      return Err(Corrupt(NoEndMarker));
    }
    r := Ok(Image(width, height, pixels[..]));
  }

  // ---------------------------------------------------------------------------------------------
  // Python
  // ---------------------------------------------------------------------------------------------

  const MAGIC_PY: Bytes := [0x71, 0x6F, 0x69, 0x66]
  const END_MARKER_PY: Bytes := [0, 0, 0, 0, 0, 0, 0, 1]

  function HashPy(r: nat, g: nat, b: nat, a: nat): (h: nat)
    requires r < 256 && g < 256 && b < 256 && a < 256
    ensures h == Hash(Pixel(r, g, b, a))
  {
    (r * 3 + g * 5 + b * 7 + a * 11) % 64
  }

  method ReadChunkPy(data: Bytes, start: nat, bodyEnd: nat, px: Pixel, index: seq<Pixel>) returns (d: Decoded)
    requires start < bodyEnd <= |data| && |index| == 64
    ensures d == Interpret(data, start, bodyEnd, State(px, index))
  {
    var b1: nat := data[start];
    var pos := start + 1;
    var r, g, b, a := px.r, px.g, px.b, px.a;
    if b1 == 0xFE {
      if pos + 3 > bodyEnd {
        return Cut(pos + 3 - bodyEnd);
      }
      r, g, b := data[pos], data[pos + 1], data[pos + 2];
      pos := pos + 3;
    } else if b1 == 0xFF {
      if pos + 4 > bodyEnd {
        return Cut(pos + 4 - bodyEnd);
      }
      r, g, b, a := data[pos], data[pos + 1], data[pos + 2], data[pos + 3];
      pos := pos + 4;
    } else {
      var tag := b1 / 64;
      if tag == 0 {
        var p := index[b1 % 64];
        r, g, b, a := p.r, p.g, p.b, p.a;
      } else if tag == 1 {
        r := (r + b1 / 16 % 4 - 2) % 256;
        g := (g + b1 / 4 % 4 - 2) % 256;
        b := (b + b1 % 4 - 2) % 256;
      } else if tag == 2 {
        if pos >= bodyEnd {
          return Cut(1);
        }
        var b2: nat := data[pos];
        pos := pos + 1;
        var dg := b1 % 64 - 32;
        r := (r + dg + b2 / 16 - 8) % 256;
        g := (g + dg) % 256;
        b := (b + dg + b2 % 16 - 8) % 256;
      } else {
        return Colour(px, b1 % 64 + 1, pos, true);
      }
    }
    d := Colour(Pixel(r, g, b, a), 1, pos, false);
  }

  method BodyPy(data: Bytes, pixels: array<byte>) returns (r: Result<nat, Failure>)
    requires |data| >= HEADER_LEN && pixels.Length % 4 == 0
    modifies pixels
    ensures match Body(data, BodyEnd(data), pixels.Length / 4, HEADER_LEN, Start(), [])
            case Ok((out, pos)) => r == Ok(pos) && pixels[..] == Flatten(out)
            case Err(e) => r == Err(e)
  {
    hide ParseChunk, Interpret, Flatten, Hash, HashPy;
    var index := seq(64, _ => Pixel(0, 0, 0, 0));
    var px := Pixel(0, 0, 0, 255);
    var pos: nat := HEADER_LEN;
    var bodyEnd := if |data| - 8 > 0 then |data| - 8 else 0;
    var written, byteCount := 0, pixels.Length;
    ghost var n := byteCount / 4;
    ghost var s, out: seq<Pixel> := Start(), [];
    ghost var whole := Body(data, bodyEnd, n, pos, s, out);
    assert index == s.index;
    FlattenNone();
    while written < byteCount
      invariant s.Valid() && px == s.px && index == s.index
      invariant |out| <= n && written == 4 * |out| && pixels[..written] == Flatten(out)
      invariant Body(data, bodyEnd, n, pos, s, out) == whole
      decreases byteCount - written
    {
      if pos >= bodyEnd {
        return Err(Truncated((byteCount - written) / 4));
      }
      BodyStep(data, bodyEnd, n, pos, s, out);
      var d := ReadChunkPy(data, pos, bodyEnd, px, index);
      if d.Cut? {
        return Err(Truncated(d.missing));
      }
      px, pos := d.px, d.next;
      assert Pixel(px.r, px.g, px.b, px.a) == px;
      if d.isRun {
        written := EmitRun(pixels, written, px, d.count, out);
        index := index[HashPy(px.r, px.g, px.b, px.a) := px];
      } else {
        index := index[HashPy(px.r, px.g, px.b, px.a) := px];
        written := Emit(pixels, written, px, out);
        assert [px] == Repeat(px, 1);
      }
      out := out + Repeat(px, Min(d.count, n - |out|));
      s := s.Saw(px);
    }
    assert pixels[..written] == pixels[..];
    r := Ok(pos);
  }

  method HeaderPy(data: Bytes) returns (r: Result<(nat, nat), Failure>)
    ensures r == Header(data)
  {
    hide Area, ReadU32;
    assert MAGIC <= data <==> |data| >= 4 && data[..4] == MAGIC;
    if |data| < 4 || data[..4] != MAGIC_PY {
      return Err(NotThisFormat);
    }
    if |data| < HEADER_LEN {
      return Err(Truncated(HEADER_LEN - |data|));
    }
    var width, height, channels := ReadU32(data, 4), ReadU32(data, 8), data[12];
    if channels != 3 && channels != 4 {
      return Err(Corrupt(BadChannels));
    }
    if width == 0 || height == 0 {
      return Err(Corrupt(ZeroDimension));
    }
    var byteCount := Area(width, height) * 4;
    if byteCount > 0xFFFF_FFFF {
      return Err(Corrupt(Overflows));
    }
    r := Ok((width, height));
  }

  method DecodePy(data: Bytes) returns (r: Result<Image, Failure>)
    ensures r == DecodeFile(data)
  {
    hide Header, Area, Body, Flatten, Start;
    var header := HeaderPy(data);
    if header.Err? {
      return Err(header.error);
    }
    var (width, height) := header.value;
    var pixels := new byte[Area(width, height) * 4];
    var body := BodyPy(data, pixels);
    if body.Err? {
      return Err(body.error);
    }
    if |data| < body.value + 8 || data[|data| - 8..] != END_MARKER_PY {
      return Err(Corrupt(NoEndMarker));
    }
    r := Ok(Image(width, height, pixels[..]));
  }

  /** On every input the three decoders give the same image or the same failure, counts included. */
  method DecodeWithAll(data: Bytes, round: nat -> nat)
    returns (cpp: Result<Image, Failure>, js: Result<Image, Failure>, py: Result<Image, Failure>)
    requires |data| <= SIZE_MAX && RoundsLikeDoubles(round)
    ensures cpp == js == py
    ensures cpp.Ok? ==> |cpp.value.pixels| == Area(cpp.value.width, cpp.value.height) * 4 <= SIZE_MAX
  {
    cpp := DecodeCpp(data);
    js := DecodeJs(data, round);
    py := DecodePy(data);
    hide Flatten, Body, ReadU32;
  }
}
