/**
  The QOI image format, and what decoding it means.

  Chunks and their meanings follow the QOI specification, version 1.0. `DecodeFile` is what every one
  of the example decoders computes on every input, failures included.
  */
module Qoi {
  import opened Wrappers
  import opened Utf8

  type Bytes = seq<byte>

  datatype Pixel = Pixel(r: byte, g: byte, b: byte, a: byte)

  const BLACK := Pixel(0, 0, 0, 0)
  const FIRST := Pixel(0, 0, 0, 255)

  function Wrap(x: int): byte {
    x % 256
  }

  function Hash(p: Pixel): (h: nat)
    ensures h < 64
  {
    var r: nat, g: nat, b: nat, a: nat := p.r, p.g, p.b, p.a;
    (r * 3 + g * 5 + b * 7 + a * 11) % 64
  }

  // ---------------------------------------------------------------------------------------------
  // Chunks
  // ---------------------------------------------------------------------------------------------

  datatype Chunk =
    | Rgb(r: byte, g: byte, b: byte)
    | Rgba(r: byte, g: byte, b: byte, a: byte)
    | Index(i: nat)
    | Diff(dr: int, dg: int, db: int)
    | Luma(green: int, redLess: int, blueLess: int)
    | Run(length: nat)
  {
    predicate Valid() {
      match this
      case Rgb(_, _, _) => true
      case Rgba(_, _, _, _) => true
      case Index(i) => i < 64
      case Diff(dr, dg, db) => -2 <= dr <= 1 && -2 <= dg <= 1 && -2 <= db <= 1
      case Luma(green, redLess, blueLess) => -32 <= green <= 31 && -8 <= redLess <= 7 && -8 <= blueLess <= 7
      case Run(length) => 1 <= length <= 62
    }

    function Serialize(): (bytes: Bytes)
      requires Valid()
      ensures 1 <= |bytes|
    {
      match this
      case Rgb(r, g, b) => [0xFE, r, g, b]
      case Rgba(r, g, b, a) => [0xFF, r, g, b, a]
      case Index(i) => [i]
      case Diff(dr, dg, db) => [0x40 + (dr + 2) * 16 + (dg + 2) * 4 + (db + 2)]
      case Luma(green, redLess, blueLess) => [0x80 + (green + 32), (redLess + 8) * 16 + (blueLess + 8)]
      case Run(length) => [0xC0 + (length - 1)]
    }

    /** How many pixels the chunk stands for. */
    function Count(): nat {
      if Run? then length else 1
    }
  }

  /** The previous pixel, and the 64 most recent by hash. */
  datatype State = State(px: Pixel, index: seq<Pixel>) {

    predicate Valid() {
      |index| == 64
    }

    /** The pixel a chunk stands for. */
    function Next(chunk: Chunk): Pixel
      requires Valid() && chunk.Valid()
    {
      match chunk
      case Rgb(r, g, b) => Pixel(r, g, b, px.a)
      case Rgba(r, g, b, a) => Pixel(r, g, b, a)
      case Index(i) => index[i]
      case Diff(dr, dg, db) => Pixel(Wrap(px.r + dr), Wrap(px.g + dg), Wrap(px.b + db), px.a)
      case Luma(green, redLess, blueLess) =>
        Pixel(Wrap(px.r + (green + redLess)), Wrap(px.g + green), Wrap(px.b + (green + blueLess)), px.a)
      case Run(_) => px
    }

    /** The state after a pixel has been seen. */
    function Saw(p: Pixel): (after: State)
      requires Valid()
      ensures after.Valid()
    {
      State(p, index[Hash(p) := p])
    }
  }

  function Start(): (s: State)
    ensures s.Valid()
  {
    State(FIRST, seq(64, _ => BLACK))
  }

  function Repeat(p: Pixel, n: nat): (ps: seq<Pixel>)
    ensures |ps| == n
  {
    seq(n, _ => p)
  }

  predicate ValidChunks(chunks: seq<Chunk>) {
    forall i | 0 <= i < |chunks| :: chunks[i].Valid()
  }

  /** The pixels a chunk sequence stands for. */
  function Meaning(chunks: seq<Chunk>, s: State): seq<Pixel>
    requires ValidChunks(chunks) && s.Valid()
    decreases |chunks|
  {
    if chunks == [] then []
    else
      var p := s.Next(chunks[0]);
      Repeat(p, chunks[0].Count()) + Meaning(chunks[1..], s.Saw(p))
  }

  function SerializeAll(chunks: seq<Chunk>): Bytes
    requires ValidChunks(chunks)
  {
    if chunks == [] then [] else chunks[0].Serialize() + SerializeAll(chunks[1..])
  }

  function PixelBytes(p: Pixel): (bytes: Bytes)
    ensures |bytes| == 4
  {
    [p.r, p.g, p.b, p.a]
  }

  function Flatten(pixels: seq<Pixel>): (bytes: Bytes)
    ensures |bytes| == 4 * |pixels|
  {
    if pixels == [] then [] else Flatten(pixels[..|pixels| - 1]) + PixelBytes(pixels[|pixels| - 1])
  }

  // ---------------------------------------------------------------------------------------------
  // Decoding
  // ---------------------------------------------------------------------------------------------

  datatype Why = BadChannels | ZeroDimension | Overflows | NoEndMarker

  datatype Failure = NotThisFormat | Truncated(missing: nat) | Corrupt(why: Why)

  datatype Image = Image(width: nat, height: nat, pixels: Bytes)

  const MAGIC: Bytes := [0x71, 0x6F, 0x69, 0x66]
  const HEADER_LEN := 14
  const END_MARKER: Bytes := [0, 0, 0, 0, 0, 0, 0, 1]
  const SIZE_MAX := 0xFFFF_FFFF

  /** Big-endian. */
  function ReadU32(data: Bytes, at: nat): nat
    requires at + 4 <= |data|
  {
    var a: nat, b: nat, c: nat, d: nat := data[at], data[at + 1], data[at + 2], data[at + 3];
    ((a * 256 + b) * 256 + c) * 256 + d
  }

  /** The next chunk, or how many bytes of it are missing. */
  datatype Parsed = Got(chunk: Chunk, next: nat) | Short(missing: nat)

  function ParseChunk(data: Bytes, pos: nat, bodyEnd: nat): (r: Parsed)
    requires pos < bodyEnd <= |data|
    ensures r.Got? ==> r.chunk.Valid() && pos < r.next <= bodyEnd
  {
    var b1: nat := data[pos];
    var at := pos + 1;
    if b1 == 0xFE then
      if at + 3 > bodyEnd then Short(at + 3 - bodyEnd)
      else Got(Rgb(data[at], data[at + 1], data[at + 2]), at + 3)
    else if b1 == 0xFF then
      if at + 4 > bodyEnd then Short(at + 4 - bodyEnd)
      else Got(Rgba(data[at], data[at + 1], data[at + 2], data[at + 3]), at + 4)
    else if b1 / 64 == 0 then Got(Index(b1 % 64), at)
    else if b1 / 64 == 1 then Got(Diff(b1 / 16 % 4 - 2, b1 / 4 % 4 - 2, b1 % 4 - 2), at)
    else if b1 / 64 == 2 then
      if at >= bodyEnd then Short(1)
      else
        var b2: nat := data[at];
        Got(Luma(b1 % 64 - 32, b2 / 16 - 8, b2 % 16 - 8), at + 1)
    else Got(Run(b1 % 64 + 1), at)
  }

  function Min(a: nat, b: nat): nat {
    if a <= b then a else b
  }

  /** Decode chunks from `pos` until `total` pixels are out; the offset after the last chunk used. */
  function Body(data: Bytes, bodyEnd: nat, total: nat, pos: nat, s: State, out: seq<Pixel>)
    : (r: Result<(seq<Pixel>, nat), Failure>)
    requires bodyEnd <= |data| && s.Valid() && |out| <= total
    ensures r.Ok? ==> |r.value.0| == total && pos <= r.value.1
    decreases |data| - pos
  {
    if |out| >= total then Ok((out, pos))
    else if pos >= bodyEnd then Err(Truncated(total - |out|))
    else
      match ParseChunk(data, pos, bodyEnd)
      case Short(missing) => Err(Truncated(missing))
      case Got(chunk, next) =>
        var p := s.Next(chunk);
        Body(data, bodyEnd, total, next, s.Saw(p), out + Repeat(p, Min(chunk.Count(), total - |out|)))
  }

  function BodyEnd(data: Bytes): (end: nat)
    ensures end <= |data|
  {
    if |data| >= 8 then |data| - 8 else 0
  }

  predicate HasEndMarker(data: Bytes, pos: nat) {
    pos + 8 <= |data| && data[|data| - 8..] == END_MARKER
  }

  function Area(width: nat, height: nat): nat {
    width * height
  }

  /** The dimensions the header declares, when a decoder goes on with them. */
  function Header(data: Bytes): (r: Result<(nat, nat), Failure>)
    ensures r.Ok? ==> |data| >= HEADER_LEN
  {
    if !(MAGIC <= data) then Err(NotThisFormat)
    else if |data| < HEADER_LEN then Err(Truncated(HEADER_LEN - |data|))
    else
      var width, height := ReadU32(data, 4), ReadU32(data, 8);
      if data[12] != 3 && data[12] != 4 then Err(Corrupt(BadChannels))
      else if width == 0 || height == 0 then Err(Corrupt(ZeroDimension))
      else if Area(width, height) * 4 > SIZE_MAX then Err(Corrupt(Overflows))
      else Ok((width, height))
  }

  function DecodeFile(data: Bytes): Result<Image, Failure> {
    var (width, height) :- Header(data);
    var (pixels, pos) :- Body(data, BodyEnd(data), Area(width, height), HEADER_LEN, Start(), []);
    if !HasEndMarker(data, pos) then Err(Corrupt(NoEndMarker))
    else Ok(Image(width, height, Flatten(pixels)))
  }
}
