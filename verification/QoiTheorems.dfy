/** What decoding promises: it inverts serialisation, and accepts nothing that is not one. */
module QoiTheorems {
  import opened Wrappers
  import opened Utf8
  import opened Qoi

  lemma {:induction false} DiffDigits(dr: int, dg: int, db: int)
    requires -2 <= dr <= 1 && -2 <= dg <= 1 && -2 <= db <= 1
    ensures var b := 0x40 + (dr + 2) * 16 + (dg + 2) * 4 + (db + 2);
            b / 64 == 1 && b / 16 % 4 - 2 == dr && b / 4 % 4 - 2 == dg && b % 4 - 2 == db
  {
  }

  lemma {:induction false} ParseOne(data: Bytes, pos: nat, bodyEnd: nat, chunk: Chunk)
    requires chunk.Valid() && !chunk.Rgb? && !chunk.Rgba? && !chunk.Luma?
    requires pos < bodyEnd <= |data| && chunk.Serialize() == [data[pos]]
    ensures ParseChunk(data, pos, bodyEnd) == Got(chunk, pos + 1)
  {
    assert chunk.Serialize()[0] == data[pos];
    if chunk.Diff? {
      DiffDigits(chunk.dr, chunk.dg, chunk.db);
    } else {
      var b: nat := data[pos];
      assert chunk.Index? ==> b == chunk.i;
      assert chunk.Run? ==> b == 0xBF + chunk.length && b / 64 == 3 && b % 64 + 1 == chunk.length;
      hide Chunk.Serialize;
    }
  }

  lemma {:induction false} ParseLong(data: Bytes, pos: nat, bodyEnd: nat, chunk: Chunk)
    requires chunk.Valid() && (chunk.Rgb? || chunk.Rgba? || chunk.Luma?)
    requires pos + |chunk.Serialize()| <= bodyEnd <= |data|
    requires forall k | 0 <= k < |chunk.Serialize()| :: data[pos + k] == chunk.Serialize()[k]
    ensures ParseChunk(data, pos, bodyEnd) == Got(chunk, pos + |chunk.Serialize()|)
  {
    var bytes := chunk.Serialize();
    assert data[pos + 0] == bytes[0] && data[pos + 1] == bytes[1];
    if !chunk.Luma? {
      assert data[pos + 2] == bytes[2] && data[pos + 3] == bytes[3];
    }
    if chunk.Rgba? {
      assert data[pos + 4] == bytes[4];
    }
  }

  lemma {:induction false} ParseSerialized(data: Bytes, pos: nat, bodyEnd: nat, chunk: Chunk)
    requires chunk.Valid() && pos + |chunk.Serialize()| <= bodyEnd <= |data|
    requires data[pos..pos + |chunk.Serialize()|] == chunk.Serialize()
    ensures ParseChunk(data, pos, bodyEnd) == Got(chunk, pos + |chunk.Serialize()|)
  {
    hide ParseChunk;
    var bytes := chunk.Serialize();
    forall k | 0 <= k < |bytes| ensures data[pos + k] == bytes[k] {
      assert data[pos..pos + |bytes|][k] == data[pos + k];
    }
    if chunk.Rgb? || chunk.Rgba? || chunk.Luma? {
      ParseLong(data, pos, bodyEnd, chunk);
    } else {
      assert data[pos + 0] == bytes[0];
      ParseOne(data, pos, bodyEnd, chunk);
    }
  }

  lemma {:induction false} Digits(b: nat)
    requires b < 256
    ensures b == b / 64 * 64 + b / 16 % 4 * 16 + b / 4 % 4 * 4 + b % 4
    ensures b == b / 64 * 64 + b % 64 && b == b / 16 * 16 + b % 16
  {
  }

  lemma {:induction false} SerializeParsed(data: Bytes, pos: nat, bodyEnd: nat)
    requires pos < bodyEnd <= |data| && ParseChunk(data, pos, bodyEnd).Got?
    ensures var r := ParseChunk(data, pos, bodyEnd); r.chunk.Serialize() == data[pos..r.next]
  {
    var r := ParseChunk(data, pos, bodyEnd);
    var bytes, read := r.chunk.Serialize(), data[pos..r.next];
    Digits(data[pos]);
    if pos + 1 < |data| {
      Digits(data[pos + 1]);
    }
    assert |bytes| == |read|;
    forall k | 0 <= k < |bytes| ensures bytes[k] == read[k] {
      assert read[k] == data[pos + k];
    }
  }

  /** Decoding a serialised body yields the meaning of its chunks, cut to the size asked for. */
  lemma {:induction false} BodyMeans(
    data: Bytes, bodyEnd: nat, total: nat, pos: nat, s: State, out: seq<Pixel>, chunks: seq<Chunk>)
    requires bodyEnd <= |data| && s.Valid() && |out| <= total && ValidChunks(chunks)
    requires pos + |SerializeAll(chunks)| <= bodyEnd
    requires data[pos..pos + |SerializeAll(chunks)|] == SerializeAll(chunks)
    requires total <= |out| + |Meaning(chunks, s)|
    ensures var r := Body(data, bodyEnd, total, pos, s, out);
            && r.Ok? && r.value.1 <= bodyEnd
            && r.value.0 == out + Meaning(chunks, s)[..total - |out|]
    decreases |chunks|
  {
    hide ParseChunk, State.Next, State.Saw, Chunk.Serialize, Chunk.Count, Repeat;
    if |out| < total {
      var chunk, rest := chunks[0], SerializeAll(chunks[1..]);
      var n := |chunk.Serialize()|;
      var whole := data[pos..pos + |SerializeAll(chunks)|];
      assert data[pos..pos + n] == whole[..n] == chunk.Serialize();
      assert data[pos + n..pos + n + |rest|] == whole[n..] == rest;
      ParseSerialized(data, pos, bodyEnd, chunk);
      var p := s.Next(chunk);
      var k := Min(chunk.Count(), total - |out|);
      var tail := Meaning(chunks[1..], s.Saw(p));
      assert Meaning(chunks, s) == Repeat(p, chunk.Count()) + tail;
      BodyMeans(data, bodyEnd, total, pos + n, s.Saw(p), out + Repeat(p, k), chunks[1..]);
      MeaningPrefix(p, chunk.Count(), tail, total - |out|);
      assert out + Repeat(p, k) + tail[..total - |out| - k] == out + (Repeat(p, k) + tail[..total - |out| - k]);
    } else {
      assert out + Meaning(chunks, s)[..0] == out;
    }
  }

  lemma {:induction false} MeaningPrefix(p: Pixel, count: nat, tail: seq<Pixel>, want: nat)
    requires want <= count + |tail|
    ensures var k := Min(count, want);
            want - k <= |tail| && (Repeat(p, count) + tail)[..want] == Repeat(p, k) + tail[..want - k]
  {
  }

  function HeaderBytes(width: nat, height: nat, channels: byte, colorspace: byte): Bytes
    requires width <= SIZE_MAX && height <= SIZE_MAX
  {
    MAGIC + BigEndian(width) + BigEndian(height) + [channels, colorspace]
  }

  function BigEndian(n: nat): (bytes: Bytes)
    requires n <= SIZE_MAX
    ensures |bytes| == 4
  {
    [n / 256 / 256 / 256, n / 256 / 256 % 256, n / 256 % 256, n % 256]
  }

  lemma {:induction false} BigEndianReads(data: Bytes, at: nat, n: nat)
    requires n <= SIZE_MAX && at + 4 <= |data| && data[at..at + 4] == BigEndian(n)
    ensures ReadU32(data, at) == n
  {
    var four := data[at..at + 4];
    assert four[0] == data[at] && four[1] == data[at + 1] && four[2] == data[at + 2] && four[3] == data[at + 3];
    assert n == n / 256 * 256 + n % 256;
    assert n / 256 == n / 256 / 256 * 256 + n / 256 % 256;
    assert n / 256 / 256 == n / 256 / 256 / 256 * 256 + n / 256 / 256 % 256;
  }

  function FileBytes(width: nat, height: nat, channels: byte, colorspace: byte, chunks: seq<Chunk>): Bytes
    requires width <= SIZE_MAX && height <= SIZE_MAX && ValidChunks(chunks)
  {
    HeaderBytes(width, height, channels, colorspace) + SerializeAll(chunks) + END_MARKER
  }

  lemma {:induction false} FileLayout(width: nat, height: nat, channels: byte, colorspace: byte, body: Bytes)
    requires width <= SIZE_MAX && height <= SIZE_MAX
    ensures var data := HeaderBytes(width, height, channels, colorspace) + body + END_MARKER;
            && |data| == 22 + |body| && MAGIC <= data && data[12] == channels
            && ReadU32(data, 4) == width && ReadU32(data, 8) == height
            && data[14..14 + |body|] == body && data[|data| - 8..] == END_MARKER
  {
    hide BigEndian, ReadU32;
    var data := HeaderBytes(width, height, channels, colorspace) + body + END_MARKER;
    assert data[4..8] == BigEndian(width);
    assert data[8..12] == BigEndian(height);
    BigEndianReads(data, 4, width);
    BigEndianReads(data, 8, height);
  }

  /**
    Every chunk sequence that covers the image decodes, from its serialisation, to exactly the pixels
    the chunks mean.
    */
  lemma {:induction false} DecodesToMeaning(
    width: nat, height: nat, channels: byte, colorspace: byte, chunks: seq<Chunk>)
    requires 0 < width <= SIZE_MAX && 0 < height <= SIZE_MAX && Area(width, height) * 4 <= SIZE_MAX
    requires channels == 3 || channels == 4
    requires ValidChunks(chunks) && Area(width, height) <= |Meaning(chunks, Start())|
    ensures DecodeFile(FileBytes(width, height, channels, colorspace, chunks))
         == Ok(Image(width, height, Flatten(Meaning(chunks, Start())[..Area(width, height)])))
  {
    hide Area, HeaderBytes, ReadU32, Body, Flatten, Start, Meaning, SerializeAll;
    var body := SerializeAll(chunks);
    var data := FileBytes(width, height, channels, colorspace, chunks);
    FileLayout(width, height, channels, colorspace, body);
    BodyMeans(data, |data| - 8, Area(width, height), HEADER_LEN, Start(), [], chunks);
    var pixels := Meaning(chunks, Start())[..Area(width, height)];
    assert [] + pixels == pixels;
  }

  /** Whatever is decoded was serialised: the chunks read stand in the file and mean the pixels. */
  lemma {:induction false} BodyRead(data: Bytes, bodyEnd: nat, total: nat, pos: nat, s: State, out: seq<Pixel>)
    returns (chunks: seq<Chunk>)
    requires bodyEnd <= |data| && s.Valid() && |out| <= total
    requires Body(data, bodyEnd, total, pos, s, out).Ok?
    ensures var (pixels, next) := Body(data, bodyEnd, total, pos, s, out).value;
            && ValidChunks(chunks)
            && pos <= next <= |data| + pos && (next <= bodyEnd || next == pos)
            && (next <= |data| ==> data[pos..next] == SerializeAll(chunks))
            && total - |out| <= |Meaning(chunks, s)|
            && pixels == out + Meaning(chunks, s)[..total - |out|]
    decreases |data| - pos
  {
    hide ParseChunk, State.Next, State.Saw, Chunk.Serialize, Chunk.Count, Repeat;
    if |out| >= total {
      chunks := [];
      assert out + [] == out;
    } else {
      var r := ParseChunk(data, pos, bodyEnd);
      var p := s.Next(r.chunk);
      var k := Min(r.chunk.Count(), total - |out|);
      var rest := BodyRead(data, bodyEnd, total, r.next, s.Saw(p), out + Repeat(p, k));
      var next := Body(data, bodyEnd, total, pos, s, out).value.1;
      chunks := [r.chunk] + rest;
      assert chunks[1..] == rest;
      SerializeParsed(data, pos, bodyEnd);
      assert data[pos..next] == data[pos..r.next] + data[r.next..next];
      var tail := Meaning(rest, s.Saw(p));
      MeaningPrefix(p, r.chunk.Count(), tail, total - |out|);
      assert out + Repeat(p, k) + tail[..total - |out| - k] == out + (Repeat(p, k) + tail[..total - |out| - k]);
    }
  }

  /**
    Success means exactly the declared number of bytes, and that the file carries a chunk sequence,
    between its header and its end marker, that means those pixels.
    */
  lemma {:induction false} DecodedWasSerialized(data: Bytes)
    requires DecodeFile(data).Ok?
    ensures var image := DecodeFile(data).value;
            && image.width == ReadU32(data, 4) && image.height == ReadU32(data, 8)
            && |image.pixels| == Area(image.width, image.height) * 4 <= SIZE_MAX
            && exists chunks: seq<Chunk> ::
                 && ValidChunks(chunks)
                 && HEADER_LEN + |SerializeAll(chunks)| + 8 <= |data|
                 && data[HEADER_LEN..HEADER_LEN + |SerializeAll(chunks)|] == SerializeAll(chunks)
                 && Area(image.width, image.height) <= |Meaning(chunks, Start())|
                 && image.pixels == Flatten(Meaning(chunks, Start())[..Area(image.width, image.height)])
  {
    hide Area, ReadU32, Body, Flatten, Start, Meaning, SerializeAll;
    var total := Area(ReadU32(data, 4), ReadU32(data, 8));
    var chunks := BodyRead(data, BodyEnd(data), total, HEADER_LEN, Start(), []);
    var (pixels, next) := Body(data, BodyEnd(data), total, HEADER_LEN, Start(), []).value;
    assert [] + Meaning(chunks, Start())[..total] == Meaning(chunks, Start())[..total];
    assert |data[HEADER_LEN..next]| == next - HEADER_LEN;
    FlattenLength(pixels);
  }

  lemma {:induction false} FlattenLength(pixels: seq<Pixel>)
    ensures |Flatten(pixels)| == 4 * |pixels|
  {
  }

  // ---------------------------------------------------------------------------------------------
  // The index
  // ---------------------------------------------------------------------------------------------

  /** Where a pixel's slot is: from slot 0 for the pixel of zeros, 3, 5, 7 or 11 further for each step of a channel. */
  lemma {:induction false} Slots(p: Pixel)
    ensures Hash(Pixel(0, 0, 0, 0)) == 0
    ensures p.r < 255 ==> Hash(p.(r := p.r + 1)) == (Hash(p) + 3) % 64
    ensures p.g < 255 ==> Hash(p.(g := p.g + 1)) == (Hash(p) + 5) % 64
    ensures p.b < 255 ==> Hash(p.(b := p.b + 1)) == (Hash(p) + 7) % 64
    ensures p.a < 255 ==> Hash(p.(a := p.a + 1)) == (Hash(p) + 11) % 64
  {
    var n := p.r * 3 + p.g * 5 + p.b * 7 + p.a * 11;
    Slot(n, 3);
    Slot(n, 5);
    Slot(n, 7);
    Slot(n, 11);
  }

  lemma {:induction false} Slot(n: int, d: int)
    ensures (n + d) % 64 == (n % 64 + d) % 64
  {
  }

  /** The state after these pixels. */
  function After(seen: seq<Pixel>): (s: State)
    ensures s.Valid()
  {
    if seen == [] then Start() else After(seen[..|seen| - 1]).Saw(seen[|seen| - 1])
  }

  /** The last of the pixels seen with this slot; transparent black where none was. */
  function LastIn(seen: seq<Pixel>, slot: nat): Pixel {
    if seen == [] then Pixel(0, 0, 0, 0)
    else if Hash(seen[|seen| - 1]) == slot then seen[|seen| - 1]
    else LastIn(seen[..|seen| - 1], slot)
  }

  /**
    What the chunks that look back give: an index chunk the last pixel seen in its slot, a run the last
    pixel of all; before anything was seen, transparent and opaque black.
    */
  lemma {:induction false} LookingBack(seen: seq<Pixel>, slot: nat, length: nat)
    requires slot < 64 && 1 <= length <= 62
    ensures After(seen).Next(Index(slot)) == LastIn(seen, slot)
    ensures After(seen).Next(Run(length)) == if seen == [] then Pixel(0, 0, 0, 255) else seen[|seen| - 1]
  {
    hide Hash;
    if seen != [] {
      LookingBack(seen[..|seen| - 1], slot, length);
    }
  }

  /** So a pixel comes back by its slot for as long as no other pixel of that slot was seen. */
  lemma {:induction false} IndexBringsBack(seen: seq<Pixel>, p: Pixel, since: seq<Pixel>)
    requires forall i | 0 <= i < |since| :: Hash(since[i]) != Hash(p)
    ensures After(seen + [p] + since).Next(Index(Hash(p))) == p
  {
    hide Hash;
    var all := seen + [p] + since;
    LookingBack(all, Hash(p), 1);
    StaysLast(seen, p, since);
  }

  lemma {:induction false} StaysLast(seen: seq<Pixel>, p: Pixel, since: seq<Pixel>)
    requires forall i | 0 <= i < |since| :: Hash(since[i]) != Hash(p)
    ensures LastIn(seen + [p] + since, Hash(p)) == p
    decreases |since|
  {
    hide Hash;
    var all := seen + [p] + since;
    if since != [] {
      assert all[..|all| - 1] == seen + [p] + since[..|since| - 1];
      StaysLast(seen, p, since[..|since| - 1]);
    }
  }
}
