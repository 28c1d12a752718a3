/**
  The value a buffer makes of a type, as a function of its bytes.

  Where the draws of a value end, and which are refused, is `Drawing`; here is what they come to.
  */
module Making {
  import opened Wrappers
  import opened Utf8
  import opened ComponentTypes
  import opened Drawing

  const TWO_64 := 0x1_0000_0000_0000_0000

  const INTERESTING_INTS: seq<nat> := [
    0, 1, 2, 7,
    0x7f, 0x80, 0xff,
    0x7fff, 0x8000, 0xffff,
    0x7fff_ffff, 0x8000_0000, 0xffff_ffff,
    0x7fff_ffff_ffff_ffff, 0x8000_0000_0000_0000, 0xffff_ffff_ffff_ffff
  ]

  const INTERESTING_CHARS: seq<char> := [
    '\0', '\n', '\r', '\t', '\"', '\\', '\'', ' ', 'a', '~',
    '\U{7f}', '\U{80}', '\U{e9}', '\U{65e5}', '\U{1f980}',
    '\U{d7ff}', '\U{e000}', '\U{10ffff}', '\U{feff}', '\U{2028}', '\U{85}'
  ]

  const INTERESTING_STRINGS: seq<string> := [
    "", " ", "  ", "\n", "\r\n", "\t", "\"", "\\", "\"\\\n\t\r",
    "arg ", "value ", "unit", "  arg \"x\"", "error WT_ERR_TRAP \"boom\"",
    "watoots:example/log@0.1.0 emit", "watoots-trace 1",
    "\0", "\U{1}\U{7f}", "h\U{e9}llo", "\U{65e5}\U{672c}\U{8a9e}", "\U{1f980}", "\U{feff}",
    "a\U{85}b", "a\U{2028}b", "unresolved TODO"
  ]

  /** The bits of 0, -0, 1, -1, 0.1, -0.1, both infinities, NaN, and the ends of the finite range. */
  const INTERESTING_F32: seq<nat> := [
    0, 0x8000_0000, 0x3f80_0000, 0xbf80_0000, 0x3dcc_cccd, 0xbdcc_cccd,
    0x7f80_0000, 0xff80_0000, 0x7fc0_0000,
    0xff7f_ffff, 0x7f7f_ffff, 0x3400_0000, 0x0080_0000
  ]

  const INTERESTING_F64: seq<nat> := [
    0, 0x8000_0000_0000_0000, 0x3ff0_0000_0000_0000, 0xbff0_0000_0000_0000,
    0x3fb9_9999_9999_999a, 0xbfb9_9999_9999_999a,
    0x7ff0_0000_0000_0000, 0xfff0_0000_0000_0000, 0x7ff8_0000_0000_0000,
    0xffef_ffff_ffff_ffff, 0x7fef_ffff_ffff_ffff, 0x3cb0_0000_0000_0000, 0x0010_0000_0000_0000
  ]

  // ---------------------------------------------------------------------------------------------
  // Scalars
  // ---------------------------------------------------------------------------------------------

  function Pow256(n: nat): (p: nat)
    ensures 0 < p
  {
    if n == 0 then 1 else 256 * Pow256(n - 1)
  }

  lemma {:induction false} Pow256Eight()
    ensures Pow256(4) == 0x1_0000_0000 && Pow256(8) == TWO_64
  {
    assert Pow256(2) == 0x1_0000;
    assert Pow256(4) == 0x1_0000_0000;
    assert Pow256(6) == 0x1_0000_0000_0000;
  }

  /** `width` bytes from an offset on, least significant first. */
  function LittleEndianAt(bytes: seq<byte>, at: nat, width: nat): (n: nat)
    ensures n < Pow256(width)
    ensures |bytes| <= at ==> n == 0
  {
    if width == 0 then 0
    else
      var low, high: nat := LittleEndianAt(bytes, at, width - 1), Drawn(bytes, at + width - 1);
      ShiftedBelow(high, Pow256(width - 1), low);
      low + high * Pow256(width - 1)
  }

  /** A character drawn: the table's, or four bytes' worth, folded under the surrogates when it is none. */
  function CharacterAt(bytes: seq<byte>, at: nat): char {
    if IsOdd(bytes, at) then
      var raw := LittleEndianAt(bytes, at + 1, 4);
      if IsScalar(raw) then raw as char else (raw % 0xd800) as char
    else
      INTERESTING_CHARS[Picked(bytes, at + 1, |INTERESTING_CHARS|)]
  }

  /** The fold costs nothing: every character there is can be drawn. */
  lemma {:induction false} EveryCharacterIsDrawn(c: char)
    ensures exists bytes: seq<byte> :: CharacterAt(bytes, 0) == c
  {
    var n := c as nat;
    Base256(n);
    var low: byte, middle: byte, high: byte := n % 256, n / 256 % 256, n / 0x1_0000;
    hide LittleEndianAt, Pow256, CharacterAt;
    ThreeBytes(low, middle, high);
    RawCharacter([1, low, middle, high, 0], c);
  }

  lemma {:induction false} Base256(n: nat)
    ensures n == n % 256 + 256 * (n / 256 % 256) + 0x1_0000 * (n / 0x1_0000)
  {
  }

  lemma {:induction false} RawCharacter(bytes: seq<byte>, c: char)
    requires IsOdd(bytes, 0) && LittleEndianAt(bytes, 1, 4) == c as nat
    ensures CharacterAt(bytes, 0) == c
  {
  }

  lemma {:induction false} ThreeBytes(low: nat, middle: nat, high: nat)
    requires low < 256 && middle < 256 && high < 256
    ensures LittleEndianAt([1, low, middle, high, 0], 1, 4) == low + 256 * middle + 0x1_0000 * high
  {
    var bytes: seq<byte> := [1, low, middle, high, 0];
    assert LittleEndianAt(bytes, 1, 1) == low;
    assert LittleEndianAt(bytes, 1, 2) == low + 256 * middle;
    assert Pow256(2) == 0x1_0000;
    assert LittleEndianAt(bytes, 1, 3) == low + 256 * middle + 0x1_0000 * high;
  }

  lemma {:induction false} ByteTimes(high: nat, unit: nat)
    requires high < 256
    ensures 0 <= high * unit <= 255 * unit && (high == 0 ==> high * unit == 0)
  {
  }

  lemma {:induction false} ShiftedBelow(high: nat, unit: nat, low: nat)
    requires high < 256 && low < unit
    ensures 0 <= high * unit && low + high * unit < 256 * unit
    ensures high == 0 ==> high * unit == 0
  {
    ByteTimes(high, unit);
  }

  lemma {:induction false} OneDown(low: nat, width: IntType)
    requires low < width.Width()
    ensures low % width.Width() == low && (low - width.Width()) % width.Width() == low
  {
  }

  /** The cast to a narrower integer: the low bits, reinterpreted. */
  function Cast(width: IntType, n: nat): (x: Number)
    ensures x.width == width
    ensures x.n % width.Width() == n % width.Width()
    ensures n == 0 ==> x.n == 0
  {
    var w: nat := width.Width();
    var low := n % w;
    OneDown(low, width);
    Number(width, if width.Signed() && low >= w / 2 then low - w else low)
  }

  function IntAt(bytes: seq<byte>, at: nat): nat {
    if IsOdd(bytes, at) then LittleEndianAt(bytes, at + 1, 8)
    else INTERESTING_INTS[Picked(bytes, at + 1, |INTERESTING_INTS|)]
  }

  /** The bits of a float of the given width: one of the table's, or any. */
  function FloatAt(bytes: seq<byte>, at: nat, width: nat, table: seq<nat>): nat
    requires 1 < |table|
  {
    if IsOdd(bytes, at) then LittleEndianAt(bytes, at + 1, width) else table[Picked(bytes, at + 1, |table|)]
  }

  function CharactersAt(bytes: seq<byte>, at: nat, count: nat): (s: string)
    ensures |s| == count
    decreases count
  {
    if count == 0 then "" else [CharacterAt(bytes, at)] + CharactersAt(bytes, AfterTableOr(bytes, at, 4), count - 1)
  }

  function TextAt(bytes: seq<byte>, at: nat, cap: nat): string {
    if IsOdd(bytes, at) then CharactersAt(bytes, AfterPick(at + 1, cap + 1), Picked(bytes, at + 1, cap + 1))
    else INTERESTING_STRINGS[Picked(bytes, at + 1, |INTERESTING_STRINGS|)]
  }

  /** The names whose byte is odd, in order. */
  function FlagsAt(names: seq<string>, bytes: seq<byte>, at: nat): seq<string> {
    if names == [] then []
    else (if IsOdd(bytes, at) then [names[0]] else []) + FlagsAt(names[1..], bytes, at + 1)
  }

  // ---------------------------------------------------------------------------------------------
  // Values
  // ---------------------------------------------------------------------------------------------

  /** Where the next draw starts; anywhere, after one that was refused. */
  function Onward(end: Option<nat>): nat {
    match end
    case Some(at) => at
    case None => 0
  }

  /** The value drawn from an offset on; of no interest where `End` says the draw is refused. */
  function Draw(ty: Ty, depth: nat, cap: nat, bytes: seq<byte>, at: nat): Val
    decreases ty, 2
  {
    match ty
    case Bool => BoolVal(IsOdd(bytes, at))
    case Int(width) => IntVal(Cast(width, IntAt(bytes, at)))
    case Float32 => Float32Val(FloatAt(bytes, at, 4, INTERESTING_F32))
    case Float64 => Float64Val(FloatAt(bytes, at, 8, INTERESTING_F64))
    case Char => CharVal(CharacterAt(bytes, at))
    case String => StringVal(TextAt(bytes, at, cap))
    case ListOf(item) =>
      var bound := CountBound(depth, cap);
      ListVal(DrawRepeat(item, Picked(bytes, at, bound), Shallower(depth), cap, bytes, AfterPick(at, bound)))
    case FixedLengthList(item, length) =>
      FixedLengthListVal(DrawRepeat(item, length, Shallower(depth), cap, bytes, at))
    case Tuple(_) => TupleVal(DrawTypes(ty, 0, Shallower(depth), cap, bytes, at))
    case Record(_) => RecordVal(DrawFields(ty, 0, Shallower(depth), cap, bytes, at))
    case Variant(cases) =>
      if cases == [] then ResourceVal
      else
        var k := Picked(bytes, at, |cases|);
        VariantVal(cases[k].name, DrawPayload(cases[k].ty, depth, cap, bytes, AfterPick(at, |cases|)))
    case Enum(names) => if names == [] then ResourceVal else EnumVal(names[Picked(bytes, at, |names|)])
    case OptionOf(some) =>
      if depth == 0 || !IsOdd(bytes, at) then OptionVal(None)
      else OptionVal(Some(Draw(some, Shallower(depth), cap, bytes, at + 1)))
    case ResultOf(ok, err) =>
      ResultVal(!IsOdd(bytes, at), DrawPayload(if IsOdd(bytes, at) then err else ok, depth, cap, bytes, at + 1))
    case Flags(names) => FlagsVal(FlagsAt(names, bytes, at))
    case _ => ResourceVal
  }

  function DrawRepeat(item: Ty, count: nat, depth: nat, cap: nat, bytes: seq<byte>, at: nat): (items: seq<Val>)
    ensures |items| == count
    decreases item, 3, count
  {
    if count == 0 then []
    else
      [Draw(item, depth, cap, bytes, at)]
      + DrawRepeat(item, count - 1, depth, cap, bytes, Onward(End(item, depth, cap, bytes, at)))
  }

  function DrawTypes(ty: Ty, from: nat, depth: nat, cap: nat, bytes: seq<byte>, at: nat): (items: seq<Val>)
    requires ty.Tuple? && from <= |ty.types|
    ensures |items| == |ty.types| - from
    decreases ty, 1, |ty.types| - from
  {
    if from == |ty.types| then []
    else
      [Draw(ty.types[from], depth, cap, bytes, at)]
      + DrawTypes(ty, from + 1, depth, cap, bytes, Onward(End(ty.types[from], depth, cap, bytes, at)))
  }

  function DrawFields(ty: Ty, from: nat, depth: nat, cap: nat, bytes: seq<byte>, at: nat): (fields: seq<FieldVal>)
    requires ty.Record? && from <= |ty.fields|
    ensures |fields| == |ty.fields| - from
    decreases ty, 1, |ty.fields| - from
  {
    if from == |ty.fields| then []
    else
      [FieldVal(ty.fields[from].name, Draw(ty.fields[from].ty, depth, cap, bytes, at))]
      + DrawFields(ty, from + 1, depth, cap, bytes, Onward(End(ty.fields[from].ty, depth, cap, bytes, at)))
  }

  function DrawPayload(declared: Option<Ty>, depth: nat, cap: nat, bytes: seq<byte>, at: nat): Option<Val>
    decreases declared, 3
  {
    match declared
    case None => None
    case Some(ty) => Some(Draw(ty, Shallower(depth), cap, bytes, at))
  }
}
