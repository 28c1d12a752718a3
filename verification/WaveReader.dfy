/**
  The WAVE quoter and reader of the C++ example hosts.

  Text is bytes. The functions say what a reader that has not failed reads from an offset, `None` when
  it fails; the class advances a cursor with a sticky failure flag.
  */
module WaveReaders {
  import opened Wrappers
  import opened Utf8

  type Bytes = seq<byte>

  const QUOTE: byte := 0x22
  const BACKSLASH: byte := 0x5C
  const COMMA: byte := 0x2C
  const OPEN_BRACE: byte := 0x7B
  const CLOSE_BRACE: byte := 0x7D
  const U64_MAX := 0xFFFF_FFFF_FFFF_FFFF

  predicate IsSpace(b: byte) {
    b == 0x20 || b == 0x09 || b == 0x0A || b == 0x0D
  }

  predicate IsOpen(b: byte) {
    b == 0x7B || b == 0x5B || b == 0x28
  }

  predicate IsClose(b: byte) {
    b == 0x7D || b == 0x5D || b == 0x29
  }

  predicate IsDigit(b: byte) {
    0x30 <= b <= 0x39
  }

  // ---------------------------------------------------------------------------------------------
  // Quoting
  // ---------------------------------------------------------------------------------------------

  function QuoteByte(b: byte): (q: Bytes)
    ensures 1 <= |q| <= 2
  {
    if b == QUOTE then [BACKSLASH, QUOTE]
    else if b == BACKSLASH then [BACKSLASH, BACKSLASH]
    else if b == 0x0A then [BACKSLASH, 0x6E]
    else if b == 0x0D then [BACKSLASH, 0x72]
    else if b == 0x09 then [BACKSLASH, 0x74]
    else [b]
  }

  function QuoteBody(s: Bytes): Bytes {
    if s == [] then [] else QuoteBody(s[..|s| - 1]) + QuoteByte(s[|s| - 1])
  }

  function Quoted(s: Bytes): Bytes {
    [QUOTE] + QuoteBody(s) + [QUOTE]
  }

  method Quote(s: Bytes) returns (out: Bytes)
    ensures out == Quoted(s)
  {
    out := [QUOTE];
    for i := 0 to |s|
      invariant out == [QUOTE] + QuoteBody(s[..i])
    {
      assert s[..i + 1][..i] == s[..i];
      if s[i] == QUOTE {
        out := out + [BACKSLASH, QUOTE];
      } else if s[i] == BACKSLASH {
        out := out + [BACKSLASH, BACKSLASH];
      } else if s[i] == 0x0A {
        out := out + [BACKSLASH, 0x6E];
      } else if s[i] == 0x0D {
        out := out + [BACKSLASH, 0x72];
      } else if s[i] == 0x09 {
        out := out + [BACKSLASH, 0x74];
      } else {
        out := out + [s[i]];
      }
    }
    assert s[..|s|] == s;
    out := out + [QUOTE];
  }

  // ---------------------------------------------------------------------------------------------
  // Reading
  // ---------------------------------------------------------------------------------------------

  function SkipSpaceFrom(text: Bytes, at: nat): (to: nat)
    ensures at <= to && (at <= |text| ==> to <= |text|)
    ensures to < |text| ==> !IsSpace(text[to])
    ensures forall i | at <= i < to && i < |text| ::
              text[i] == 0x20 || text[i] == 0x09 || text[i] == 0x0A || text[i] == 0x0D
    ensures to < |text| ==> text[to] != 0x20 && text[to] != 0x09 && text[to] != 0x0A && text[to] != 0x0D
    decreases |text| - at
  {
    if at < |text| && IsSpace(text[at]) then SkipSpaceFrom(text, at + 1) else at
  }

  /** After an expected byte, white space before it skipped. */
  function Expected(text: Bytes, at: nat, b: byte): (next: Option<nat>)
    ensures next.Some? ==> at < next.value <= |text|
  {
    var to := SkipSpaceFrom(text, at);
    if to < |text| && text[to] == b then Some(to + 1) else None
  }

  function HexDigit(b: byte): (digit: Option<nat>)
    ensures digit.Some? ==> digit.value < 16
  {
    if 0x30 <= b <= 0x39 then Some(b - 0x30)
    else if 0x61 <= b <= 0x66 then Some(b - 0x61 + 10)
    else if 0x41 <= b <= 0x46 then Some(b - 0x41 + 10)
    else None
  }

  function Pow16(n: nat): nat {
    if n == 0 then 1 else 16 * Pow16(n - 1)
  }

  /** Hex digits up to a closing brace, at most six in all. */
  function HexFrom(text: Bytes, at: nat, value: nat, digits: nat): (r: Option<(nat, nat)>)
    requires digits <= 6 && value < Pow16(digits)
    ensures r.Some? ==> r.value.0 < 0x100_0000 && at <= r.value.1
    decreases |text| - at
  {
    if at < |text| && text[at] != CLOSE_BRACE then
      match HexDigit(text[at])
      case None => None
      case Some(digit) =>
        if digits == 6 then None else HexFrom(text, at + 1, value * 16 + digit, digits + 1)
    else
      SixDigits(digits);
      Some((value, at))
  }

  lemma {:induction false} SixDigits(digits: nat)
    requires digits <= 6
    ensures Pow16(digits) <= 0x100_0000
  {
    assert Pow16(2) == 0x100 && Pow16(4) == 0x1_0000;
    assert Pow16(3) == 0x1000 && Pow16(5) == 0x10_0000;
    assert Pow16(6) == 0x100_0000;
  }

  /** The bytes of a code point; the bits of the last case are or'ed into a byte that has four set. */
  function Utf8Of(code: nat): (bytes: Bytes)
    requires code < 0x100_0000
  {
    if code < 0x80 then [code]
    else if code < 0x800 then [0xC0 + code / 64, 0x80 + code % 64]
    else if code < 0x10000 then [0xE0 + code / 4096, 0x80 + code / 64 % 64, 0x80 + code % 64]
    else [0xF0 + code / 0x4_0000 % 16, 0x80 + code / 4096 % 64, 0x80 + code / 64 % 64, 0x80 + code % 64]
  }

  function CodePointFrom(text: Bytes, at: nat): (r: Option<(Bytes, nat)>)
    ensures r.Some? ==> at < r.value.1
  {
    match Expected(text, at, OPEN_BRACE)
    case None => None
    case Some(from) =>
      match HexFrom(text, from, 0, 0)
      case None => None
      case Some((value, end)) =>
        match Expected(text, end, CLOSE_BRACE)
        case None => None
        case Some(next) => Some((Utf8Of(value), next))
  }

  /** What a backslash stands for, read from the byte after it. */
  function EscapeFrom(text: Bytes, at: nat): (r: Option<(Bytes, nat)>)
    ensures r.Some? ==> at < r.value.1
  {
    if at >= |text| then None
    else if text[at] == 0x6E then Some(([0x0A], at + 1))
    else if text[at] == 0x72 then Some(([0x0D], at + 1))
    else if text[at] == 0x74 then Some(([0x09], at + 1))
    else if text[at] == 0x75 then CodePointFrom(text, at + 1)
    else Some(([text[at]], at + 1))
  }

  function BodyFrom(text: Bytes, at: nat): (r: Option<(Bytes, nat)>)
    ensures r.Some? ==> at < r.value.1
    decreases |text| - at
  {
    if at >= |text| then None
    else if text[at] == QUOTE then Some(([], at + 1))
    else
      var head := if text[at] == BACKSLASH then EscapeFrom(text, at + 1) else Some(([text[at]], at + 1));
      match head
      case None => None
      case Some((first, next)) =>
        match BodyFrom(text, next)
        case None => None
        case Some((rest, end)) => Some((first + rest, end))
  }

  /** A quoted string, escapes resolved, and the offset after it. */
  function TextFrom(text: Bytes, at: nat): (r: Option<(Bytes, nat)>)
    ensures r.Some? ==> at < r.value.1
  {
    match Expected(text, at, QUOTE)
    case None => None
    case Some(from) => BodyFrom(text, from)
  }

  predicate AtValueEnd(text: Bytes, at: nat) {
    at >= |text| || text[at] == COMMA || IsClose(text[at])
  }

  /** Where skipping one value stops, `depth` brackets deep. */
  function SkipFrom(text: Bytes, at: nat, depth: nat): Option<nat>
    decreases |text| - at, 0
  {
    if at >= |text| then Some(at)
    else if text[at] == QUOTE then
      match TextFrom(text, at)
      case None => None
      case Some((_, next)) => AfterPart(text, next, depth)
    else if IsOpen(text[at]) then AfterPart(text, at + 1, depth + 1)
    else if IsClose(text[at]) then
      if depth == 0 then Some(at) else AfterPart(text, at + 1, depth - 1)
    else if text[at] == COMMA && depth == 0 then Some(at)
    else AfterPart(text, at + 1, depth)
  }

  function AfterPart(text: Bytes, at: nat, depth: nat): Option<nat>
    decreases |text| - at, 1
  {
    if depth > 0 then SkipFrom(text, at, depth)
    else
      var to := SkipSpaceFrom(text, at);
      if AtValueEnd(text, to) then Some(to) else SkipFrom(text, to, 0)
  }

  function DigitsEnd(text: Bytes, at: nat): (end: nat)
    ensures at <= end && (at <= |text| ==> end <= |text|)
    ensures forall i | at <= i < end :: i < |text| && IsDigit(text[i])
    ensures end < |text| ==> !IsDigit(text[end])
    decreases |text| - at
  {
    if at < |text| && IsDigit(text[at]) then DigitsEnd(text, at + 1) else at
  }

  /** The number a run of digits spells. */
  function NumberOf(digits: Bytes): nat
    requires forall i | 0 <= i < |digits| :: IsDigit(digits[i])
  {
    if digits == [] then 0
    else
      assert IsDigit(digits[|digits| - 1]);
      NumberOf(digits[..|digits| - 1]) * 10 + (digits[|digits| - 1] - 0x30)
  }

  // ---------------------------------------------------------------------------------------------
  // The reader
  // ---------------------------------------------------------------------------------------------

  class WaveReader {
    const text: Bytes
    var at: nat
    var failed: bool

    predicate Valid()
      reads this
    {
      at <= |text|
    }

    constructor (text: Bytes)
      ensures Valid() && this.text == text && at == 0 && !failed
    {
      this.text, at, failed := text, 0, false;
    }

    method Reject()
      modifies this`failed
      ensures failed
    {
      failed := true;
    }

    method SkipSpace()
      requires Valid()
      modifies this`at
      ensures Valid() && at == SkipSpaceFrom(text, old(at))
    {
      while at < |text| && IsSpace(text[at])
        invariant at <= |text| && SkipSpaceFrom(text, at) == SkipSpaceFrom(text, old(at))
      {
        at := at + 1;
      }
    }

    method Peek(b: byte) returns (there: bool)
      requires Valid()
      modifies this`at
      ensures Valid() && at == SkipSpaceFrom(text, old(at))
      ensures there <==> !failed && at < |text| && text[at] == b
    {
      SkipSpace();
      there := !failed && at < |text| && text[at] == b;
    }

    method Take(b: byte) returns (taken: bool)
      requires Valid()
      modifies this`at
      ensures Valid()
      ensures taken <==> !failed && Expected(text, old(at), b).Some?
      ensures taken ==> at == Expected(text, old(at), b).value
    {
      taken := Peek(b);
      if taken {
        at := at + 1;
      }
    }

    method Expect(b: byte)
      requires Valid()
      modifies this
      ensures Valid()
      ensures failed <==> old(failed) || Expected(text, old(at), b).None?
      ensures !failed ==> at == Expected(text, old(at), b).value
    {
      var taken := Take(b);
      if !taken {
        Reject();
      }
    }

    method CodePoint() returns (out: Bytes)
      requires Valid()
      modifies this
      ensures Valid()
      ensures failed <==> old(failed) || CodePointFrom(text, old(at)).None?
      ensures !failed ==> CodePointFrom(text, old(at)) == Some((out, at))
    {
      Expect(OPEN_BRACE);
      out := [];
      if failed {
        return;
      }
      var value: nat, digits: nat := 0, 0;
      ghost var whole := HexFrom(text, at, 0, 0);
      while at < |text| && text[at] != CLOSE_BRACE
        invariant at <= |text| && !failed && digits <= 6 && value < Pow16(digits)
        invariant HexFrom(text, at, value, digits) == whole
      {
        var digit := HexDigit(text[at]);
        at := at + 1;
        if digit.None? || digits + 1 > 6 {
          Reject();
          return;
        }
        value, digits := value * 16 + digit.value, digits + 1;
      }
      SixDigits(digits);
      Expect(CLOSE_BRACE);
      if !failed {
        out := Utf8Of(value);
      }
    }

    method Escape() returns (out: Bytes)
      requires Valid()
      modifies this
      ensures Valid()
      ensures failed <==> old(failed) || EscapeFrom(text, old(at)).None?
      ensures !failed ==> EscapeFrom(text, old(at)) == Some((out, at))
    {
      out := [];
      if at >= |text| {
        Reject();
        return;
      }
      var b := text[at];
      at := at + 1;
      if b == 0x6E {
        out := [0x0A];
      } else if b == 0x72 {
        out := [0x0D];
      } else if b == 0x74 {
        out := [0x09];
      } else if b == 0x75 {
        out := CodePoint();
      } else {
        out := [b];
      }
    }

    /** A quoted string. */
    method Text() returns (out: Bytes)
      requires Valid()
      modifies this
      ensures Valid()
      ensures failed <==> old(failed) || TextFrom(text, old(at)).None?
      ensures !failed ==> TextFrom(text, old(at)) == Some((out, at))
    {
      Expect(QUOTE);
      out := [];
      ghost var start := at;
      BeforeNothing(BodyFrom(text, start));
      while !failed && at < |text|
        invariant Valid()
        invariant old(failed) || Expected(text, old(at), QUOTE).None? ==> failed
        invariant failed ==> old(failed) || TextFrom(text, old(at)).None?
        invariant !failed ==>
                    && Expected(text, old(at), QUOTE) == Some(start) && start <= at
                    && BodyFrom(text, start) == Before(out, BodyFrom(text, at))
        decreases !failed, |text| - at
      {
        var b := text[at];
        at := at + 1;
        if b == QUOTE {
          assert out + [] == out;
          return;
        }
        if b == BACKSLASH {
          var escaped := Escape();
          if !failed {
            BeforeMore(out, escaped, BodyFrom(text, at));
          }
          out := out + escaped;
        } else {
          BeforeMore(out, [b], BodyFrom(text, at));
          out := out + [b];
        }
      }
      Reject();
      out := [];
    }

    /** Consume one value without interpreting it. */
    method SkipValue()
      requires Valid()
      modifies this
      ensures Valid()
      ensures failed <==> old(failed) || SkipFrom(text, SkipSpaceFrom(text, old(at)), 0).None?
      ensures !failed ==> SkipFrom(text, SkipSpaceFrom(text, old(at)), 0) == Some(at)
    {
      var depth: nat := 0;
      SkipSpace();
      ghost var whole := SkipFrom(text, at, 0);
      while !failed && at < |text|
        invariant Valid()
        invariant failed <==> old(failed) || (failed && whole.None?)
        invariant !failed ==> SkipFrom(text, at, depth) == whole
        decreases !failed, |text| - at
      {
        var b := text[at];
        if b == QUOTE {
          var _ := Text();
        } else if IsOpen(b) {
          depth := depth + 1;
          at := at + 1;
        } else if IsClose(b) {
          if depth == 0 {
            return;
          }
          depth := depth - 1;
          at := at + 1;
        } else if b == COMMA && depth == 0 {
          return;
        } else {
          at := at + 1;
        }
        if depth == 0 {
          SkipSpace();
          if at >= |text| || text[at] == COMMA || IsClose(text[at]) {
            return;
          }
        }
      }
    }

    /** An unsigned integer within 64 bits. */
    method Number64() returns (value: nat)
      requires Valid()
      modifies this
      ensures Valid()
      ensures var start := SkipSpaceFrom(text, old(at));
              var end := DigitsEnd(text, start);
              && (failed <==> old(failed) || start == end || NumberOf(text[start..end]) >= 0x1_0000_0000_0000_0000)
              && (!failed ==> value == NumberOf(text[start..end]) && at == end)
    {
      hide NumberOf;
      SkipSpace();
      var start := at;
      NoDigits();
      assert text[start..start] == [];
      ghost var end := DigitsEnd(text, at);
      value := 0;
      while !failed && at < |text| && IsDigit(text[at])
        invariant Valid() && start <= at <= end == DigitsEnd(text, at) && failed == old(failed)
        invariant !failed ==> value == NumberOf(text[start..at]) <= U64_MAX
      {
        var digit: nat := text[at] - 0x30;
        OverflowTest(value, digit);
        OneDigitMore(text, start, at);
        if value > (U64_MAX - digit) / 10 {
          PrefixNotLarger(text, start, at + 1, end);
          Reject();
          return 0;
        }
        value := value * 10 + digit;
        at := at + 1;
      }
      if at == start {
        Reject();
        return 0;
      }
    }
  }

  function Before(front: Bytes, r: Option<(Bytes, nat)>): Option<(Bytes, nat)> {
    match r
    case None => None
    case Some((rest, end)) => Some((front + rest, end))
  }

  lemma {:induction false} BeforeNothing(r: Option<(Bytes, nat)>)
    ensures Before([], r) == r
  {
    if r.Some? {
      assert [] + r.value.0 == r.value.0;
    }
  }

  /** The overflow test before a digit is taken is exact. */
  lemma {:induction false} OverflowTest(value: nat, digit: nat)
    requires digit <= 9
    ensures value > (U64_MAX - digit) / 10 <==> value * 10 + digit > U64_MAX
  {
  }

  lemma {:induction false} PrefixNotLarger(text: Bytes, start: nat, mid: nat, end: nat)
    requires start <= mid <= end <= |text| && forall i | start <= i < end :: IsDigit(text[i])
    ensures NumberOf(text[start..mid]) <= NumberOf(text[start..end])
  {
    NumberGrows(text[start..end], mid - start);
    assert text[start..end][..mid - start] == text[start..mid];
  }

  lemma {:induction false} NoDigits()
    ensures NumberOf([]) == 0
  {
  }

  lemma {:induction false} OneDigitMore(text: Bytes, start: nat, at: nat)
    requires start <= at < |text| && forall i | start <= i <= at :: IsDigit(text[i])
    ensures NumberOf(text[start..at + 1]) == NumberOf(text[start..at]) * 10 + (text[at] as int - 0x30)
  {
    assert text[start..at + 1][..at - start] == text[start..at];
  }

  lemma {:induction false} BeforeMore(front: Bytes, more: Bytes, r: Option<(Bytes, nat)>)
    ensures Before(front, Before(more, r)) == Before(front + more, r)
  {
    if r.Some? {
      assert front + (more + r.value.0) == front + more + r.value.0;
    }
  }

  /** Further digits never make a number smaller. */
  lemma {:induction false} NumberGrows(digits: Bytes, n: nat)
    requires n <= |digits| && forall i | 0 <= i < |digits| :: IsDigit(digits[i])
    ensures NumberOf(digits[..n]) <= NumberOf(digits)
    decreases |digits|
  {
    if n < |digits| {
      NumberGrows(digits[..|digits| - 1], n);
      assert digits[..|digits| - 1][..n] == digits[..n];
    } else {
      assert digits[..n] == digits;
    }
  }
}
