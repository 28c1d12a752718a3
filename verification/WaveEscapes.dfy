/**
  Code point escapes: which digits the reader takes for which character.

  A number is spelled here by its digits, most significant first, in either case and with leading
  zeros; `CodePointsReadBack` says a spelling of up to six digits is read as the UTF-8 of its number,
  and `OnlySpelledOnes` that nothing else between the braces is read at all.
  */
module WaveEscapes {
  import opened Wrappers
  import opened Utf8
  import opened WaveReaders
  import opened WaveTheorems

  /** `0123456789abcdef` and `0123456789ABCDEF`. */
  const LOWER_DIGITS: Bytes := [
    0x30, 0x31, 0x32, 0x33, 0x34, 0x35, 0x36, 0x37, 0x38, 0x39, 0x61, 0x62, 0x63, 0x64, 0x65, 0x66
  ]
  const UPPER_DIGITS: Bytes := [
    0x30, 0x31, 0x32, 0x33, 0x34, 0x35, 0x36, 0x37, 0x38, 0x39, 0x41, 0x42, 0x43, 0x44, 0x45, 0x46
  ]

  predicate IsDigitFor(b: byte, d: nat) {
    d < 16 && (b == LOWER_DIGITS[d] || b == UPPER_DIGITS[d])
  }

  /** The digits spell the number, leading zeros allowed. */
  predicate Spells(digits: Bytes, n: nat)
    decreases |digits|
  {
    if digits == [] then n == 0
    else IsDigitFor(digits[|digits| - 1], n % 16) && Spells(digits[..|digits| - 1], n / 16)
  }

  lemma {:induction false} DigitRead(b: byte, d: nat)
    ensures HexDigit(b) == Some(d) <==> IsDigitFor(b, d)
  {
  }

  lemma {:induction false} SpelledOneMore(digits: Bytes, b: byte, n: nat, d: nat)
    requires Spells(digits, n) && IsDigitFor(b, d)
    ensures Spells(digits + [b], n * 16 + d)
  {
    assert (digits + [b])[..|digits|] == digits;
    assert (n * 16 + d) / 16 == n && (n * 16 + d) % 16 == d;
  }

  lemma {:induction false} SpelledOnce(digits: Bytes, m: nat, n: nat)
    requires Spells(digits, m) && Spells(digits, n)
    ensures m == n
    decreases |digits|
  {
    if digits != [] {
      var last := digits[|digits| - 1];
      DigitRead(last, m % 16);
      DigitRead(last, n % 16);
      SpelledOnce(digits[..|digits| - 1], m / 16, n / 16);
    }
  }

  lemma {:induction false} SpelledDigit(digits: Bytes, n: nat, k: nat) returns (d: nat)
    requires Spells(digits, n) && k < |digits|
    ensures IsDigitFor(digits[k], d)
    decreases |digits|
  {
    if k == |digits| - 1 {
      d := n % 16;
    } else {
      d := SpelledDigit(digits[..|digits| - 1], n / 16, k);
    }
  }

  lemma {:induction false} SpelledBelow(digits: Bytes, n: nat)
    requires Spells(digits, n)
    ensures n < Pow16(|digits|)
    decreases |digits|
  {
    if digits != [] {
      SpelledBelow(digits[..|digits| - 1], n / 16);
    }
  }

  lemma {:induction false} HexGoesOn(text: Bytes, at: nat, value: nat, digits: nat, d: nat)
    requires at < |text| && IsDigitFor(text[at], d) && digits < 6 && value < Pow16(digits)
    ensures value * 16 + d < Pow16(digits + 1)
    ensures HexFrom(text, at, value, digits) == HexFrom(text, at + 1, value * 16 + d, digits + 1)
  {
    DigitRead(text[at], d);
  }

  lemma {:induction false} HexStops(text: Bytes, at: nat, value: nat, digits: nat)
    requires at <= |text| && digits <= 6 && value < Pow16(digits)
    ensures at == |text| || text[at] == CLOSE_BRACE ==> HexFrom(text, at, value, digits) == Some((value, at))
    ensures at < |text| && text[at] != CLOSE_BRACE && HexFrom(text, at, value, digits).Some? ==>
              digits < 6 && HexDigit(text[at]).Some?
  {
  }

  /** Having read some digits, the reader goes through the others to the brace. */
  lemma {:induction false} ReadsDigits(text: Bytes, at: nat, front: Bytes, value: nat, back: Bytes, n: nat)
    requires Spells(front, value) && Spells(front + back, n) && |front + back| <= 6
    requires Holds(text, at, back + [CLOSE_BRACE])
    ensures value < Pow16(|front|) && HexFrom(text, at, value, |front|) == Some((n, at + |back|))
    decreases |back|
  {
    hide Spells, IsDigitFor, HexDigit, Pow16, Holds, HexFrom;
    SpelledBelow(front, value);
    InText(text, at, back + [CLOSE_BRACE]);
    HoldsByte(text, at, back + [CLOSE_BRACE], 0);
    if back == [] {
      assert front + back == front;
      SpelledOnce(front, value, n);
      HexStops(text, at, value, |front|);
    } else {
      var d := SpelledDigit(front + back, n, |front|);
      assert front + back == front + [back[0]] + back[1..];
      SpelledOneMore(front, back[0], value, d);
      HexGoesOn(text, at, value, |front|, d);
      OneFromFront(text, at, back);
      ReadsDigits(text, at + 1, front + [back[0]], value * 16 + d, back[1..], n);
    }
  }

  lemma {:induction false} OneFromFront(text: Bytes, at: nat, back: Bytes)
    requires back != [] && Holds(text, at, back + [CLOSE_BRACE])
    ensures Holds(text, at + 1, back[1..] + [CLOSE_BRACE])
  {
    assert back + [CLOSE_BRACE] == [back[0]] + (back[1..] + [CLOSE_BRACE]);
    HoldsSplit(text, at, [back[0]], back[1..] + [CLOSE_BRACE]);
    hide Holds;
  }

  lemma {:induction false} InText(text: Bytes, at: nat, part: Bytes)
    requires Holds(text, at, part)
    ensures at + |part| <= |text|
  {
  }

  lemma {:induction false} BracedDigits(text: Bytes, at: nat, digits: Bytes)
    requires Holds(text, at, [OPEN_BRACE] + (digits + [CLOSE_BRACE]))
    ensures Holds(text, at + 1, digits + [CLOSE_BRACE])
    ensures Expected(text, at, OPEN_BRACE) == Some(at + 1)
    ensures Expected(text, at + 1 + |digits|, CLOSE_BRACE) == Some(at + 2 + |digits|)
  {
    HoldsSplit(text, at, [OPEN_BRACE], digits + [CLOSE_BRACE]);
    HoldsByte(text, at, [OPEN_BRACE], 0);
    HoldsByte(text, at + 1, digits + [CLOSE_BRACE], |digits|);
  }

  /** Between the braces: up to six digits read as the number they spell, and then as its bytes. */
  lemma {:induction false} CodePointsReadBack(text: Bytes, at: nat, digits: Bytes, n: nat)
    requires Spells(digits, n) && |digits| <= 6
    requires Holds(text, at, [OPEN_BRACE] + (digits + [CLOSE_BRACE]))
    ensures n < 0x100_0000 && CodePointFrom(text, at) == Some((Utf8Of(n), at + |digits| + 2))
  {
    assert Spells([], 0) && [] + digits == digits;
    hide Spells, Holds, HexFrom, Expected, Utf8Of;
    BracedDigits(text, at, digits);
    ReadsDigits(text, at + 1, [], 0, digits, n);
  }

  /** A character escaped by its number, in a string of its own, is read as its UTF-8. */
  lemma {:induction false} EscapedCharacterReads(digits: Bytes, c: char)
    requires Spells(digits, c as nat) && |digits| <= 6
    ensures var text := [QUOTE, BACKSLASH, 0x75, OPEN_BRACE] + (digits + [CLOSE_BRACE, QUOTE]);
            TextFrom(text, 0) == Some((Encode(c), |text|))
  {
    var text := [QUOTE, BACKSLASH, 0x75, OPEN_BRACE] + (digits + [CLOSE_BRACE, QUOTE]);
    var braced := [OPEN_BRACE] + (digits + [CLOSE_BRACE]);
    assert text[3..3 + |braced|] == braced;
    CodePointsReadBack(text, 3, digits, c as nat);
    ScalarsEncode(c);
    hide CodePointFrom, Encode, Utf8Of, Spells;
    var next := 5 + |digits|;
    assert text[next] == QUOTE && next + 1 == |text|;
    assert BodyFrom(text, next) == Some(([], next + 1));
    assert EscapeFrom(text, 2) == Some((Encode(c), next));
    assert Encode(c) + [] == Encode(c);
  }

  /** Nothing else is: what is read between the braces spells the number, in at most six digits. */
  lemma {:induction false} OnlySpelledOnes(text: Bytes, at: nat, front: Bytes, value: nat)
    requires |front| <= 6 && Spells(front, value) && value < Pow16(|front|)
    requires HexFrom(text, at, value, |front|).Some? && at <= |text|
    ensures var (n, end) := HexFrom(text, at, value, |front|).value;
            && at <= end <= |text| && |front| + (end - at) <= 6
            && Spells(front + text[at..end], n)
            && (end < |text| ==> text[end] == CLOSE_BRACE)
    decreases |text| - at
  {
    hide Spells, IsDigitFor, HexDigit, Pow16, HexFrom;
    HexStops(text, at, value, |front|);
    if at < |text| && text[at] != CLOSE_BRACE {
      var d := HexDigit(text[at]).value;
      DigitRead(text[at], d);
      HexGoesOn(text, at, value, |front|, d);
      SpelledOneMore(front, text[at], value, d);
      OnlySpelledOnes(text, at + 1, front + [text[at]], value * 16 + d);
      var (n, end) := HexFrom(text, at, value, |front|).value;
      assert front + text[at..end] == front + [text[at]] + text[at + 1..end];
    } else {
      assert front + text[at..at] == front;
    }
  }
}
