/** UTF-8, as section 3 of RFC 3629 defines it, and the validator the C++ asset plugin carries. */
module Utf8 {
  import opened Wrappers

  type byte = x: int | 0 <= x < 256

  predicate IsScalar(code: nat) {
    code < 0xD800 || 0xE000 <= code <= 0x10FFFF
  }

  // ---------------------------------------------------------------------------------------------
  // Encoding
  // ---------------------------------------------------------------------------------------------

  function Continuation(bits: nat): byte {
    0x80 + bits % 64
  }

  function Encode(c: char): (bytes: seq<byte>)
    ensures 1 <= |bytes| <= 4
  {
    var code := c as int;
    if code < 0x80 then
      [code]
    else if code < 0x800 then
      [0xC0 + code / 64, Continuation(code)]
    else if code < 0x10000 then
      [0xE0 + code / 64 / 64, Continuation(code / 64), Continuation(code)]
    else
      [0xF0 + code / 64 / 64 / 64, Continuation(code / 64 / 64), Continuation(code / 64), Continuation(code)]
  }

  function EncodeString(s: string): seq<byte> {
    if s == "" then [] else Encode(s[0]) + EncodeString(s[1..])
  }

  // ---------------------------------------------------------------------------------------------
  // Decoding
  // ---------------------------------------------------------------------------------------------

  predicate IsContinuation(b: byte) {
    0x80 <= b < 0xC0
  }

  /** Continuation bytes a lead byte announces, or `None` for a byte that cannot lead. */
  function Extra(lead: byte): (extra: Option<nat>)
    ensures extra.Some? ==> extra.value <= 3
  {
    if lead < 0x80 then Some(0)
    else if 0xC0 <= lead < 0xE0 then Some(1)
    else if 0xE0 <= lead < 0xF0 then Some(2)
    else if 0xF0 <= lead < 0xF8 then Some(3)
    else None
  }

  predicate Continues(bytes: seq<byte>, extra: nat) {
    extra < |bytes| && forall k | 1 <= k <= extra :: IsContinuation(bytes[k])
  }

  function LeadBits(lead: byte, extra: nat): nat {
    match extra
    case 0 => lead
    case 1 => lead % 32
    case 2 => lead % 16
    case _ => lead % 8
  }

  /** The code point after `k` continuation bytes have been shifted in. */
  function Gather(bytes: seq<byte>, extra: nat, k: nat): nat
    requires k < |bytes|
  {
    if k == 0 then LeadBits(bytes[0], extra) else Gather(bytes, extra, k - 1) * 64 + bytes[k] % 64
  }

  /** Not an overlong form, not a surrogate, not past the last code point. */
  predicate Admissible(code: nat, extra: nat) {
    && IsScalar(code)
    && (extra == 1 ==> 0x80 <= code)
    && (extra == 2 ==> 0x800 <= code)
    && (extra == 3 ==> 0x10000 <= code)
  }

  /** The character at the front, and how many bytes it takes. */
  function DecodeOne(bytes: seq<byte>): (r: Option<(char, nat)>)
    ensures r.Some? ==> 1 <= r.value.1 <= |bytes|
  {
    if bytes == [] || Extra(bytes[0]).None? then None
    else
      var extra := Extra(bytes[0]).value;
      if !Continues(bytes, extra) then None
      else
        var code := Gather(bytes, extra, extra);
        if !Admissible(code, extra) then None else Some((code as char, extra + 1))
  }

  function DecodeString(bytes: seq<byte>): Option<string>
    decreases |bytes|
  {
    if bytes == [] then Some("")
    else
      match DecodeOne(bytes)
      case None => None
      case Some((c, n)) =>
        match DecodeString(bytes[n..])
        case None => None
        case Some(rest) => Some([c] + rest)
  }

  // ---------------------------------------------------------------------------------------------
  // Decoding inverts encoding, and accepts nothing else
  // ---------------------------------------------------------------------------------------------

  /** Shifting six bits in and taking them out again. */
  lemma {:induction false} GatherStep(bytes: seq<byte>, extra: nat, k: nat)
    requires 1 <= k < |bytes| && IsContinuation(bytes[k])
    ensures Gather(bytes, extra, k) / 64 == Gather(bytes, extra, k - 1)
    ensures Continuation(Gather(bytes, extra, k)) == bytes[k]
  {
    hide LeadBits;
    var high: nat, low: nat := Gather(bytes, extra, k - 1), bytes[k] % 64;
    assert Gather(bytes, extra, k) == high * 64 + low;
    assert (high * 64 + low) / 64 == high && (high * 64 + low) % 64 == low;
  }

  lemma {:induction false} GatherContinuation(bytes: seq<byte>, extra: nat, k: nat, code: nat)
    requires 1 <= k < |bytes| && bytes[k] == Continuation(code)
    requires Gather(bytes, extra, k - 1) == code / 64
    ensures Gather(bytes, extra, k) == code && IsContinuation(bytes[k])
  {
    hide LeadBits;
  }

  lemma {:induction false} DecodeOneEncode(c: char, rest: seq<byte>)
    ensures DecodeOne(Encode(c) + rest) == Some((c, |Encode(c)|))
  {
    hide Continuation, Continues;
    var code: nat := c as int;
    var bytes, extra := Encode(c) + rest, |Encode(c)| - 1;
    EncodedGathers(c, rest);
    EncodedLead(c);
    assert bytes[0] == Encode(c)[0];
  }

  lemma {:induction false} EncodedLead(c: char)
    ensures Extra(Encode(c)[0]) == Some(|Encode(c)| - 1)
    ensures Admissible(c as int, |Encode(c)| - 1)
  {
  }

  lemma {:induction false} EncodedGathers(c: char, rest: seq<byte>)
    ensures var bytes, extra := Encode(c) + rest, |Encode(c)| - 1;
            Continues(bytes, extra) && Gather(bytes, extra, extra) == c as int
  {
    hide Continuation, IsContinuation;
    var code: nat := c as int;
    var bytes := Encode(c) + rest;
    if code < 0x80 {
    } else if code < 0x800 {
      GatherContinuation(bytes, 1, 1, code);
    } else if code < 0x10000 {
      GatherContinuation(bytes, 2, 1, code / 64);
      GatherContinuation(bytes, 2, 2, code);
    } else {
      GatherContinuation(bytes, 3, 1, code / 64 / 64);
      GatherContinuation(bytes, 3, 2, code / 64);
      GatherContinuation(bytes, 3, 3, code);
    }
  }

  lemma {:induction false} EncodeGathered(bytes: seq<byte>, extra: nat)
    requires bytes != [] && Extra(bytes[0]) == Some(extra) && Continues(bytes, extra)
    requires Admissible(Gather(bytes, extra, extra), extra)
    ensures Encode(Gather(bytes, extra, extra) as char) == bytes[..extra + 1]
  {
    hide Continuation, Gather, LeadBits;
    LeadGathered(bytes, extra);
    if extra == 0 {
      assert bytes[..1] == [bytes[0]];
    } else if extra == 1 {
      GatherStep(bytes, 1, 1);
      assert bytes[..2] == [bytes[0], bytes[1]];
    } else if extra == 2 {
      GatherStep(bytes, 2, 1);
      GatherStep(bytes, 2, 2);
      assert bytes[..3] == [bytes[0], bytes[1], bytes[2]];
    } else {
      GatherStep(bytes, 3, 1);
      GatherStep(bytes, 3, 2);
      GatherStep(bytes, 3, 3);
      assert bytes[..4] == [bytes[0], bytes[1], bytes[2], bytes[3]];
    }
  }

  lemma {:induction false} LeadGathered(bytes: seq<byte>, extra: nat)
    requires bytes != [] && Extra(bytes[0]) == Some(extra)
    ensures bytes[0] == Gather(bytes, extra, 0) + [0, 0xC0, 0xE0, 0xF0][extra]
  {
  }

  lemma {:induction false} EncodeDecodeOne(bytes: seq<byte>)
    requires DecodeOne(bytes).Some?
    ensures var (c, n) := DecodeOne(bytes).value; Encode(c) == bytes[..n]
  {
    hide Gather, Continues, Encode;
    EncodeGathered(bytes, Extra(bytes[0]).value);
  }

  lemma {:induction false} DecodeEncode(s: string)
    ensures DecodeString(EncodeString(s)) == Some(s)
  {
    hide DecodeOne, Encode;
    if s != "" {
      var bytes, rest := EncodeString(s), EncodeString(s[1..]);
      DecodeOneEncode(s[0], rest);
      assert bytes[|Encode(s[0])|..] == rest;
      DecodeEncode(s[1..]);
      assert [s[0]] + s[1..] == s;
    }
  }

  lemma {:induction false} EncodeDecode(bytes: seq<byte>)
    requires DecodeString(bytes).Some?
    ensures EncodeString(DecodeString(bytes).value) == bytes
    decreases |bytes|
  {
    hide DecodeOne, Encode;
    if bytes != [] {
      var (c, n) := DecodeOne(bytes).value;
      EncodeDecodeOne(bytes);
      EncodeDecode(bytes[n..]);
      var s := DecodeString(bytes).value;
      assert s[1..] == DecodeString(bytes[n..]).value;
      assert bytes == bytes[..n] + bytes[n..];
    }
  }

  /** No two strings share an encoding. */
  lemma {:induction false} EncodeInjective(a: string, b: string)
    requires EncodeString(a) == EncodeString(b)
    ensures a == b
  {
    DecodeEncode(a);
    DecodeEncode(b);
  }

  lemma {:induction false} EncodeConcat(a: string, b: string)
    ensures EncodeString(a + b) == EncodeString(a) + EncodeString(b)
  {
    if a == "" {
      assert a + b == b;
    } else {
      assert (a + b)[1..] == a[1..] + b;
      EncodeConcat(a[1..], b);
    }
  }

  // ---------------------------------------------------------------------------------------------
  // The validator
  // ---------------------------------------------------------------------------------------------

  lemma {:induction false} ValidStep(text: seq<byte>, at: nat)
    requires at < |text|
    ensures DecodeString(text[at..]).Some? <==>
            DecodeOne(text[at..]).Some? && DecodeString(text[at + DecodeOne(text[at..]).value.1..]).Some?
  {
    hide DecodeOne;
    if DecodeOne(text[at..]).Some? {
      var n := DecodeOne(text[at..]).value.1;
      assert text[at..][n..] == text[at + n..];
    }
  }

  lemma {:induction false} ValidMeansEncoded(text: seq<byte>)
    ensures DecodeString(text).Some? <==> exists s: string :: EncodeString(s) == text
  {
    if DecodeString(text).Some? {
      EncodeDecode(text);
    }
    if s: string :| EncodeString(s) == text {
      DecodeEncode(s);
    }
  }

  /** One turn of the validator: the lead byte, its continuation bytes, and the checks on the result. */
  method TakeOne(text: seq<byte>, at: nat) returns (n: Option<nat>)
    requires at < |text|
    ensures n.Some? <==> DecodeOne(text[at..]).Some?
    ensures n.Some? ==> n.value == DecodeOne(text[at..]).value.1
  {
    ghost var left := text[at..];
    var lead := text[at];
    var extra: nat, code: nat := 0, 0;
    if lead < 0x80 {
      assert Gather(left, 0, 0) == left[0];
      return Some(1);
    }
    if 0xC0 <= lead < 0xE0 {
      extra, code := 1, lead % 32;
    } else if 0xE0 <= lead < 0xF0 {
      extra, code := 2, lead % 16;
    } else if 0xF0 <= lead < 0xF8 {
      extra, code := 3, lead % 8;
    } else {
      return None;
    }
    assert Extra(left[0]) == Some(extra);
    if at + extra >= |text| {
      return None;
    }
    var k := 1;
    while k <= extra
      invariant 1 <= k <= extra + 1
      invariant code == Gather(left, extra, k - 1)
      invariant forall j | 1 <= j < k :: IsContinuation(left[j])
    {
      var cont := text[at + k];
      assert cont == left[k];
      if !(0x80 <= cont < 0xC0) {
        return None;
      }
      code := code * 64 + cont % 64;
      k := k + 1;
    }
    if (extra == 1 && code < 0x80) || (extra == 2 && code < 0x800) || (extra == 3 && code < 0x10000)
       || code > 0x10FFFF || 0xD800 <= code <= 0xDFFF {
      return None;
    }
    n := Some(extra + 1);
  }

  /** Accepts exactly the byte strings that are the encoding of some string of scalar values. */
  method IsUtf8(text: seq<byte>) returns (ok: bool)
    ensures ok <==> exists s: string :: EncodeString(s) == text
  {
    hide DecodeOne;
    var at := 0;
    assert text[0..] == text;
    ValidMeansEncoded(text);
    while at < |text|
      invariant at <= |text|
      invariant DecodeString(text).Some? <==> DecodeString(text[at..]).Some?
    {
      ValidStep(text, at);
      var n := TakeOne(text, at);
      if n == None {
        return false;
      }
      at := at + n.value;
    }
    assert text[at..] == [];
    ok := true;
  }
}
