/** What the WAVE reader of the example hosts promises about what it is given. */
module WaveTheorems {
  import opened Wrappers
  import opened Utf8
  import opened WaveReaders

  /** `text` holds `part` at an offset. */
  predicate Holds(text: Bytes, at: nat, part: Bytes) {
    at + |part| <= |text| && text[at..at + |part|] == part
  }

  lemma {:induction false} HoldsSplit(text: Bytes, at: nat, a: Bytes, b: Bytes)
    requires Holds(text, at, a + b)
    ensures Holds(text, at, a) && Holds(text, at + |a|, b)
  {
    var whole := text[at..at + |a + b|];
    assert text[at..at + |a|] == whole[..|a|];
    assert text[at + |a|..at + |a| + |b|] == whole[|a|..];
  }

  lemma {:induction false} HoldsByte(text: Bytes, at: nat, part: Bytes, k: nat)
    requires Holds(text, at, part) && k < |part|
    ensures text[at + k] == part[k]
  {
    assert text[at..at + |part|][k] == text[at + k];
  }

  // ---------------------------------------------------------------------------------------------
  // Quoted strings
  // ---------------------------------------------------------------------------------------------

  lemma {:induction false} BodyOnOneLine(s: Bytes)
    ensures forall b | b in QuoteBody(s) :: b != 0x0A && b != 0x0D && b != 0x09
    decreases |s|
  {
    if s != [] {
      BodyOnOneLine(s[..|s| - 1]);
      var last := QuoteByte(s[|s| - 1]);
      assert forall b | b in last :: b != 0x0A && b != 0x0D && b != 0x09;
    }
  }

  /** A quoted string is on one line, without tabs or carriage returns, and ends where its quote says. */
  lemma {:induction false} QuotedOnOneLine(s: Bytes)
    ensures forall b | b in Quoted(s) :: b != 0x0A && b != 0x0D && b != 0x09
    ensures |Quoted(s)| == |QuoteBody(s)| + 2 && Quoted(s)[0] == QUOTE == Quoted(s)[|Quoted(s)| - 1]
  {
    BodyOnOneLine(s);
  }

  lemma {:induction false} ReadQuotedByte(text: Bytes, at: nat, b: byte)
    requires Holds(text, at, QuoteByte(b))
    ensures BodyFrom(text, at) == Before([b], BodyFrom(text, at + |QuoteByte(b)|))
  {
    HoldsByte(text, at, QuoteByte(b), 0);
    if |QuoteByte(b)| == 2 {
      HoldsByte(text, at, QuoteByte(b), 1);
    }
  }

  /** The body from the other end: reading the bytes quoted, then the rest. */
  lemma {:induction false} ReadQuoteBody(text: Bytes, at: nat, s: Bytes)
    requires Holds(text, at, QuoteBody(s))
    ensures BodyFrom(text, at) == Before(s, BodyFrom(text, at + |QuoteBody(s)|))
    decreases |s|
  {
    hide BodyFrom, QuoteByte;
    if s == [] {
      BeforeNothing(BodyFrom(text, at));
    } else {
      var front, last := s[..|s| - 1], s[|s| - 1];
      HoldsSplit(text, at, QuoteBody(front), QuoteByte(last));
      ReadQuoteBody(text, at, front);
      ReadQuotedByte(text, at + |QuoteBody(front)|, last);
      BeforeMore(front, [last], BodyFrom(text, at + |QuoteBody(s)|));
      assert front + [last] == s;
    }
  }

  /** Whatever the bytes, and whatever comes after: a quoted string is read back as it was. */
  lemma {:induction false} TextReadsQuoted(text: Bytes, at: nat, s: Bytes)
    requires Holds(text, at, Quoted(s))
    ensures TextFrom(text, at) == Some((s, at + |Quoted(s)|))
  {
    hide QuoteBody;
    HoldsSplit(text, at, [QUOTE] + QuoteBody(s), [QUOTE]);
    HoldsSplit(text, at, [QUOTE], QuoteBody(s));
    HoldsByte(text, at, [QUOTE], 0);
    HoldsByte(text, at + 1 + |QuoteBody(s)|, [QUOTE], 0);
    ReadQuoteBody(text, at + 1, s);
    assert s + [] == s;
  }

  /** Quote, then read: the same bytes, and nothing left over. */
  method QuoteThenText(s: Bytes) returns (back: Option<Bytes>)
    ensures back == Some(s)
  {
    var quoted := Quote(s);
    var reader := new WaveReader(quoted);
    var out := reader.Text();
    assert Holds(quoted, 0, Quoted(s));
    TextReadsQuoted(quoted, 0, s);
    back := if reader.failed then None else Some(out);
  }

  // ---------------------------------------------------------------------------------------------
  // Skipping a printed value
  // ---------------------------------------------------------------------------------------------

  /** A bare word or number: no space, quote, bracket or comma in it. */
  predicate IsPlain(b: byte) {
    !IsSpace(b) && b != QUOTE && !IsOpen(b) && !IsClose(b) && b != COMMA
  }

  predicate IsWord(s: Bytes) {
    s != [] && forall i | 0 <= i < |s| :: IsPlain(s[i])
  }

  datatype Bracket = Brace | Square | Round
  {
    function Opening(): byte {
      match this case Brace => 0x7B case Square => 0x5B case Round => 0x28
    }

    function Closing(): byte {
      match this case Brace => 0x7D case Square => 0x5D case Round => 0x29
    }
  }

  datatype Part = Part(field: Option<Bytes>, value: Wave)

  /** A value as it is printed: words, strings, records, lists, tuples, flags, and cases with a payload. */
  datatype Wave =
    | Word(word: Bytes)
    | Str(content: Bytes)
    | Group(bracket: Bracket, parts: seq<Part>)
    | Applied(name: Bytes, payload: Wave)

  predicate WellFormed(v: Wave)
    decreases v
  {
    match v
    case Word(word) => IsWord(word)
    case Str(_) => true
    case Group(_, parts) =>
      forall i | 0 <= i < |parts| ::
        (parts[i].field.Some? ==> IsWord(parts[i].field.value)) && WellFormed(parts[i].value)
    case Applied(name, payload) => IsWord(name) && WellFormed(payload)
  }

  function Print(v: Wave): Bytes
    decreases v, 2, 0
  {
    match v
    case Word(word) => word
    case Str(content) => Quoted(content)
    case Group(bracket, parts) => [bracket.Opening()] + (PrintParts(v, 0) + [bracket.Closing()])
    case Applied(name, payload) => name + ([Round.Opening()] + (Print(payload) + [Round.Closing()]))
  }

  const SEPARATOR: Bytes := [0x2C, 0x20]
  const COLON: Bytes := [0x3A, 0x20]

  function PrintField(field: Option<Bytes>): Bytes {
    match field
    case None => []
    case Some(name) => name + COLON
  }

  /** The parts from `from` on, separated. */
  function PrintParts(v: Wave, from: nat): Bytes
    requires v.Group? && from <= |v.parts|
    decreases v, 1, |v.parts| - from
  {
    if from == |v.parts| then []
    else
      PrintField(v.parts[from].field)
      + (Print(v.parts[from].value) + (Separator(v, from) + PrintParts(v, from + 1)))
  }

  function Separator(v: Wave, from: nat): Bytes
    requires v.Group?
  {
    if from + 1 >= |v.parts| then [] else SEPARATOR
  }

  predicate Passable(part: Bytes) {
    forall i | 0 <= i < |part| :: part[i] != QUOTE && !IsOpen(part[i]) && !IsClose(part[i])
  }

  lemma {:induction false} PartsPassable(v: Wave, from: nat)
    requires v.Group? && from < |v.parts| && WellFormed(v)
    ensures Passable(PrintField(v.parts[from].field)) && Passable(Separator(v, from)) && WellFormed(v.parts[from].value)
  {
  }

  /** Inside brackets, bytes that are neither quotes nor brackets are passed over. */
  lemma {:induction false} PassOver(text: Bytes, at: nat, part: Bytes, depth: nat)
    requires Holds(text, at, part) && 0 < depth
    requires Passable(part)
    ensures SkipFrom(text, at, depth) == SkipFrom(text, at + |part|, depth)
    decreases |part|
  {
    if part != [] {
      HoldsByte(text, at, part, 0);
      assert part == [part[0]] + part[1..];
      HoldsSplit(text, at, [part[0]], part[1..]);
      PassOver(text, at + 1, part[1..], depth);
    }
  }

  lemma {:induction false} PassBracket(text: Bytes, at: nat, bracket: Bracket, depth: nat)
    ensures Holds(text, at, [bracket.Opening()]) ==> SkipFrom(text, at, depth) == SkipFrom(text, at + 1, depth + 1)
    ensures Holds(text, at, [bracket.Closing()]) && 0 < depth ==>
              SkipFrom(text, at, depth) == AfterPart(text, at + 1, depth - 1)
    ensures 1 < depth ==> AfterPart(text, at + 1, depth - 1) == SkipFrom(text, at + 1, depth - 1)
  {
    if Holds(text, at, [bracket.Opening()]) {
      HoldsByte(text, at, [bracket.Opening()], 0);
    }
    if Holds(text, at, [bracket.Closing()]) {
      HoldsByte(text, at, [bracket.Closing()], 0);
    }
  }

  lemma {:induction false} PassString(text: Bytes, at: nat, content: Bytes, depth: nat)
    requires Holds(text, at, Quoted(content))
    ensures SkipFrom(text, at, depth) == AfterPart(text, at + |Quoted(content)|, depth)
  {
    TextReadsQuoted(text, at, content);
    HoldsSplit(text, at, [QUOTE] + QuoteBody(content), [QUOTE]);
    HoldsSplit(text, at, [QUOTE], QuoteBody(content));
    HoldsByte(text, at, [QUOTE], 0);
    hide TextFrom, QuoteBody;
  }

  /** Inside brackets a whole value is passed over, with the depth it was met at. */
  lemma {:induction false} PassValue(text: Bytes, at: nat, v: Wave, depth: nat)
    requires WellFormed(v) && Holds(text, at, Print(v)) && 0 < depth
    ensures SkipFrom(text, at, depth) == SkipFrom(text, at + |Print(v)|, depth)
    decreases v, 2, 0
  {
    hide SkipFrom, Holds, Quoted;
    match v {
      case Word(word) => PassOver(text, at, word, depth);
      case Str(content) =>
        PassString(text, at, content, depth);
        AfterDeep(text, at + |Quoted(content)|, depth);
      case Group(bracket, parts) =>
        var inner := PrintParts(v, 0);
        HoldsSplit(text, at, [bracket.Opening()], inner + [bracket.Closing()]);
        HoldsSplit(text, at + 1, inner, [bracket.Closing()]);
        PassBracket(text, at, bracket, depth);
        PassParts(text, at + 1, v, 0, depth + 1);
        PassBracket(text, at + 1 + |inner|, bracket, depth + 1);
      case Applied(name, payload) =>
        PassPayload(text, at, name, payload, depth);
    }
  }

  lemma {:induction false} PassPayload(text: Bytes, at: nat, name: Bytes, payload: Wave, depth: nat)
    requires IsWord(name) && WellFormed(payload) && Holds(text, at, Print(Applied(name, payload))) && 0 < depth
    ensures SkipFrom(text, at, depth) == SkipFrom(text, at + |Print(Applied(name, payload))|, depth)
    decreases payload, 3, 0
  {
    hide SkipFrom, Holds;
    var inner := Print(payload);
    HoldsSplit(text, at, name, [Round.Opening()] + (inner + [Round.Closing()]));
    HoldsSplit(text, at + |name|, [Round.Opening()], inner + [Round.Closing()]);
    HoldsSplit(text, at + |name| + 1, inner, [Round.Closing()]);
    PassOver(text, at, name, depth);
    PassBracket(text, at + |name|, Round, depth);
    PassValue(text, at + |name| + 1, payload, depth + 1);
    PassBracket(text, at + |name| + 1 + |inner|, Round, depth + 1);
  }

  lemma {:induction false} AfterDeep(text: Bytes, at: nat, depth: nat)
    requires 0 < depth
    ensures AfterPart(text, at, depth) == SkipFrom(text, at, depth)
  {
  }

  lemma {:induction false} PassParts(text: Bytes, at: nat, v: Wave, from: nat, depth: nat)
    requires v.Group? && from <= |v.parts| && WellFormed(v)
    requires Holds(text, at, PrintParts(v, from)) && 0 < depth
    ensures SkipFrom(text, at, depth) == SkipFrom(text, at + |PrintParts(v, from)|, depth)
    decreases v, 1, |v.parts| - from
  {
    hide SkipFrom, Holds, Print, Passable, PrintField, Separator, WellFormed;
    if from < |v.parts| {
      PartsPassable(v, from);
      var part := v.parts[from];
      var field, value, separator := PrintField(part.field), Print(part.value), Separator(v, from);
      var rest := PrintParts(v, from + 1);
      HoldsSplit(text, at, field, value + (separator + rest));
      HoldsSplit(text, at + |field|, value, separator + rest);
      HoldsSplit(text, at + |field| + |value|, separator, rest);
      PassOver(text, at, field, depth);
      PassValue(text, at + |field|, part.value, depth);
      PassOver(text, at + |field| + |value|, separator, depth);
      PassParts(text, at + |field| + |value| + |separator|, v, from + 1, depth);
    }
  }

  /** A delimiter: a comma or a closing bracket, or the end of the text. */
  lemma {:induction false} StopsAtDelimiter(text: Bytes, at: nat)
    requires AtValueEnd(text, at)
    ensures AfterPart(text, at, 0) == Some(at)
  {
    assert SkipSpaceFrom(text, at) == at;
  }

  /** Outside brackets a word is passed over up to a delimiter or an opening bracket. */
  lemma {:induction false} PassWord(text: Bytes, at: nat, word: Bytes)
    requires IsWord(word) && Holds(text, at, word)
    ensures var end := at + |word|;
            && (AtValueEnd(text, end) ==> SkipFrom(text, at, 0) == Some(end))
            && (end < |text| && IsOpen(text[end]) ==> SkipFrom(text, at, 0) == SkipFrom(text, end, 0))
    decreases |word|
  {
    HoldsByte(text, at, word, 0);
    if |word| == 1 {
      if AtValueEnd(text, at + 1) {
        StopsAtDelimiter(text, at + 1);
      }
    } else {
      HoldsByte(text, at, word, 1);
      assert word == [word[0]] + word[1..];
      HoldsSplit(text, at, [word[0]], word[1..]);
      PassWord(text, at + 1, word[1..]);
      assert IsPlain(word[1]);
    }
  }

  lemma {:induction false} SkipFromStart(text: Bytes, at: nat, v: Wave)
    requires WellFormed(v) && Holds(text, at, Print(v)) && AtValueEnd(text, at + |Print(v)|)
    ensures SkipFrom(text, at, 0) == Some(at + |Print(v)|)
  {
    hide SkipFrom, Quoted, AfterPart, AtValueEnd, Holds;
    var end := at + |Print(v)|;
    StopsAtDelimiter(text, end);
    match v {
      case Word(word) => PassWord(text, at, word);
      case Str(content) => PassString(text, at, content, 0);
      case Group(bracket, parts) =>
        var inner := PrintParts(v, 0);
        HoldsSplit(text, at, [bracket.Opening()], inner + [bracket.Closing()]);
        HoldsSplit(text, at + 1, inner, [bracket.Closing()]);
        PassBracket(text, at, bracket, 0);
        PassParts(text, at + 1, v, 0, 1);
        PassBracket(text, at + 1 + |inner|, bracket, 1);
      case Applied(name, payload) =>
        var inner := Print(payload);
        HoldsSplit(text, at, name, [Round.Opening()] + (inner + [Round.Closing()]));
        HoldsSplit(text, at + |name|, [Round.Opening()], inner + [Round.Closing()]);
        HoldsSplit(text, at + |name| + 1, inner, [Round.Closing()]);
        OpeningAt(text, at + |name|);
        PassWord(text, at, name);
        PassBracket(text, at + |name|, Round, 0);
        PassValue(text, at + |name| + 1, payload, 1);
        PassBracket(text, at + |name| + 1 + |inner|, Round, 1);
    }
  }

  lemma {:induction false} PrintedStartsSolid(v: Wave)
    requires WellFormed(v)
    ensures Print(v) != [] && !IsSpace(Print(v)[0])
  {
    match v {
      case Word(word) => assert IsPlain(word[0]);
      case Str(_) =>
      case Group(_, _) =>
      case Applied(name, _) => assert IsPlain(name[0]);
    }
  }

  /** Skipping any printed value, however nested, stops exactly at the delimiter that follows it. */
  lemma {:induction false} SkipStopsAtDelimiter(text: Bytes, at: nat, v: Wave)
    requires WellFormed(v) && Holds(text, at, Print(v)) && AtValueEnd(text, at + |Print(v)|)
    ensures SkipFrom(text, SkipSpaceFrom(text, at), 0) == Some(at + |Print(v)|)
  {
    hide SkipFrom, Print, AtValueEnd;
    PrintedStartsSolid(v);
    HoldsByte(text, at, Print(v), 0);
    SkipFromStart(text, at, v);
  }

  lemma {:induction false} OpeningAt(text: Bytes, at: nat)
    requires Holds(text, at, [Round.Opening()])
    ensures at < |text| && IsOpen(text[at])
  {
    HoldsByte(text, at, [Round.Opening()], 0);
  }

  // ---------------------------------------------------------------------------------------------
  // Character literals
  // ---------------------------------------------------------------------------------------------

  const APOSTROPHE: byte := 0x27

  /** The bytes skipping looks at. */
  predicate Special(b: byte) {
    b == QUOTE || b == COMMA || IsOpen(b) || IsClose(b)
  }

  predicate Unremarkable(part: Bytes) {
    forall i | 0 <= i < |part| :: !Special(part[i])
  }

  /** A character as it is written: its bytes, or the bytes of an escape, the last of them apart. */
  function Literal(front: Bytes, last: byte): Bytes {
    [APOSTROPHE] + (front + ([last] + [APOSTROPHE]))
  }

  lemma {:induction false} SkipGoesOn(text: Bytes, at: nat, depth: nat)
    ensures SkipFrom(text, at, depth).Some? ==> at <= SkipFrom(text, at, depth).value
    ensures SkipFrom(text, at, depth).Some? && 0 < depth && at < |text| ==> at < SkipFrom(text, at, depth).value
    decreases |text| - at, 0
  {
    hide TextFrom;
    if at < |text| {
      if text[at] == QUOTE {
        if TextFrom(text, at).Some? {
          AfterGoesOn(text, TextFrom(text, at).value.1, depth);
        }
      } else {
        AfterGoesOn(text, at + 1, depth);
        AfterGoesOn(text, at + 1, depth + 1);
        if depth > 0 {
          AfterGoesOn(text, at + 1, depth - 1);
        }
      }
    }
  }

  lemma {:induction false} AfterGoesOn(text: Bytes, at: nat, depth: nat)
    ensures AfterPart(text, at, depth).Some? ==> at <= AfterPart(text, at, depth).value
    decreases |text| - at, 1
  {
    if depth > 0 {
      SkipGoesOn(text, at, depth);
    } else {
      SkipGoesOn(text, SkipSpaceFrom(text, at), 0);
    }
  }

  /** Outside brackets, unremarkable bytes are passed over up to one that is not white space. */
  lemma {:induction false} PassUnremarkable(text: Bytes, at: nat, part: Bytes)
    requires Holds(text, at, part) && Unremarkable(part)
    requires at + |part| < |text| && !IsSpace(text[at + |part|])
    ensures AfterPart(text, at, 0) == AfterPart(text, at + |part|, 0)
    decreases |part|
  {
    if part != [] {
      HoldsByte(text, at, part, 0);
      assert part == [part[0]] + part[1..];
      HoldsSplit(text, at, [part[0]], part[1..]);
      PassUnremarkable(text, at + 1, part[1..]);
    }
  }

  /** The closing apostrophe, with a delimiter after it. */
  lemma {:induction false} PassApostrophe(text: Bytes, at: nat)
    requires Holds(text, at, [APOSTROPHE]) && AtValueEnd(text, at + 1)
    ensures AfterPart(text, at, 0) == Some(at + 1)
    ensures SkipFrom(text, at, 1) == SkipFrom(text, at + 1, 1)
  {
    HoldsByte(text, at, [APOSTROPHE], 0);
    StopsAtDelimiter(text, at + 1);
    assert SkipSpaceFrom(text, at) == at;
  }

  /** From the last byte of the literal on. */
  lemma {:induction false} LastByteSkipped(text: Bytes, at: nat, last: byte)
    requires Holds(text, at, [last] + [APOSTROPHE]) && AtValueEnd(text, at + 2) && !IsSpace(last)
    ensures AfterPart(text, at, 0) == Some(at + 2) <==> !Special(last) || (IsOpen(last) && at + 2 == |text|)
  {
    HoldsSplit(text, at, [last], [APOSTROPHE]);
    HoldsByte(text, at, [last], 0);
    HoldsByte(text, at + 1, [APOSTROPHE], 0);
    PassApostrophe(text, at + 1);
    assert SkipSpaceFrom(text, at) == at;
    if IsOpen(last) {
      assert AfterPart(text, at, 0) == SkipFrom(text, at, 0) == AfterPart(text, at + 1, 1);
      AfterDeep(text, at + 1, 1);
      SkipGoesOn(text, at + 2, 1);
      assert at + 2 >= |text| ==> SkipFrom(text, at + 2, 1) == Some(at + 2);
    } else if last == QUOTE {
      assert SkipSpaceFrom(text, at) == at && Expected(text, at, QUOTE) == Some(at + 1);
      if TextFrom(text, at).Some? {
        QuoteReadsOn(text, at + 1);
        AfterGoesOn(text, TextFrom(text, at).value.1, 0);
      }
    }
  }

  /** A string that opens on an apostrophe ends past it. */
  lemma {:induction false} QuoteReadsOn(text: Bytes, at: nat)
    requires at < |text| && text[at] == APOSTROPHE && BodyFrom(text, at).Some?
    ensures at + 1 < BodyFrom(text, at).value.1
  {
  }

  /**
    Which character literals are skipped: `front` is what an escape begins with, or nothing. Those, and
    only those, whose last byte is neither a quote, a comma nor a bracket; but for an opening bracket at
    the very end of a text, where skipping runs out in the same place.
    */
  lemma {:induction false} CharacterLiteralSkipped(text: Bytes, at: nat, front: Bytes, last: byte)
    requires Holds(text, at, Literal(front, last)) && AtValueEnd(text, at + |Literal(front, last)|)
    requires Unremarkable(front)
    ensures var end := at + |Literal(front, last)|;
            SkipFrom(text, at, 0) == Some(end) <==> !Special(last) || (IsOpen(last) && end == |text|)
  {
    LiteralParts(text, at, front, last);
    hide Literal, SkipFrom, AfterPart, Holds, AtValueEnd, Unremarkable, Special;
    var q := at + 1 + |front|;
    if IsSpace(last) {
      SpaceIsPlain(last);
      HoldsUpTo(text, at + 1, front, last);
      PassUnremarkable(text, at + 1, front + [last]);
      PassApostrophe(text, q + 1);
    } else {
      PassUnremarkable(text, at + 1, front);
      LastByteSkipped(text, q, last);
    }
  }

  lemma {:induction false} SpaceIsPlain(b: byte)
    requires IsSpace(b)
    ensures !Special(b) && !IsOpen(b)
  {
  }

  lemma {:induction false} LiteralParts(text: Bytes, at: nat, front: Bytes, last: byte)
    requires Holds(text, at, Literal(front, last))
    ensures SkipFrom(text, at, 0) == AfterPart(text, at + 1, 0)
    ensures var q := at + 1 + |front|;
            && |Literal(front, last)| == |front| + 3 && q + 1 < |text|
            && text[q] == last && text[q + 1] == APOSTROPHE
            && Holds(text, at + 1, front) && Holds(text, q, [last] + [APOSTROPHE])
            && Holds(text, q, [last]) && Holds(text, q + 1, [APOSTROPHE])
  {
    var tail := [last] + [APOSTROPHE];
    HoldsSplit(text, at, [APOSTROPHE], front + tail);
    HoldsSplit(text, at + 1, front, tail);
    HoldsSplit(text, at + 1 + |front|, [last], [APOSTROPHE]);
    HoldsByte(text, at, [APOSTROPHE], 0);
    HoldsByte(text, at + 1 + |front|, [last], 0);
    HoldsByte(text, at + 2 + |front|, [APOSTROPHE], 0);
  }

  lemma {:induction false} HoldsUpTo(text: Bytes, at: nat, front: Bytes, last: byte)
    requires Holds(text, at, front) && Holds(text, at + |front|, [last]) && Unremarkable(front) && !Special(last)
    ensures Holds(text, at, front + [last]) && Unremarkable(front + [last])
  {
    HoldsByte(text, at + |front|, [last], 0);
    assert text[at..at + |front| + 1] == text[at..at + |front|] + [last];
  }

  const CODE_POINT: Bytes := [APOSTROPHE, BACKSLASH, 0x75]

  /** A code point escape, `\u{...}`. */
  function CodeLiteral(digits: Bytes): (literal: Bytes)
    ensures |literal| == |digits| + 6
  {
    CODE_POINT + ([OPEN_BRACE] + (digits + ([CLOSE_BRACE] + [APOSTROPHE])))
  }

  lemma {:induction false} CodeLiteralParts(text: Bytes, at: nat, digits: Bytes)
    requires Holds(text, at, CodeLiteral(digits))
    ensures Holds(text, at, CODE_POINT) && Holds(text, at + 3, [OPEN_BRACE]) && Holds(text, at + 4, digits)
    ensures Holds(text, at + 4 + |digits|, [CLOSE_BRACE]) && Holds(text, at + 5 + |digits|, [APOSTROPHE])
  {
    hide Holds;
    var closing := [CLOSE_BRACE] + [APOSTROPHE];
    HoldsSplit(text, at, CODE_POINT, [OPEN_BRACE] + (digits + closing));
    HoldsSplit(text, at + 3, [OPEN_BRACE], digits + closing);
    HoldsSplit(text, at + 4, digits, closing);
    HoldsSplit(text, at + 4 + |digits|, [CLOSE_BRACE], [APOSTROPHE]);
  }

  /** It brings its brackets in pairs, and is always skipped. */
  lemma {:induction false} CodePointLiteralSkipped(text: Bytes, at: nat, digits: Bytes)
    requires Holds(text, at, CodeLiteral(digits)) && AtValueEnd(text, at + |CodeLiteral(digits)|)
    requires Unremarkable(digits)
    ensures SkipFrom(text, at, 0) == Some(at + |CodeLiteral(digits)|)
  {
    CodeLiteralParts(text, at, digits);
    hide SkipFrom, AfterPart, Holds, AtValueEnd, CodeLiteral;
    EscapeStarts(text, at);
    PassBracket(text, at + 3, Brace, 0);
    PassOver(text, at + 4, digits, 1);
    PassBracket(text, at + 4 + |digits|, Brace, 1);
    PassApostrophe(text, at + 5 + |digits|);
  }

  lemma {:induction false} EscapeStarts(text: Bytes, at: nat)
    requires Holds(text, at, CODE_POINT) && Holds(text, at + 3, [OPEN_BRACE])
    ensures SkipFrom(text, at, 0) == SkipFrom(text, at + 3, 0)
  {
    HoldsByte(text, at, CODE_POINT, 0);
    HoldsByte(text, at + 3, [OPEN_BRACE], 0);
    assert CODE_POINT == [APOSTROPHE] + [BACKSLASH, 0x75];
    HoldsSplit(text, at, [APOSTROPHE], [BACKSLASH, 0x75]);
    PassUnremarkable(text, at + 1, [BACKSLASH, 0x75]);
    assert SkipFrom(text, at, 0) == AfterPart(text, at + 1, 0);
    assert SkipSpaceFrom(text, at + 3) == at + 3;
    hide SkipFrom;
  }

  /** So a bracket, which no value of the worlds in question is written with, is skipped past its delimiter. */
  lemma {:induction false} CharacterLiteralIsNotSkipped(text: Bytes, at: nat, bracket: Bracket)
    requires Holds(text, at, Literal([], bracket.Opening())) && at + 3 < |text| && AtValueEnd(text, at + 3)
    ensures SkipFrom(text, at, 0) != Some(at + 3)
    ensures SkipFrom([0x27, 0x7B, 0x27, 0x2C], 0, 0) == Some(4)
  {
    assert |Literal([], bracket.Opening())| == 3;
    CharacterLiteralSkipped(text, at, [], bracket.Opening());
    var short: Bytes := [0x27, 0x7B, 0x27, 0x2C];
    assert SkipFrom(short, 3, 1) == SkipFrom(short, 4, 1) == Some(4);
    assert SkipFrom(short, 2, 1) == SkipFrom(short, 3, 1);
    assert SkipFrom(short, 1, 0) == SkipFrom(short, 2, 1);
    assert SkipSpaceFrom(short, 1) == 1;
    assert AfterPart(short, 1, 0) == SkipFrom(short, 1, 0);
  }

  // ---------------------------------------------------------------------------------------------
  // Code points
  // ---------------------------------------------------------------------------------------------

  /** A scalar value is encoded as UTF-8 has it, so differently from every other. */
  lemma {:induction false} ScalarsEncode(c: char)
    ensures Utf8Of(c as nat) == Encode(c)
  {
  }

  /** Four bytes carry 22 bits: what of a code point they keep. */
  function Kept(code: nat): nat {
    if code < 0x10000 then code else code % 0x40_0000
  }

  lemma {:induction false} KeptBits(code: nat)
    requires 0x10000 <= code < 0x100_0000
    ensures Kept(code) / 0x4_0000 == code / 0x4_0000 % 16 && Kept(code) % 0x4_0000 == code % 0x4_0000
  {
  }

  /** The eighteen low bits, six to a continuation byte. */
  lemma {:induction false} SixAtATime(high: nat, low: nat)
    requires low < 0x4_0000
    ensures var code := high * 0x4_0000 + low;
            && code / 0x4_0000 == high && code % 0x4_0000 == low
            && code / 4096 % 64 == low / 4096 && code / 64 % 64 == low / 64 % 64 && code % 64 == low % 64
    ensures low == (low / 4096 * 64 + low / 64 % 64) * 64 + low % 64
  {
    var code := high * 0x4_0000 + low;
    assert code / 4096 == high * 64 + low / 4096;
    assert code / 64 == high * 4096 + low / 64;
  }

  lemma {:induction false} GatherThree(bytes: Bytes, top: nat, a: nat, b: nat, c: nat)
    requires |bytes| == 4 && top < 16 && a < 64 && b < 64 && c < 64
    requires bytes == [0xF0 + top, 0x80 + a, 0x80 + b, 0x80 + c]
    ensures Continues(bytes, 3)
    ensures top < 8 ==> Extra(bytes[0]) == Some(3) && Gather(bytes, 3, 3) == ((top * 64 + a) * 64 + b) * 64 + c
    ensures 8 <= top ==> Extra(bytes[0]) == None
  {
    if top < 8 {
      assert Gather(bytes, 3, 0) == top;
      assert Gather(bytes, 3, 1) == top * 64 + a;
      assert Gather(bytes, 3, 2) == (top * 64 + a) * 64 + b;
    }
  }

  lemma {:induction false} FourByteGathers(code: nat)
    requires 0x10000 <= code < 0x100_0000
    ensures var bytes := Utf8Of(code);
            && Continues(bytes, 3)
            && (code / 0x4_0000 % 16 < 8 ==> Extra(bytes[0]) == Some(3) && Gather(bytes, 3, 3) == Kept(code))
            && (8 <= code / 0x4_0000 % 16 ==> Extra(bytes[0]) == None)
  {
    var high, low := code / 0x4_0000, code % 0x4_0000;
    assert code == high * 0x4_0000 + low;
    SixAtATime(high, low);
    KeptBits(code);
    assert Kept(code) == high % 16 * 0x4_0000 + low;
    GatherThree(Utf8Of(code), high % 16, low / 4096, low / 64 % 64, low % 64);
    hide Gather, Continues, Extra, Kept;
  }

  /**
    The bytes an escape produces are one UTF-8 character exactly when what they keep of the code point
    is a scalar value, and then they are that character's.
    */
  lemma {:induction false} EscapesThatAreUtf8(code: nat)
    requires 0x10000 <= code < 0x100_0000
    ensures DecodeOne(Utf8Of(code)).Some? <==> 0x10000 <= Kept(code) <= 0x10FFFF
    ensures 0x10000 <= Kept(code) <= 0x10FFFF ==> DecodeOne(Utf8Of(code)) == Some((Kept(code) as char, 4))
  {
    FourByteGathers(code);
    KeptBits(code);
    hide Gather, Continues, Kept;
  }

  lemma {:induction false} LowEscapesThatAreUtf8(code: nat)
    requires code < 0x10000
    ensures DecodeOne(Utf8Of(code)).Some? <==> IsScalar(code)
  {
    if IsScalar(code) {
      ScalarsEncode(code as char);
      DecodeOneEncode(code as char, []);
      assert Encode(code as char) + [] == Encode(code as char);
    } else {
      SurrogateGathers(code);
    }
  }

  lemma {:induction false} SurrogateGathers(code: nat)
    requires 0xD800 <= code < 0xE000
    ensures DecodeOne(Utf8Of(code)) == None
  {
    var bytes := Utf8Of(code);
    var b0: nat, b1: nat, b2: nat := bytes[0], bytes[1], bytes[2];
    assert b0 % 16 == code / 4096 && b1 % 64 == code / 64 % 64 && b2 % 64 == code % 64;
    assert Gather(bytes, 2, 0) == code / 4096;
    assert Gather(bytes, 2, 1) == code / 4096 * 64 + code / 64 % 64;
    assert Gather(bytes, 2, 2) == code;
  }

  /** No two scalar values share their bytes; past the last one an escape can borrow another's. */
  lemma {:induction false} DistinctScalars(a: char, b: char)
    requires Utf8Of(a as nat) == Utf8Of(b as nat)
    ensures a == b
  {
    ScalarsEncode(a);
    ScalarsEncode(b);
    DecodeOneEncode(a, []);
    DecodeOneEncode(b, []);
  }

  lemma {:induction false} BorrowedBytes()
    ensures Utf8Of(0x41_0000) == Utf8Of(0x1_0000) == Encode(0x1_0000 as char)
  {
  }
}
