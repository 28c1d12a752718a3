/**
  Which texts are no traces, and why.

  What a format line has to be is said through a printer of decimal numerals. After it, reading goes
  line by line, so that an error depends on nothing after it and names the line it stands on; and what
  is refused is said by printing lines that are.
  */
module TextRefusals {
  import opened Wrappers
  import opened Strings
  import opened TraceModel
  import opened TextCodec

  // ---------------------------------------------------------------------------------------------
  // Decimal numerals
  // ---------------------------------------------------------------------------------------------

  function Digit(d: nat): char
    requires d < 10
  {
    "0123456789"[d]
  }

  /** The usual spelling, without leading zeros. */
  function Decimal(n: nat): (s: string)
    ensures s != ""
    decreases n
  {
    if n < 10 then [Digit(n)] else Decimal(n / 10) + [Digit(n % 10)]
  }

  predicate IsZeros(s: string) {
    forall i | 0 <= i < |s| :: s[i] == '0'
  }

  predicate AllSpace(s: string) {
    forall i | 0 <= i < |s| :: IsSpace(s[i])
  }

  lemma {:induction false} DigitReads(d: nat)
    requires d < 10
    ensures IsDigit(Digit(d)) && Digit(d) as int - 48 == d && !IsSpace(Digit(d)) && Digit(d) != '+'
  {
  }

  lemma {:induction false} DigitsSnoc(acc: nat, front: string, last: char)
    requires AllDigits(front + [last])
    ensures AllDigits(front) && IsDigit(last)
    ensures DigitsValue(acc, front + [last]) == 10 * DigitsValue(acc, front) + (last as int - 48)
    decreases |front|
  {
    var s := front + [last];
    assert s[|front|] == last;
    assert forall i | 0 <= i < |front| :: front[i] == s[i];
    if front == "" {
      assert s[1..] == "";
    } else {
      assert s[1..] == front[1..] + [last];
      DigitsSnoc(10 * acc + (front[0] as int - 48), front[1..], last);
    }
  }

  /** A numeral, however many zeros lead it, is worth its number. */
  lemma {:induction false} NumeralReads(zeros: string, n: nat)
    requires IsZeros(zeros)
    ensures AllDigits(zeros + Decimal(n)) && DigitsValue(0, zeros + Decimal(n)) == n
    decreases n
  {
    if n < 10 {
      DigitReads(n);
      ZerosReads(zeros);
      DigitsSnoc(0, zeros, Digit(n));
    } else {
      DigitReads(n % 10);
      NumeralReads(zeros, n / 10);
      assert zeros + Decimal(n) == zeros + Decimal(n / 10) + [Digit(n % 10)];
      DigitsSnoc(0, zeros + Decimal(n / 10), Digit(n % 10));
    }
  }

  lemma {:induction false} ZerosReads(zeros: string)
    requires IsZeros(zeros)
    ensures AllDigits(zeros) && DigitsValue(0, zeros) == 0
  {
    if zeros != "" {
      ZerosReads(zeros[1..]);
    }
  }

  lemma {:induction false} OneDigitMore(zeros: string, n: nat, d: nat) returns (more: string)
    requires IsZeros(zeros) && d < 10
    ensures IsZeros(more) && zeros + Decimal(n) + [Digit(d)] == more + Decimal(10 * n + d)
  {
    if n == 0 {
      more := zeros + "0";
      assert Decimal(0) == [Digit(0)] == "0" && Decimal(d) == [Digit(d)];
    } else {
      more := zeros;
      assert (10 * n + d) / 10 == n && (10 * n + d) % 10 == d;
      assert Decimal(10 * n + d) == Decimal(n) + [Digit(d)];
    }
  }

  /** Every run of digits is a numeral. */
  lemma {:induction false} DigitsAreNumeral(digits: string) returns (zeros: string)
    requires digits != "" && AllDigits(digits)
    ensures IsZeros(zeros) && digits == zeros + Decimal(DigitsValue(0, digits))
    decreases |digits|
  {
    var front, last := digits[..|digits| - 1], digits[|digits| - 1];
    assert digits == front + [last];
    DigitsSnoc(0, front, last);
    var d := last as int - 48;
    LastDigit(last);
    if front == "" {
      zeros := "";
      OneDigit(last);
    } else {
      hide DigitsValue, Decimal, IsDigit, Digit;
      var fewer := DigitsAreNumeral(front);
      zeros := OneDigitMore(fewer, DigitsValue(0, front), d);
    }
  }

  lemma {:induction false} LastDigit(c: char)
    requires IsDigit(c)
    ensures Digit(c as int - 48) == c
  {
  }

  lemma {:induction false} OneDigit(c: char)
    requires IsDigit(c)
    ensures DigitsValue(0, [c]) == c as int - 48 && Decimal(c as int - 48) == [c]
  {
    assert [c][1..] == "";
    LastDigit(c);
  }

  // ---------------------------------------------------------------------------------------------
  // The format line
  // ---------------------------------------------------------------------------------------------

  /** The number `n` in white space, with or without a plus sign and leading zeros. */
  ghost predicate SpellsNumber(s: string, n: nat) {
    exists before, sign, zeros, after :: IsSpelling(s, n, before, sign, zeros, after)
  }

  ghost predicate IsSpelling(s: string, n: nat, before: string, sign: string, zeros: string, after: string) {
    && AllSpace(before) && AllSpace(after) && IsZeros(zeros) && (sign == "" || sign == "+")
    && s == before + (sign + (zeros + Decimal(n))) + after
  }

  lemma {:induction false} TrimStartOf(before: string, core: string)
    requires AllSpace(before) && (core == "" || !IsSpace(core[0]))
    ensures TrimStart(before + core) == core
  {
    if before == "" {
      assert before + core == core;
    } else {
      assert (before + core)[1..] == before[1..] + core;
      TrimStartOf(before[1..], core);
    }
  }

  lemma {:induction false} TrimEndOf(core: string, after: string)
    requires AllSpace(after) && SpaceFreeEnd(core)
    ensures TrimEnd(core + after) == core
    decreases |after|
  {
    if after == "" {
      assert core + after == core;
    } else {
      var s := core + after;
      assert s[..|s| - 1] == core + after[..|after| - 1];
      TrimEndOf(core, after[..|after| - 1]);
    }
  }

  lemma {:induction false} TrimOf(before: string, core: string, after: string)
    requires AllSpace(before) && AllSpace(after) && NoOuterSpace(core) && core != ""
    ensures Trim(before + core + after) == core
  {
    assert before + core + after == before + (core + after);
    TrimStartOf(before, core + after);
    TrimEndOf(core, after);
  }

  lemma {:induction false} TrimmedFrom(s: string) returns (before: string, after: string)
    ensures AllSpace(before) && AllSpace(after) && s == before + Trim(s) + after
  {
    var front := TrimStart(s);
    TrimStartDrops(s);
    TrimEndDrops(front);
    assert Trim(s) == TrimEnd(front);
    hide Trim, TrimStart, TrimEnd, AllSpace, NoOuterSpace, IsSpace;
    before, after := s[..|s| - |front|], front[|Trim(s)|..];
    assert front == s[|before|..] && Trim(s) == front[..|Trim(s)|];
  }

  lemma {:induction false} TrimStartDrops(s: string)
    ensures AllSpace(s[..|s| - |TrimStart(s)|])
  {
    if s != "" && IsSpace(s[0]) {
      TrimStartDrops(s[1..]);
      assert s[..|s| - |TrimStart(s)|] == [s[0]] + s[1..][..|s| - 1 - |TrimStart(s)|];
    }
  }

  lemma {:induction false} TrimEndDrops(s: string)
    ensures AllSpace(s[|TrimEnd(s)|..])
  {
    if s != "" && IsSpace(s[|s| - 1]) {
      var front := s[..|s| - 1];
      TrimEndDrops(front);
      assert s[|TrimEnd(s)|..] == front[|TrimEnd(s)|..] + [s[|s| - 1]];
    }
  }

  lemma {:induction false} NumeralHasNoSpace(sign: string, zeros: string, n: nat)
    requires IsZeros(zeros) && (sign == "" || sign == "+")
    ensures var core := sign + (zeros + Decimal(n));
            && core != "" && NoOuterSpace(core)
            && ("+" <= core <==> sign == "+") && (sign == "+" ==> core[1..] == zeros + Decimal(n))
  {
    var digits := zeros + Decimal(n);
    NumeralReads(zeros, n);
    assert IsDigit(digits[0]) && IsDigit(digits[|digits| - 1]);
    var core := sign + digits;
    assert core[|core| - 1] == digits[|digits| - 1];
    assert core[0] == if sign == "+" then '+' else digits[0];
  }

  lemma {:induction false} U32Parts(core: string, n: nat) returns (sign: string, digits: string)
    requires ParseU32(core) == Some(n)
    ensures (sign == "" || sign == "+") && core == sign + digits
    ensures digits != "" && AllDigits(digits) && DigitsValue(0, digits) == n
  {
    if "+" <= core {
      sign, digits := "+", core[1..];
    } else {
      sign, digits := "", core;
    }
  }

  lemma {:induction false} U32Of(sign: string, zeros: string, n: nat)
    requires (sign == "" || sign == "+") && IsZeros(zeros) && n < 0x1_0000_0000
    ensures ParseU32(sign + (zeros + Decimal(n))) == Some(n)
  {
    NumeralHasNoSpace(sign, zeros, n);
    NumeralReads(zeros, n);
    hide Decimal, DigitsValue;
    assert sign == "" ==> sign + (zeros + Decimal(n)) == zeros + Decimal(n);
  }

  /** A number that fits 32 bits is read exactly where it is spelled. */
  lemma {:induction false} NumbersRead(s: string, n: nat)
    requires n < 0x1_0000_0000
    ensures ParseU32(Trim(s)) == Some(n) <==> SpellsNumber(s, n)
  {
    hide ParseU32, Decimal, DigitsValue, IsDigit, Trim;
    if before, sign, zeros, after :| IsSpelling(s, n, before, sign, zeros, after) {
      NumeralHasNoSpace(sign, zeros, n);
      TrimOf(before, sign + (zeros + Decimal(n)), after);
      U32Of(sign, zeros, n);
    }
    if ParseU32(Trim(s)) == Some(n) {
      var before, after := TrimmedFrom(s);
      var sign, digits := U32Parts(Trim(s), n);
      var zeros := DigitsAreNumeral(digits);
      assert IsSpelling(s, n, before, sign, zeros, after);
    }
  }

  /** A format line for version `n`. */
  ghost predicate VersionLine(first: string, n: nat) {
    "watoots-trace" <= first && SpellsNumber(first[|"watoots-trace"|..], n)
  }

  /** Version 1 is read, every other is named, and nothing else passes for either. */
  lemma {:induction false} VersionsExactly(first: string, n: nat)
    requires n < 0x1_0000_0000
    ensures ParseVersion(first) == Ok(()) <==> VersionLine(first, 1)
    ensures n != 1 ==> (ParseVersion(first) == Err(WrongVersion(n)) <==> VersionLine(first, n))
  {
    hide ParseU32, Trim;
    if "watoots-trace" <= first {
      NumbersRead(first[|"watoots-trace"|..], 1);
      NumbersRead(first[|"watoots-trace"|..], n);
    }
  }

  /** Whatever is accepted announces version 1; whatever announces another version is refused for it. */
  lemma {:induction false} OnlyVersionOne(text: string, n: nat)
    ensures FromText(text).Ok? ==> Lines(text) != [] && VersionLine(Lines(text)[0], 1)
    ensures Lines(text) != [] && VersionLine(Lines(text)[0], n) && n != 1 && n < 0x1_0000_0000 ==>
              FromText(text) == Err(WrongVersion(n))
    ensures Lines(text) != [] && !("watoots-trace" <= Lines(text)[0]) ==> FromText(text) == Err(NotATrace)
  {
    hide ParseLines, Lines, VersionLine;
    if Lines(text) != [] {
      VersionsExactly(Lines(text)[0], if n < 0x1_0000_0000 then n else 0);
    }
  }

  // ---------------------------------------------------------------------------------------------
  // Line by line
  // ---------------------------------------------------------------------------------------------

  function FromLines(lines: seq<string>): Result<Trace, ParseError> {
    if lines == [] then Err(EmptyTrace)
    else
      var _ :- ParseVersion(lines[0]);
      ParseLines(lines[1..], 2, BLANK)
  }

  lemma {:induction false} TextIsItsLines(text: string)
    ensures FromText(text) == FromLines(Lines(text))
  {
  }

  /** A line that belongs to the stanza above it, if that stanza takes any more. */
  predicate Continues(line: string) {
    ArgValue(line).Some? || BlockLine(line).Some?
  }

  lemma {:induction false} LeadingGoesOn<T>(a: seq<Option<T>>, b: seq<Option<T>>)
    requires b == [] || b[0] == None
    ensures Leading(a + b) == Leading(a)
  {
    if a == [] {
      assert a + b == b;
    } else {
      assert (a + b)[1..] == a[1..] + b;
      LeadingGoesOn(a[1..], b);
    }
  }

  lemma {:induction false} LeadingCut<T>(a: seq<Option<T>>, n: nat)
    requires |Leading(a)| <= n <= |a|
    ensures Leading(a[..n]) == Leading(a)
  {
    if a != [] && a[0] != None {
      assert a[..n][1..] == a[1..][..n - 1];
      LeadingCut(a[1..], n - 1);
    }
  }

  function BlockLines(lines: seq<string>): seq<Option<string>> {
    seq(|lines|, i requires 0 <= i < |lines| => BlockLine(lines[i]))
  }

  lemma {:induction false} CollectedGoOn(rest: seq<string>, more: seq<string>)
    requires more == [] || !Continues(more[0])
    ensures CollectArgs(rest + more) == CollectArgs(rest) && CollectBlock(rest + more) == CollectBlock(rest)
  {
    hide ArgValue, BlockLine, Leading;
    assert ArgValues(rest + more) == ArgValues(rest) + ArgValues(more);
    assert BlockLines(rest + more) == BlockLines(rest) + BlockLines(more);
    LeadingGoesOn(ArgValues(rest), ArgValues(more));
    LeadingGoesOn(BlockLines(rest), BlockLines(more));
    assert CollectBlock(rest) == Leading(BlockLines(rest));
    assert CollectBlock(rest + more) == Leading(BlockLines(rest + more));
  }

  lemma {:induction false} CollectedCut(rest: seq<string>, n: nat)
    requires n <= |rest|
    ensures |CollectArgs(rest)| <= n ==> CollectArgs(rest[..n]) == CollectArgs(rest)
    ensures |CollectBlock(rest)| <= n ==> CollectBlock(rest[..n]) == CollectBlock(rest)
  {
    hide ArgValue, BlockLine, Leading;
    assert ArgValues(rest[..n]) == ArgValues(rest)[..n];
    assert BlockLines(rest[..n]) == BlockLines(rest)[..n];
    assert CollectBlock(rest) == Leading(BlockLines(rest)) && CollectBlock(rest[..n]) == Leading(BlockLines(rest[..n]));
    if |CollectArgs(rest)| <= n {
      LeadingCut(ArgValues(rest), n);
    }
    if |CollectBlock(rest)| <= n {
      LeadingCut(BlockLines(rest), n);
    }
  }

  predicate TakesArgs(keyword: string) {
    keyword == "export-call" || keyword == "import-call"
  }

  predicate TakesOutcome(keyword: string) {
    keyword == "export-return" || keyword == "import-return"
  }

  /** A stanza looks at the lines after its first one only through what its keyword has it take. */
  lemma {:induction false} SameStanza(trimmed: string, a: seq<string>, b: seq<string>, at: nat)
    requires TakesArgs(KeywordAndRest(trimmed).0) ==> CollectArgs(a) == CollectArgs(b)
    requires KeywordAndRest(trimmed).0 == "manifest" ==> CollectBlock(a) == CollectBlock(b)
    requires TakesOutcome(KeywordAndRest(trimmed).0) ==>
               || CollectOutcome(a, at) == CollectOutcome(b, at)
               || (CollectOutcome(a, at) == Err(MissingOutcome(at))
                   && ParseStanza(trimmed, a, at) != Err(MissingOutcome(at)))
    ensures ParseStanza(trimmed, a, at) == ParseStanza(trimmed, b, at)
  {
    hide CollectArgs, CollectBlock, CollectOutcome, SplitPair, JoinNewlines, KeywordAndRest, StripPrefix;
    var (keyword, tail) := KeywordAndRest(trimmed);
    if keyword == "component" {
    } else if keyword == "plugin" {
    } else if keyword == "manifest" {
    } else if keyword == "export-call" {
    } else if keyword == "export-return" {
    } else if keyword == "import-call" {
    } else if keyword == "import-return" {
    }
  }

  lemma {:induction false} TakenBy(trimmed: string, rest: seq<string>, at: nat)
    requires ParseStanza(trimmed, rest, at).Ok?
    ensures TakesArgs(KeywordAndRest(trimmed).0) ==>
              |CollectArgs(rest)| == Taken(ParseStanza(trimmed, rest, at).value)
    ensures KeywordAndRest(trimmed).0 == "manifest" ==>
              |CollectBlock(rest)| == Taken(ParseStanza(trimmed, rest, at).value)
    ensures TakesOutcome(KeywordAndRest(trimmed).0) ==> 1 == Taken(ParseStanza(trimmed, rest, at).value)
  {
    hide CollectArgs, CollectBlock, CollectOutcome, SplitPair, JoinNewlines, KeywordAndRest, StripPrefix;
    var (keyword, tail) := KeywordAndRest(trimmed);
    if keyword == "component" {
    } else if keyword == "plugin" {
    } else if keyword == "manifest" {
    } else if keyword == "export-call" {
    } else if keyword == "export-return" {
    } else if keyword == "import-call" {
    } else if keyword == "import-return" {
    }
  }

  /** What a stanza takes does not depend on the lines after it; only a missing outcome may yet come. */
  lemma {:induction false} StanzaGoesOn(trimmed: string, rest: seq<string>, more: seq<string>, at: nat)
    requires more == [] || !Continues(more[0])
    requires ParseStanza(trimmed, rest, at) != Err(MissingOutcome(at))
    ensures ParseStanza(trimmed, rest + more, at) == ParseStanza(trimmed, rest, at)
  {
    CollectedGoOn(rest, more);
    assert rest != [] ==> CollectOutcome(rest + more, at) == CollectOutcome(rest, at);
    assert rest == [] ==> CollectOutcome(rest, at) == Err(MissingOutcome(at));
    hide ParseStanza, CollectArgs, CollectBlock, CollectOutcome, Continues, KeywordAndRest, TakesArgs, TakesOutcome;
    SameStanza(trimmed, rest, rest + more, at);
  }

  lemma {:induction false} StanzaCut(trimmed: string, rest: seq<string>, n: nat, at: nat)
    requires n <= |rest| && ParseStanza(trimmed, rest, at).Ok? && Taken(ParseStanza(trimmed, rest, at).value) <= n
    ensures ParseStanza(trimmed, rest[..n], at) == ParseStanza(trimmed, rest, at)
  {
    CollectedCut(rest, n);
    TakenBy(trimmed, rest, at);
    assert n > 0 ==> rest[..n][0] == rest[0] && CollectOutcome(rest[..n], at) == CollectOutcome(rest, at);
    hide ParseStanza, CollectArgs, CollectBlock, CollectOutcome, KeywordAndRest, Taken, TakesArgs, TakesOutcome;
    SameStanza(trimmed, rest, rest[..n], at);
  }

  /**
    Reading is compositional: what was read so far, and then the rest, which starts a line that
    continues nothing. What was refused stays refused, but for an outcome that was still to come.
    */
  lemma {:induction false} ReadsOn(front: seq<string>, more: seq<string>, at: nat, trace: Trace)
    requires more == [] || !Continues(more[0])
    ensures match ParseLines(front, at, trace)
            case Ok(read) => ParseLines(front + more, at, trace) == ParseLines(more, at + |front|, read)
            case Err(e) => e.MissingOutcome? || ParseLines(front + more, at, trace) == Err(e)
    decreases |front|
  {
    hide Trim, ParseStanza, Continues, Add, Taken, ParseLines;
    if front == [] {
      assert front + more == more;
      NothingRead(at, trace);
    } else {
      var trimmed, whole := Trim(front[0]), front + more;
      assert whole[0] == front[0] && whole[1..] == front[1..] + more;
      FirstRead(front, at, trace);
      FirstRead(whole, at, trace);
      if trimmed == "" {
        ReadsOn(front[1..], more, at + 1, trace);
      } else if ParseStanza(trimmed, front[1..], at) != Err(MissingOutcome(at)) {
        StanzaGoesOn(trimmed, front[1..], more, at);
        if ParseStanza(trimmed, front[1..], at).Ok? {
          var stanza := ParseStanza(trimmed, front[1..], at).value;
          var n := 1 + Taken(stanza);
          assert whole[n..] == front[n..] + more;
          ReadsOn(front[n..], more, at + n, Add(trace, stanza));
        }
      }
    }
  }

  lemma {:induction false} NothingRead(at: nat, trace: Trace)
    ensures ParseLines([], at, trace) == Ok(trace)
  {
  }

  /** One turn of the reading. */
  lemma {:induction false} FirstRead(lines: seq<string>, at: nat, trace: Trace)
    requires lines != []
    ensures Trim(lines[0]) == "" ==> ParseLines(lines, at, trace) == ParseLines(lines[1..], at + 1, trace)
    ensures Trim(lines[0]) != "" ==>
              match ParseStanza(Trim(lines[0]), lines[1..], at)
              case Err(e) => ParseLines(lines, at, trace) == Err(e)
              case Ok(stanza) =>
                && 1 + Taken(stanza) <= |lines|
                && ParseLines(lines, at, trace)
                   == ParseLines(lines[1 + Taken(stanza)..], at + 1 + Taken(stanza), Add(trace, stanza))
  {
    hide Trim, ParseStanza, Add;
  }

  /** The line an error names. */
  function LineOf(e: ParseError): Option<nat> {
    match e
    case ExpectedSha(line) => Some(line)
    case ExpectedPair(line) => Some(line)
    case MissingOutcome(line) => Some(line)
    case ExpectedStatus(line) => Some(line)
    case UnknownOutcome(line, _) => Some(line)
    case UnknownKeyword(line, _) => Some(line)
    case _ => None
  }

  lemma {:induction false} OutcomeErrs(line: string, at: nat)
    ensures ParseOutcome(line, at).Err? ==> LineOf(ParseOutcome(line, at).error) in {None, Some(at)}
  {
    hide KeywordAndRest, Unquote, SplitAtSpace, TrimStart, Trim, KeywordValue;
  }

  lemma {:induction false} StanzaErrs(trimmed: string, rest: seq<string>, at: nat)
    requires ParseStanza(trimmed, rest, at).Err? && LineOf(ParseStanza(trimmed, rest, at).error).Some?
    ensures LineOf(ParseStanza(trimmed, rest, at).error) == Some(at)
    ensures ParseStanza(trimmed, [], at).Err?
  {
    hide CollectArgs, CollectBlock, JoinNewlines, KeywordAndRest, StripPrefix, SplitAtSpace, ParseOutcome;
    var (keyword, tail) := KeywordAndRest(trimmed);
    if rest != [] {
      OutcomeErrs(rest[0], at);
    }
    if keyword == "component" {
    } else if keyword == "plugin" {
    } else if keyword == "manifest" {
    } else if keyword == "export-call" {
    } else if keyword == "export-return" {
    } else if keyword == "import-call" {
    } else if keyword == "import-return" {
    }
  }

  /** The line named is the one it went wrong on: up to it the text is accepted, and with it no more. */
  lemma {:induction false} ErrsAtLine(lines: seq<string>, at: nat, trace: Trace, n: nat)
    requires ParseLines(lines, at, trace).Err? && LineOf(ParseLines(lines, at, trace).error) == Some(n)
    ensures at <= n < at + |lines|
    ensures ParseLines(lines[..n - at], at, trace).Ok? && ParseLines(lines[..n - at + 1], at, trace).Err?
    decreases |lines|
  {
    hide Trim, ParseStanza, Add, Taken, ParseLines, LineOf;
    NothingRead(at, trace);
    assert lines != [];
    var trimmed := Trim(lines[0]);
    FirstRead(lines, at, trace);
    if trimmed == "" {
      ErrsAtLine(lines[1..], at + 1, trace, n);
      BlankPrefix(lines, n - at, at, trace);
      BlankPrefix(lines, n - at + 1, at, trace);
    } else if ParseStanza(trimmed, lines[1..], at).Err? {
      StanzaErrs(trimmed, lines[1..], at);
      CutAfterFirst(lines, 1);
      assert lines[..0] == [] && lines[1..][..0] == [];
      FirstRead(lines[..1], at, trace);
    } else {
      var stanza := ParseStanza(trimmed, lines[1..], at).value;
      var m := 1 + Taken(stanza);
      ErrsAtLine(lines[m..], at + m, Add(trace, stanza), n);
      StanzaPrefix(lines, n - at, at, trace);
      StanzaPrefix(lines, n - at + 1, at, trace);
    }
  }

  lemma {:induction false} BlankPrefix(lines: seq<string>, k: nat, at: nat, trace: Trace)
    requires 1 <= k <= |lines| && Trim(lines[0]) == ""
    ensures ParseLines(lines[..k], at, trace) == ParseLines(lines[1..][..k - 1], at + 1, trace)
  {
    hide Trim, ParseLines, ParseStanza;
    CutAfterFirst(lines, k);
    FirstRead(lines[..k], at, trace);
  }

  lemma {:induction false} CutAfterFirst(lines: seq<string>, k: nat)
    requires 1 <= k <= |lines|
    ensures lines[..k][0] == lines[0] && lines[..k][1..] == lines[1..][..k - 1]
  {
  }

  /** A prefix that holds a whole first stanza reads it alike. */
  lemma {:induction false} StanzaPrefix(lines: seq<string>, k: nat, at: nat, trace: Trace)
    requires lines != [] && k <= |lines| && Trim(lines[0]) != ""
    requires ParseStanza(Trim(lines[0]), lines[1..], at).Ok?
    requires 1 + Taken(ParseStanza(Trim(lines[0]), lines[1..], at).value) <= k
    ensures var stanza := ParseStanza(Trim(lines[0]), lines[1..], at).value;
            var m := 1 + Taken(stanza);
            ParseLines(lines[..k], at, trace) == ParseLines(lines[m..][..k - m], at + m, Add(trace, stanza))
  {
    hide Trim, ParseStanza, Add, Taken, ParseLines;
    var stanza := ParseStanza(Trim(lines[0]), lines[1..], at).value;
    var m := 1 + Taken(stanza);
    CutAfterFirst(lines, k);
    FirstRead(lines[..k], at, trace);
    StanzaCut(Trim(lines[0]), lines[1..], k - 1, at);
    assert lines[..k][m..] == lines[m..][..k - m];
  }

  /** The same of a whole text. */
  lemma {:induction false} ErrorLine(text: string, n: nat)
    requires FromText(text).Err? && LineOf(FromText(text).error) == Some(n)
    ensures 2 <= n <= |Lines(text)|
    ensures FromLines(Lines(text)[..n - 1]).Ok? && FromLines(Lines(text)[..n]).Err?
  {
    hide Lines, ParseLines, ParseVersion;
    var lines := Lines(text);
    NoLineInVersion(lines[0]);
    ErrsAtLine(lines[1..], 2, BLANK, n);
    CutAfterFirst(lines, n - 1);
    CutAfterFirst(lines, n);
  }

  lemma {:induction false} NoLineInVersion(first: string)
    ensures ParseVersion(first).Err? ==> LineOf(ParseVersion(first).error).None?
  {
  }

  // ---------------------------------------------------------------------------------------------
  // Lines that are refused
  // ---------------------------------------------------------------------------------------------

  const KEYWORDS := {
    "component", "plugin", "manifest", "export-call", "export-return", "import-call", "import-return"
  }

  lemma {:induction false} FirstStanza(word: string, tail: string, rest: seq<string>, at: nat, trace: Trace)
    requires word != "" && NoSpace(word) && NoOuterSpace(tail)
    ensures var trimmed := Trim(word + " " + tail);
            && KeywordAndRest(trimmed) == (word, tail)
            && (ParseStanza(trimmed, rest, at).Err? ==>
                  ParseLines([word + " " + tail] + rest, at, trace) == Err(ParseStanza(trimmed, rest, at).error))
  {
    KeywordLine(word, tail);
    hide Trim, KeywordAndRest, ParseStanza;
    var lines := [word + " " + tail] + rest;
    assert lines[0] == word + " " + tail && lines[1..] == rest;
  }

  lemma {:induction false} UnknownHead(word: string, trimmed: string, tail: string, rest: seq<string>, at: nat)
    requires KeywordAndRest(trimmed) == (word, tail) && word !in KEYWORDS
    ensures ParseStanza(trimmed, rest, at) == Err(UnknownKeyword(at, word))
  {
    hide KeywordAndRest, CollectArgs, CollectBlock, CollectOutcome, SplitPair, StripPrefix;
    assert forall k | k in KEYWORDS :: word != k;
  }

  lemma {:induction false} ShortHead(word: string, trimmed: string, tail: string, rest: seq<string>, at: nat)
    requires KeywordAndRest(trimmed) == (word, tail)
    ensures word == "component" && !("sha256:" <= tail) ==> ParseStanza(trimmed, rest, at) == Err(ExpectedSha(at))
    ensures word == "import-call" && NoSpace(tail) ==> ParseStanza(trimmed, rest, at) == Err(ExpectedPair(at))
    ensures word == "import-return" && NoSpace(tail) ==> ParseStanza(trimmed, rest, at) == Err(ExpectedPair(at))
    ensures word == "export-return" && CollectOutcome(rest, at).Err? ==>
              ParseStanza(trimmed, rest, at) == Err(CollectOutcome(rest, at).error)
  {
    OneWordDoesNotSplit(tail);
    hide KeywordAndRest, CollectArgs, CollectBlock, CollectOutcome, SplitAtSpace, NoSpace;
    if word == "component" {
    } else if word == "export-return" {
    } else if word == "import-call" {
    } else if word == "import-return" {
    }
  }

  lemma {:induction false} OneWordDoesNotSplit(s: string)
    ensures NoSpace(s) ==> SplitAtSpace(s) == None
  {
    if NoSpace(s) {
      assert s[..|s|] == s;
      FirstSpaceIs(s, |s|);
    }
  }

  /** What is printed here is refused where it stands, whatever follows. */
  lemma {:induction false} HeadsRefused(word: string, tail: string, rest: seq<string>, at: nat, trace: Trace)
    requires word != "" && NoSpace(word) && NoOuterSpace(tail)
    ensures var read := ParseLines([word + " " + tail] + rest, at, trace);
            && (word !in KEYWORDS ==> read == Err(UnknownKeyword(at, word)))
            && (word == "component" && !("sha256:" <= tail) ==> read == Err(ExpectedSha(at)))
            && (word == "import-call" && NoSpace(tail) ==> read == Err(ExpectedPair(at)))
            && (word == "import-return" && NoSpace(tail) ==> read == Err(ExpectedPair(at)))
            && (word == "export-return" && rest == [] ==> read == Err(MissingOutcome(at)))
  {
    FirstStanza(word, tail, rest, at, trace);
    var trimmed := Trim(word + " " + tail);
    hide Trim, KeywordAndRest, ParseLines, ParseStanza, NoSpace;
    if word !in KEYWORDS {
      UnknownHead(word, trimmed, tail, rest, at);
    }
    ShortHead(word, trimmed, tail, rest, at);
  }

  lemma {:induction false} NoOutcome(word: string, tail: string, at: nat)
    requires word != "" && NoSpace(word) && NoOuterSpace(tail)
    ensures word !in {"unit", "value", "error"} ==>
              ParseOutcome(word + " " + tail, at) == Err(UnknownOutcome(at, word))
    ensures word == "error" && NoSpace(tail) ==> ParseOutcome(word + " " + tail, at) == Err(ExpectedStatus(at))
  {
    var line := word + " " + tail;
    assert TrimStart(line) == line;
    SplitAtFirstSpace(word, tail);
    TrimNoOuter(tail);
    OneWordDoesNotSplit(tail);
    hide TrimStart, SplitAtSpace, Unquote, Trim, KeywordValue, NoSpace;
    if word == "error" {
    } else {
      assert word !in {"unit", "value", "error"} ==> word != "unit" && word != "value";
    }
  }

  /** An outcome line that is none. */
  lemma {:induction false} OutcomesRefused(
    func: string, word: string, tail: string, rest: seq<string>, at: nat, trace: Trace)
    requires NoOuterSpace(func) && word != "" && NoSpace(word) && NoOuterSpace(tail)
    ensures var read := ParseLines(["export-return" + " " + func] + ([word + " " + tail] + rest), at, trace);
            && (word !in {"unit", "value", "error"} ==> read == Err(UnknownOutcome(at, word)))
            && (word == "error" && NoSpace(tail) ==> read == Err(ExpectedStatus(at)))
  {
    var lines := [word + " " + tail] + rest;
    NoOutcome(word, tail, at);
    assert CollectOutcome(lines, at) == ParseOutcome(word + " " + tail, at);
    hide Trim, KeywordAndRest, ParseLines, ParseStanza, NoSpace, NoOuterSpace, ParseOutcome, CollectOutcome;
    ReturnIsAWord();
    FirstStanza("export-return", func, lines, at, trace);
    ShortHead("export-return", Trim("export-return" + " " + func), func, lines, at);
  }

  lemma {:induction false} ReturnIsAWord()
    ensures "export-return" != "" && NoSpace("export-return")
  {
  }

  /** So in any accepted text, of any length: such a line after it is refused under its own number. */
  lemma {:induction false} RefusedAfter(front: seq<string>, word: string, tail: string, rest: seq<string>)
    requires FromLines(front).Ok? && !Continues(word + " " + tail)
    requires word != "" && NoSpace(word) && NoOuterSpace(tail)
    ensures var read, n := FromLines(front + ([word + " " + tail] + rest)), |front| + 1;
            && (word !in KEYWORDS ==> read == Err(UnknownKeyword(n, word)))
            && (word == "component" && !("sha256:" <= tail) ==> read == Err(ExpectedSha(n)))
            && (word == "import-call" && NoSpace(tail) ==> read == Err(ExpectedPair(n)))
            && (word == "import-return" && NoSpace(tail) ==> read == Err(ExpectedPair(n)))
            && (word == "export-return" && rest == [] ==> read == Err(MissingOutcome(n)))
  {
    hide ParseLines, ParseVersion, Continues;
    var more := [word + " " + tail] + rest;
    var whole := front + more;
    assert whole[0] == front[0] && whole[1..] == front[1..] + more;
    ReadsOn(front[1..], more, 2, BLANK);
    HeadsRefused(word, tail, rest, |front| + 1, FromLines(front).value);
  }

  predicate IsArgLine(line: string, value: string, before: string) {
    AllSpace(before) && (line == before + ("arg " + value) || (value == "" && line == before + "arg"))
  }

  lemma {:induction false} TrimmedArg(line: string, value: string)
    ensures ArgValue(line) == Some(value) <==>
              TrimStart(line) == "arg " + value || (value == "" && TrimStart(line) == "arg")
  {
    hide TrimStart;
    var trimmed := TrimStart(line);
    if "arg" <= trimmed {
      var rest := trimmed[3..];
      assert trimmed == "arg" + rest && "arg " + value == "arg" + (" " + value);
      assert " " <= rest ==> rest == " " + rest[1..];
    }
    assert ("arg " + value)[3..] == " " + value && (" " + value)[1..] == value;
  }

  /** Which lines carry an argument: the keyword, indented anyhow, and one space before a value of any length. */
  lemma {:induction false} ArgLinesExactly(line: string, value: string)
    ensures ArgValue(line) == Some(value) <==> exists before: string :: IsArgLine(line, value, before)
  {
    TrimmedArg(line, value);
    hide TrimStart, AllSpace, ArgValue;
    var trimmed := TrimStart(line);
    if ArgValue(line) == Some(value) {
      TrimStartDrops(line);
      assert IsArgLine(line, value, line[..|line| - |trimmed|]);
    }
    if before: string :| IsArgLine(line, value, before) {
      TrimStartOf(before, if line == before + ("arg " + value) then "arg " + value else "arg");
    }
  }

  // ---------------------------------------------------------------------------------------------
  // Escapes that are refused
  // ---------------------------------------------------------------------------------------------

  /** Resolving escapes is one pass: what is read first does not change how the rest is. */
  lemma {:induction false} UnquotesOn(front: string, back: string)
    requires UnquoteBody(front).Ok?
    ensures UnquoteBody(front + back)
         == match UnquoteBody(back)
            case Ok(s) => Ok(UnquoteBody(front).value + s)
            case Err(e) => Err(e)
    decreases |front|
  {
    if front == "" {
      assert front + back == back;
      assert UnquoteBody(back).Ok? ==> "" + UnquoteBody(back).value == UnquoteBody(back).value;
    } else if front[0] != '\\' {
      UnquotesOn(front[1..], back);
      assert (front + back)[1..] == front[1..] + back;
      Joined([front[0]], UnquoteBody(front[1..]).value, UnquoteBody(back));
    } else {
      UnquotesOn(front[2..], back);
      assert (front + back)[2..] == front[2..] + back;
      Joined([UnquoteBody(front).value[0]], UnquoteBody(front[2..]).value, UnquoteBody(back));
    }
  }

  lemma {:induction false} Joined(a: string, b: string, c: Result<string, QuoteError>)
    ensures c.Ok? ==> a + (b + c.value) == (a + b) + c.value
  {
  }

  /** A backslash before anything but the five letters is refused, and so is one at the end. */
  lemma {:induction false} EscapesRefused(front: string, c: char, back: string)
    requires UnquoteBody(front).Ok?
    ensures c !in {'"', '\\', 'n', 'r', 't'} ==> UnquoteBody(front + (['\\', c] + back)) == Err(UnknownEscape(c))
    ensures UnquoteBody(front + ['\\']) == Err(EndsInBackslash)
  {
    UnquotesOn(front, ['\\', c] + back);
    UnquotesOn(front, ['\\']);
  }
}
