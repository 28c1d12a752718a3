/**
  What the text encoding promises.

  Printing a trace and parsing it gives the trace back if and only if it is well-formed; and
  whatever text is accepted, printing what it parsed to is a canonical form.
  */
module TextTheorems {
  import opened Wrappers
  import opened Strings
  import opened TraceModel
  import opened TextCodec

  // ---------------------------------------------------------------------------------------------
  // Well-formedness
  // ---------------------------------------------------------------------------------------------

  predicate Printable(func: string) {
    SingleLine(func) && NoOuterSpace(func)
  }

  predicate Word(s: string) {
    s != "" && NoSpace(s)
  }

  predicate LineOutcome(outcome: Outcome) {
    match outcome
    case Value(None) => true
    case Value(Some(value)) => SingleLine(value)
    case Error(status, _) => Word(status)
  }

  predicate LineArgs(args: seq<string>) {
    forall i | 0 <= i < |args| :: SingleLine(args[i])
  }

  /** An event whose parts fit their places on a line, save perhaps for a final carriage return. */
  predicate LineEvent(event: Event) {
    match event
    case ExportCall(func, args) => Printable(func) && LineArgs(args)
    case ExportReturn(func, outcome) => Printable(func) && LineOutcome(outcome)
    case ImportCall(interface, func, args) => Word(interface) && Printable(func) && func != "" && LineArgs(args)
    case ImportReturn(interface, func, outcome) =>
      Word(interface) && Printable(func) && func != "" && LineOutcome(outcome)
  }

  predicate LineHeader(header: Header) {
    && SingleLine(header.componentSha256) && SpaceFreeEnd(header.componentSha256)
    && Printable(header.plugin)
  }

  predicate LineTrace(trace: Trace) {
    && LineHeader(trace.header)
    && forall i | 0 <= i < |trace.events| :: LineEvent(trace.events[i])
  }

  predicate CrFreeOutcome(outcome: Outcome) {
    outcome.Value? && outcome.text.Some? ==> !EndsInCr(outcome.text.value)
  }

  predicate CrFreeArgs(args: seq<string>) {
    forall i | 0 <= i < |args| :: !EndsInCr(args[i])
  }

  predicate CrFreeEvent(event: Event) {
    match event
    case ExportCall(_, args) => CrFreeArgs(args)
    case ImportCall(_, _, args) => CrFreeArgs(args)
    case ExportReturn(_, outcome) => CrFreeOutcome(outcome)
    case ImportReturn(_, _, outcome) => CrFreeOutcome(outcome)
  }

  predicate CrFreeLines(pieces: seq<string>) {
    forall i | 0 <= i < |pieces| :: !EndsInCr(pieces[i])
  }

  /** No value and no line of the manifest ends in a carriage return, which a line would lose. */
  predicate CrFree(trace: Trace) {
    && CrFreeLines(ManifestBlock(trace.header.manifestToml))
    && forall i | 0 <= i < |trace.events| :: CrFreeEvent(trace.events[i])
  }

  predicate WellFormed(trace: Trace) {
    LineTrace(trace) && CrFree(trace)
  }

  // ---------------------------------------------------------------------------------------------
  // Quoting
  // ---------------------------------------------------------------------------------------------

  lemma {:induction false} UnquoteQuoteBody(text: string)
    ensures UnquoteBody(QuoteBody(text)) == Ok(text)
  {
    if text != "" {
      UnquoteQuoteBody(text[1..]);
      var body, rest := QuoteBody(text), QuoteBody(text[1..]);
      var n := |QuoteChar(text[0])|;
      assert body[n..] == rest;
      assert [text[0]] + text[1..] == text;
    }
  }

  lemma {:induction false} QuoteBodySingleLine(text: string)
    ensures SingleLine(QuoteBody(text))
  {
    if text != "" {
      QuoteBodySingleLine(text[1..]);
    }
  }

  /** Every string survives quoting, and its quoted form fits on a line and has no outer whitespace. */
  lemma {:induction false} UnquoteQuote(text: string)
    ensures Unquote(Quote(text)) == Ok(text)
    ensures SingleLine(Quote(text)) && NoOuterSpace(Quote(text)) && !EndsInCr(Quote(text))
  {
    var quoted, body := Quote(text), QuoteBody(text);
    assert quoted[1..|quoted| - 1] == body;
    assert quoted[|quoted| - 1] == '"';
    UnquoteQuoteBody(text);
    QuoteBodySingleLine(text);
  }

  // ---------------------------------------------------------------------------------------------
  // One stanza
  // ---------------------------------------------------------------------------------------------

  lemma {:induction false} ArgLineReads(value: string)
    ensures ArgValue("  arg " + value) == Some(value)
  {
    hide TrimStart;
    var trimmed := "arg" + " " + value;
    assert "  arg " + value == "  " + trimmed;
    IndentTrims(trimmed);
    assert "arg" <= trimmed && trimmed[3..] == " " + value;
    assert " " <= trimmed[3..] && trimmed[3..][1..] == value;
  }

  /** The first character of what follows a stanza: anything but an indented argument. */
  predicate StartsStanza(lines: seq<string>) {
    lines != [] ==> ArgValue(lines[0]) == None
  }

  lemma {:induction false} LeadingSome<T>(values: seq<T>, all: seq<Option<T>>)
    requires |values| <= |all|
    requires forall i | 0 <= i < |values| :: all[i] == Some(values[i])
    requires |values| < |all| ==> all[|values|] == None
    ensures Leading(all) == values
  {
    if values != [] {
      LeadingSome(values[1..], all[1..]);
    }
  }

  lemma {:induction false} ArgsRead(args: seq<string>, rest: seq<string>)
    requires StartsStanza(rest)
    ensures CollectArgs(ArgLines(args) + rest) == args
  {
    var lines := ArgLines(args) + rest;
    forall i | 0 <= i < |args| ensures ArgValues(lines)[i] == Some(args[i]) {
      ArgLineReads(args[i]);
      assert lines[i] == "  arg " + args[i];
    }
    if |args| < |lines| {
      assert lines[|args|] == rest[0];
    }
    LeadingSome(args, ArgValues(lines));
  }

  lemma {:induction false} UnitReads(at: nat)
    ensures ParseOutcome("  unit", at) == Ok(Value(None))
  {
    hide TrimStart, FirstSpace;
    IndentTrims("unit");
    assert "  " + "unit" == "  unit";
    FirstSpaceIs("unit", 4);
  }

  lemma {:induction false} ValueReads(value: string, at: nat)
    ensures ParseOutcome("  value " + value, at) == Ok(Value(Some(value)))
  {
    var trimmed := "value" + " " + value;
    assert "  value " + value == "  " + trimmed;
    IndentTrims(trimmed);
    SplitAtFirstSpace("value", value);
    assert "value" + " " <= trimmed && trimmed[6..] == value;
  }

  lemma {:induction false} StartTrimmed(s: string)
    requires s != "" && !IsSpace(s[0])
    ensures TrimStart(s) == s
  {
  }

  lemma {:induction false} ErrorReads(status: string, message: string, at: nat)
    requires Word(status)
    ensures ParseOutcome("  error " + status + " " + Quote(message), at) == Ok(Error(status, message))
  {
    hide Trim, TrimStart, SplitAtSpace, Quote, Unquote;
    var rest := status + " " + Quote(message);
    var trimmed := "error" + " " + rest;
    assert "  error " + status + " " + Quote(message) == "  " + trimmed;
    IndentTrims(trimmed);
    SplitAtFirstSpace("error", rest);
    assert rest[0] == status[0];
    StartTrimmed(rest);
    SplitAtFirstSpace(status, Quote(message));
    UnquoteQuote(message);
    TrimNoOuter(Quote(message));
  }

  lemma {:induction false} OutcomeReads(outcome: Outcome, at: nat)
    requires LineOutcome(outcome)
    ensures ParseOutcome(OutcomeLine(outcome), at) == Ok(outcome)
  {
    match outcome {
      case Value(None) => UnitReads(at);
      case Value(Some(value)) => ValueReads(value, at);
      case Error(status, message) => ErrorReads(status, message, at);
    }
  }

  lemma {:induction false} IndentTrims(s: string)
    requires s != "" && !IsSpace(s[0])
    ensures TrimStart("  " + s) == s
  {
    var line := "  " + s;
    assert line[1..] == " " + s && line[1..][1..] == s;
    assert TrimStart(line) == TrimStart(line[1..]) == TrimStart(line[1..][1..]);
  }

  /** The line a stanza opens with reads back as its keyword and its names. */
  lemma {:induction false} PairReads(interface: string, func: string, at: nat)
    requires Word(interface) && func != "" && NoOuterSpace(func)
    ensures NoOuterSpace(interface + " " + func)
    ensures SplitPair(interface + " " + func, at) == Ok((interface, func))
  {
    SplitAtFirstSpace(interface, func);
    TrimNoOuter(func);
    var s := interface + " " + func;
    assert s[0] == interface[0] && s[|s| - 1] == func[|func| - 1];
  }

  lemma {:induction false} KeywordsAreWords(event: Event)
    ensures Word(EventKeyword(event))
    ensures EventKeyword(event)[0] == 'e' || EventKeyword(event)[0] == 'i'
  {
  }

  lemma {:induction false} NamesRead(event: Event)
    requires LineEvent(event)
    ensures NoOuterSpace(EventNames(event))
  {
    if event.ImportCall? || event.ImportReturn? {
      PairReads(event.interface, event.func, 0);
    }
  }

  lemma {:induction false} NotAnArgument(keyword: string, names: string)
    requires Word(keyword) && keyword[0] != 'a'
    ensures ArgValue(keyword + " " + names) == None
  {
    var line := keyword + " " + names;
    assert line[0] == keyword[0];
    assert TrimStart(line) == line && "arg"[0] != line[0];
  }

  lemma {:induction false} HeadReads(event: Event)
    requires LineEvent(event)
    ensures var head := EventLines(event)[0];
            && Trim(head) != ""
            && KeywordAndRest(Trim(head)) == (EventKeyword(event), EventNames(event))
            && ArgValue(head) == None
  {
    hide Trim, TrimStart, KeywordAndRest, ArgValue, NoOuterSpace;
    NamesRead(event);
    KeywordsAreWords(event);
    var keyword, names := EventKeyword(event), EventNames(event);
    KeywordLine(keyword, names);
    NotAnArgument(keyword, names);
  }

  lemma {:induction false} CallReads(event: Event, rest: seq<string>, at: nat)
    requires LineEvent(event) && (event.ExportCall? || event.ImportCall?) && StartsStanza(rest)
    ensures ParseStanza(Trim(EventLines(event)[0]), EventBody(event) + rest, at)
         == Ok(Crossing(event, |EventBody(event)|))
  {
    hide Trim, TrimStart, KeywordAndRest, CollectArgs, StartsStanza, ArgLines, SplitPair, CollectBlock, CollectOutcome,
      StripPrefix, NoOuterSpace, NoSpace, SingleLine, JoinNewlines;
    HeadReads(event);
    ArgsRead(event.args, rest);
    if event.ImportCall? {
      PairReads(event.interface, event.func, at);
    }
  }

  lemma {:induction false} ReturnReads(event: Event, rest: seq<string>, at: nat)
    requires LineEvent(event) && (event.ExportReturn? || event.ImportReturn?)
    ensures ParseStanza(Trim(EventLines(event)[0]), EventBody(event) + rest, at)
         == Ok(Crossing(event, |EventBody(event)|))
  {
    hide Trim, TrimStart, KeywordAndRest, OutcomeLine, ParseOutcome, CollectArgs, CollectBlock, SplitPair, StripPrefix,
      NoOuterSpace, NoSpace, SingleLine, JoinNewlines;
    HeadReads(event);
    OutcomeReads(event.outcome, at);
    assert (EventBody(event) + rest)[0] == OutcomeLine(event.outcome);
    if event.ImportReturn? {
      PairReads(event.interface, event.func, at);
    }
  }

  lemma {:induction false} EventsStartStanza(events: seq<Event>)
    requires forall i | 0 <= i < |events| :: LineEvent(events[i])
    ensures StartsStanza(EventsLines(events))
  {
    if events != [] {
      assert LineEvent(events[0]);
      HeadReads(events[0]);
      assert EventsLines(events)[0] == EventLines(events[0])[0];
    }
  }

  lemma {:induction false} ParseLinesStep(lines: seq<string>, at: nat, trace: Trace, stanza: Stanza, n: nat)
    requires lines != [] && Taken(stanza) == n
    ensures Trim(lines[0]) != "" && ParseStanza(Trim(lines[0]), lines[1..], at) == Ok(stanza) ==>
              && n + 1 <= |lines|
              && ParseLines(lines, at, trace) == ParseLines(lines[1 + n..], at + 1 + n, Add(trace, stanza))
  {
    hide Trim, ParseStanza;
  }

  lemma {:induction false} EventReads(event: Event, rest: seq<string>, at: nat)
    requires LineEvent(event) && StartsStanza(rest)
    ensures var head := Trim(EventLines(event)[0]);
            && head != ""
            && ParseStanza(head, EventBody(event) + rest, at) == Ok(Crossing(event, |EventBody(event)|))
  {
    hide Trim, ParseStanza, EventLines, EventBody, StartsStanza;
    HeadReads(event);
    if event.ExportCall? || event.ImportCall? {
      CallReads(event, rest, at);
    } else {
      ReturnReads(event, rest, at);
    }
  }

  lemma {:induction false} ConsShape<T>(x: T, a: seq<T>, b: seq<T>)
    ensures var s := [x] + a + b; s[0] == x && s[1..] == a + b && s[1 + |a|..] == b
  {
  }

  lemma {:induction false} EventsLinesShape(events: seq<Event>)
    requires events != []
    ensures var lines, body := EventsLines(events), EventBody(events[0]);
            && 1 + |body| <= |lines|
            && lines[0] == EventLines(events[0])[0]
            && lines[1..] == body + EventsLines(events[1..])
            && lines[1 + |body|..] == EventsLines(events[1..])
  {
    hide EventKeyword, EventNames, EventBody;
    ConsShape(EventLines(events[0])[0], EventBody(events[0]), EventsLines(events[1..]));
  }

  lemma {:induction false} NoEventsRead(at: nat, trace: Trace)
    ensures ParseLines(EventsLines([]), at, trace) == Ok(trace)
  {
  }

  /** The printed events read back, one stanza after another. */
  lemma {:induction false} EventsRead(events: seq<Event>, at: nat, trace: Trace)
    requires forall i | 0 <= i < |events| :: LineEvent(events[i])
    ensures ParseLines(EventsLines(events), at, trace) == Ok(trace.(events := trace.events + events))
    decreases |events|
  {
    hide Trim, ParseStanza, StartsStanza, LineEvent, EventLines, EventBody, EventsLines, ParseLines;
    if events == [] {
      NoEventsRead(at, trace);
      assert trace.events + events == trace.events;
    } else {
      var event, n := events[0], |EventBody(events[0])|;
      EventsLinesShape(events);
      EventsStartStanza(events[1..]);
      EventReads(event, EventsLines(events[1..]), at);
      ParseLinesStep(EventsLines(events), at, trace, Crossing(event, n), n);
      EventsRead(events[1..], at + 1 + n, Add(trace, Crossing(event, n)));
      assert trace.events + [event] + events[1..] == trace.events + events;
    }
  }

  // ---------------------------------------------------------------------------------------------
  // The header
  // ---------------------------------------------------------------------------------------------

  lemma {:induction false} ShaReads(sha256: string, rest: seq<string>, at: nat)
    requires SpaceFreeEnd(sha256)
    ensures var line := Trim("component sha256:" + sha256);
            line != "" && ParseStanza(line, rest, at) == Ok(Sha(sha256))
  {
    var tail := "sha256:" + sha256;
    assert tail[|tail| - 1] == if sha256 == "" then ':' else sha256[|sha256| - 1];
    assert "component" + " " + tail == "component sha256:" + sha256;
    KeywordLine("component", tail);
    assert "sha256:" <= tail && tail[7..] == sha256;
  }

  lemma {:induction false} PluginReads(name: string, rest: seq<string>, at: nat)
    requires NoOuterSpace(name)
    ensures var line := Trim("plugin " + name);
            line != "" && ParseStanza(line, rest, at) == Ok(Plugin(name))
  {
    assert "plugin" + " " + name == "plugin " + name;
    KeywordLine("plugin", name);
    hide Trim, KeywordAndRest, NoOuterSpace, JoinNewlines, CollectArgs, CollectBlock, CollectOutcome, SplitPair;
  }

  lemma {:induction false} BlockReads(block: seq<string>, rest: seq<string>)
    requires rest != [] && rest[0] == ""
    ensures CollectBlock(Indented(block) + rest) == block
  {
    var lines := Indented(block) + rest;
    var values := seq(|lines|, i requires 0 <= i < |lines| => BlockLine(lines[i]));
    forall i | 0 <= i < |block| ensures values[i] == Some(block[i]) {
      assert lines[i] == "  " + block[i];
    }
    assert lines[|block|] == "";
    LeadingSome(block, values);
  }

  lemma {:induction false} ManifestReads(block: seq<string>, rest: seq<string>, at: nat)
    requires rest != [] && rest[0] == ""
    ensures var line := Trim("manifest");
            && line != ""
            && ParseStanza(line, Indented(block) + rest, at) == Ok(Manifest(JoinNewlines(block), |block|))
  {
    hide CollectArgs, CollectBlock, CollectOutcome, SplitPair, StripPrefix, Trim, FirstSpace, JoinNewlines, Indented;
    BlockReads(block, rest);
    TrimNoOuter("manifest");
    FirstSpaceIs("manifest", 8);
  }

  /** The blank line that ends a header, and everything after it. */
  lemma {:induction false} BodyReads(events: seq<Event>, at: nat, trace: Trace)
    requires forall i | 0 <= i < |events| :: LineEvent(events[i])
    ensures ParseLines([""] + EventsLines(events), at, trace) == Ok(trace.(events := trace.events + events))
  {
    assert ([""] + EventsLines(events))[1..] == EventsLines(events);
    EventsRead(events, at + 1, trace);
  }

  lemma {:induction false} ManifestShape(block: seq<string>, rest: seq<string>)
    requires block != []
    ensures var lines := ManifestLines(block) + rest;
            && lines[0] == "manifest" && lines[1..] == Indented(block) + rest && lines[1 + |block|..] == rest
  {
    ConsShape("manifest", Indented(block), rest);
  }

  /** The manifest block is read off, and what follows it is left. */
  lemma {:induction false} BlockThenRest(block: seq<string>, rest: seq<string>, at: nat, trace: Trace)
    requires rest != [] && rest[0] == ""
    ensures ParseLines(ManifestLines(block) + rest, at, trace)
         == ParseLines(
              rest, at + |ManifestLines(block)|,
              if block == [] then trace else Add(trace, Manifest(JoinNewlines(block), |block|)))
  {
    hide Trim, ParseStanza, ParseLines, JoinNewlines;
    if block == [] {
      assert ManifestLines(block) + rest == rest;
    } else {
      ManifestShape(block, rest);
      ManifestReads(block, rest, at);
      ParseLinesStep(ManifestLines(block) + rest, at, trace, Manifest(JoinNewlines(block), |block|), |block|);
    }
  }

  lemma {:induction false} NoBlock()
    ensures JoinNewlines([]) == ""
  {
  }

  lemma {:induction false} HeaderReads(sha256: string, plugin: string, block: seq<string>, events: seq<Event>)
    requires SpaceFreeEnd(sha256) && NoOuterSpace(plugin)
    requires forall i | 0 <= i < |events| :: LineEvent(events[i])
    ensures ParseLines((HeaderLines(sha256, plugin, block) + EventsLines(events))[1..], 2, BLANK)
         == Ok(Trace(Header(sha256, plugin, JoinNewlines(block)), events))
  {
    hide Trim, ParseStanza, ManifestLines, EventsLines, LineEvent, JoinNewlines, ParseLines, SpaceFreeEnd, NoOuterSpace;
    var lines := (HeaderLines(sha256, plugin, block) + EventsLines(events))[1..];
    var rest := ManifestLines(block) + ([""] + EventsLines(events));
    var one := Add(BLANK, Sha(sha256));
    assert lines == ["component sha256:" + sha256, "plugin " + plugin] + rest;
    assert lines[1..] == ["plugin " + plugin] + rest && lines[1..][1..] == rest;
    ShaReads(sha256, lines[1..], 2);
    ParseLinesStep(lines, 2, BLANK, Sha(sha256), 0);
    PluginReads(plugin, rest, 3);
    ParseLinesStep(lines[1..], 3, one, Plugin(plugin), 0);
    var two := Add(one, Plugin(plugin));
    BlockThenRest(block, [""] + EventsLines(events), 4, two);
    var three := if block == [] then two else Add(two, Manifest(JoinNewlines(block), |block|));
    NoBlock();
    BodyReads(events, 4 + |ManifestLines(block)|, three);
    assert [] + events == events;
  }

  lemma {:induction false} OneTrims()
    ensures Trim(" 1") == "1"
  {
    assert " 1"[1..] == "1";
    TrimNoOuter("1");
    assert TrimStart(" 1") == TrimStart(" 1"[1..]);
  }

  lemma {:induction false} OneParses()
    ensures ParseU32("1") == Some(1)
  {
    hide TrimStart, TrimEnd, Trim;
    var s := "1";
    assert s[0] == '1' && s[1..] == "" && IsDigit(s[0]);
    assert "+"[0] != s[0];
    assert DigitsValue(1, "") == 1;
    assert DigitsValue(0, s) == DigitsValue(1, s[1..]);
  }

  lemma {:induction false} VersionReads()
    ensures ParseVersion("watoots-trace 1") == Ok(())
  {
    hide Trim, ParseU32;
    var line := "watoots-trace 1";
    assert MAGIC <= line && line[|MAGIC|..] == " 1";
    OneTrims();
    OneParses();
  }

  // ---------------------------------------------------------------------------------------------
  // What a line loses
  // ---------------------------------------------------------------------------------------------

  function StripOutcome(outcome: Outcome): Outcome {
    match outcome
    case Value(Some(value)) => Value(Some(StripCr(value)))
    case _ => outcome
  }

  function StripEvent(event: Event): Event {
    match event
    case ExportCall(func, args) => ExportCall(func, StripCrs(args))
    case ExportReturn(func, outcome) => ExportReturn(func, StripOutcome(outcome))
    case ImportCall(interface, func, args) => ImportCall(interface, func, StripCrs(args))
    case ImportReturn(interface, func, outcome) => ImportReturn(interface, func, StripOutcome(outcome))
  }

  function StripEvents(events: seq<Event>): (stripped: seq<Event>)
    ensures |stripped| == |events|
    ensures forall i | 0 <= i < |events| :: stripped[i] == StripEvent(events[i])
  {
    seq(|events|, i requires 0 <= i < |events| => StripEvent(events[i]))
  }

  /** The trace with one carriage return gone from the end of every value and manifest line. */
  function StripTrace(trace: Trace): Trace {
    var manifest := JoinNewlines(StripCrs(ManifestBlock(trace.header.manifestToml)));
    Trace(trace.header.(manifestToml := manifest), StripEvents(trace.events))
  }

  lemma {:induction false} StripAfter(head: string, tail: string)
    requires !EndsInCr(head)
    ensures StripCr(head + tail) == head + StripCr(tail)
  {
  }

  lemma {:induction false} SpaceFreeEndHasNoCr(s: string)
    requires SpaceFreeEnd(s)
    ensures !EndsInCr(s) && StripCr(s) == s
  {
  }

  lemma {:induction false} StripCrsConcat(a: seq<string>, b: seq<string>)
    ensures StripCrs(a + b) == StripCrs(a) + StripCrs(b)
  {
  }

  predicate SingleLines(lines: seq<string>) {
    forall i | 0 <= i < |lines| :: SingleLine(lines[i])
  }

  lemma {:induction false} OutcomeLineStrips(outcome: Outcome)
    requires LineOutcome(outcome)
    ensures SingleLine(OutcomeLine(outcome))
    ensures StripCr(OutcomeLine(outcome)) == OutcomeLine(StripOutcome(outcome))
  {
    match outcome {
      case Value(None) =>
      case Value(Some(value)) => StripAfter("  value ", value);
      case Error(status, message) =>
        UnquoteQuote(message);
        StripAfter("  error " + status + " ", Quote(message));
        assert SingleLine("  error " + status + " ");
    }
  }

  lemma {:induction false} ArgLinesStrip(args: seq<string>)
    requires LineArgs(args)
    ensures SingleLines(ArgLines(args)) && StripCrs(ArgLines(args)) == ArgLines(StripCrs(args))
  {
    forall i | 0 <= i < |args|
      ensures SingleLine(ArgLines(args)[i]) && StripCr(ArgLines(args)[i]) == ArgLines(StripCrs(args))[i]
    {
      StripAfter("  arg ", args[i]);
    }
  }

  lemma {:induction false} EventBodyStrips(event: Event)
    requires LineEvent(event)
    ensures SingleLines(EventBody(event)) && StripCrs(EventBody(event)) == EventBody(StripEvent(event))
  {
    if event.ExportCall? || event.ImportCall? {
      ArgLinesStrip(event.args);
    } else {
      OutcomeLineStrips(event.outcome);
    }
  }

  lemma {:induction false} EventHeadStrips(event: Event)
    requires LineEvent(event)
    ensures var head := EventKeyword(event) + " " + EventNames(event); SingleLine(head) && StripCr(head) == head
  {
    NamesRead(event);
    StripAfter(EventKeyword(event) + " ", EventNames(event));
    SpaceFreeEndHasNoCr(EventNames(event));
    assert SingleLine(EventKeyword(event) + " ");
    assert SingleLine(EventNames(event));
  }

  lemma {:induction false} EventLinesStrip(event: Event)
    requires LineEvent(event)
    ensures SingleLines(EventLines(event)) && StripCrs(EventLines(event)) == EventLines(StripEvent(event))
  {
    hide EventBody, LineEvent;
    EventHeadStrips(event);
    EventBodyStrips(event);
    StripCrsConcat([EventKeyword(event) + " " + EventNames(event)], EventBody(event));
  }

  lemma {:induction false} EventsLinesStrip(events: seq<Event>)
    requires forall i | 0 <= i < |events| :: LineEvent(events[i])
    ensures SingleLines(EventsLines(events))
    ensures StripCrs(EventsLines(events)) == EventsLines(StripEvents(events))
  {
    hide LineEvent, EventLines, StripEvent;
    if events != [] {
      EventLinesStrip(events[0]);
      EventsLinesStrip(events[1..]);
      StripCrsConcat(EventLines(events[0]), EventsLines(events[1..]));
      assert StripEvents(events)[1..] == StripEvents(events[1..]);
    }
  }

  lemma {:induction false} ManifestLinesStrip(block: seq<string>)
    requires SingleLines(block)
    ensures SingleLines(ManifestLines(block)) && StripCrs(ManifestLines(block)) == ManifestLines(StripCrs(block))
  {
    forall i | 0 <= i < |block|
      ensures SingleLine(Indented(block)[i]) && StripCr(Indented(block)[i]) == Indented(StripCrs(block))[i]
    {
      StripAfter("  ", block[i]);
    }
    if block != [] {
      assert StripCrs(Indented(block)) == Indented(StripCrs(block));
      StripCrsConcat(["manifest"], Indented(block));
      assert StripCrs(["manifest"]) == ["manifest"];
    }
  }

  lemma {:induction false} TopLinesStrip(sha256: string, plugin: string)
    requires SingleLine(sha256) && SpaceFreeEnd(sha256) && Printable(plugin)
    ensures var top := ["watoots-trace 1", "component sha256:" + sha256, "plugin " + plugin];
            SingleLines(top) && StripCrs(top) == top
  {
    StripAfter("component sha256:", sha256);
    StripAfter("plugin ", plugin);
    SpaceFreeEndHasNoCr(sha256);
    SpaceFreeEndHasNoCr(plugin);
    var top := ["watoots-trace 1", "component sha256:" + sha256, "plugin " + plugin];
    assert SingleLine(top[0]) && SingleLine(top[1]) && SingleLine(top[2]);
    assert StripCr(top[0]) == top[0];
  }

  lemma {:induction false} TextLinesStrip(trace: Trace)
    requires LineTrace(trace)
    ensures var header, block := trace.header, ManifestBlock(trace.header.manifestToml);
            Lines(ToText(trace)) == HeaderLines(header.componentSha256, header.plugin, StripCrs(block))
                                    + EventsLines(StripEvents(trace.events))
  {
    hide LineEvent, EventsLines, ManifestLines, StripEvents, Lines;
    var header, block := trace.header, ManifestBlock(trace.header.manifestToml);
    var top := ["watoots-trace 1", "component sha256:" + header.componentSha256, "plugin " + header.plugin];
    var middle, events := ManifestLines(block), EventsLines(trace.events);
    TopLinesStrip(header.componentSha256, header.plugin);
    ManifestLinesStrip(block);
    EventsLinesStrip(trace.events);
    StripCrsConcat(top, middle);
    StripCrsConcat(top + middle, [""]);
    StripCrsConcat(top + middle + [""], events);
    assert StripCrs([""]) == [""];
    LinesOfUnlines(top + middle + [""] + events);
  }

  /** Printing and parsing loses exactly the carriage returns that ended a line. */
  lemma {:induction false} RoundTripStrips(trace: Trace)
    requires LineTrace(trace)
    ensures FromText(ToText(trace)) == Ok(StripTrace(trace))
  {
    hide LineEvent, EventsLines, ManifestLines, StripEvents, Lines, ToText, ParseLines, ParseVersion;
    TextLinesStrip(trace);
    VersionReads();
    StrippedEventsFit(trace.events);
    HeaderReads(trace.header.componentSha256, trace.header.plugin,
                StripCrs(ManifestBlock(trace.header.manifestToml)), StripEvents(trace.events));
  }

  lemma {:induction false} StrippedEventsFit(events: seq<Event>)
    requires forall i | 0 <= i < |events| :: LineEvent(events[i])
    ensures forall i | 0 <= i < |events| :: LineEvent(StripEvents(events)[i])
  {
    forall i | 0 <= i < |events| ensures LineEvent(StripEvents(events)[i]) {
      assert LineEvent(events[i]);
    }
  }

  lemma {:induction false} StripsNothing(trace: Trace)
    ensures StripTrace(trace) == trace <==> CrFree(trace)
  {
    hide LineEvent;
    StripsNothingFromManifest(trace.header.manifestToml);
    var events, stripped := trace.events, StripEvents(trace.events);
    if forall i | 0 <= i < |events| :: CrFreeEvent(events[i]) {
      forall i | 0 <= i < |events| ensures stripped[i] == events[i] {
        StripsNothingFromEvent(events[i]);
      }
      assert stripped == events;
    }
    if stripped == events {
      forall i | 0 <= i < |events| ensures CrFreeEvent(events[i]) {
        StripsNothingFromEvent(events[i]);
        assert stripped[i] == StripEvent(events[i]);
      }
    }
  }

  lemma {:induction false} StripsNothingFromManifest(manifest: string)
    ensures JoinNewlines(StripCrs(ManifestBlock(manifest))) == manifest <==> CrFreeLines(ManifestBlock(manifest))
  {
    if manifest != "" {
      JoinSplit(manifest);
      StripCrsJoin(ManifestBlock(manifest));
    }
  }

  lemma {:induction false} StripsNothingFromArgs(args: seq<string>)
    ensures StripCrs(args) == args <==> CrFreeArgs(args)
  {
    if StripCrs(args) == args {
      forall i | 0 <= i < |args| ensures !EndsInCr(args[i]) {
        assert StripCrs(args)[i] == StripCr(args[i]);
      }
    }
  }

  lemma {:induction false} StripsNothingFromEvent(event: Event)
    ensures StripEvent(event) == event <==> CrFreeEvent(event)
  {
    if event.ExportCall? || event.ImportCall? {
      StripsNothingFromArgs(event.args);
    }
  }

  // ---------------------------------------------------------------------------------------------
  // What parsing can produce
  // ---------------------------------------------------------------------------------------------

  /** `part`'s characters are all characters of `whole`. */
  predicate DrawnFrom(part: string, whole: string) {
    forall c | c in part :: c in whole
  }

  lemma {:induction false} SliceDrawn(whole: string, from: nat, to: nat)
    requires from <= to <= |whole|
    ensures DrawnFrom(whole[from..to], whole)
  {
  }

  lemma {:induction false} SplitAtSpaceParts(s: string)
    requires SplitAtSpace(s).Some?
    ensures var (head, tail) := SplitAtSpace(s).value;
            && NoSpace(head) && DrawnFrom(head, s) && DrawnFrom(tail, s)
            && (s != "" && !IsSpace(s[0]) ==> head != "")
            && (SpaceFreeEnd(s) ==> tail != "" && !IsSpace(tail[|tail| - 1]))
  {
    var i := FirstSpace(s);
    SliceDrawn(s, 0, i);
    SliceDrawn(s, i + 1, |s|);
    assert s[0..i] == s[..i] && s[i + 1..|s|] == s[i + 1..];
    if SpaceFreeEnd(s) {
      assert i != |s| - 1;
      assert s[i + 1..][|s| - i - 2] == s[|s| - 1];
    }
  }

  lemma {:induction false} EmptyDoesNotSplit()
    ensures SplitAtSpace("") == None
  {
  }

  lemma {:induction false} RestOf(line: string)
    requires NoOuterSpace(line)
    ensures var (keyword, rest) := KeywordAndRest(line);
            NoOuterSpace(rest) && DrawnFrom(rest, line)
  {
    hide SplitAtSpace;
    if SplitAtSpace(line).Some? {
      SplitAtSpaceParts(line);
      var tail := SplitAtSpace(line).value.1;
      TrimStartDrawn(tail);
      var rest := TrimStart(tail);
      assert rest != "" ==> rest[|rest| - 1] == tail[|tail| - 1];
    }
  }

  lemma {:induction false} TrimStartDrawn(s: string)
    ensures DrawnFrom(TrimStart(s), s)
  {
    SliceDrawn(s, |s| - |TrimStart(s)|, |s|);
    assert s[|s| - |TrimStart(s)|..|s|] == TrimStart(s);
  }

  lemma {:induction false} DrawnTrans(a: string, b: string, c: string)
    requires DrawnFrom(a, b) && DrawnFrom(b, c)
    ensures DrawnFrom(a, c)
  {
  }

  lemma {:induction false} ArgValueDrawn(line: string)
    requires ArgValue(line).Some?
    ensures DrawnFrom(ArgValue(line).value, line)
  {
    var trimmed := TrimStart(line);
    TrimStartDrawn(line);
    assert forall c | c in trimmed[3..] :: c in trimmed;
  }

  lemma {:induction false} PairParts(rest: string, at: nat)
    requires NoOuterSpace(rest) && SingleLine(rest) && SplitPair(rest, at).Ok?
    ensures var (interface, func) := SplitPair(rest, at).value;
            Word(interface) && Printable(func) && func != ""
  {
    hide SplitAtSpace;
    SplitAtSpaceParts(rest);
    var (interface, tail) := SplitAtSpace(rest).value;
    EmptyDoesNotSplit();
    var func := Trim(tail);
    assert SingleLine(tail);
    assert func != "" by {
      TrimKeepsLast(tail);
    }
  }

  lemma {:induction false} TrimKeepsLast(s: string)
    requires s != "" && !IsSpace(s[|s| - 1])
    ensures Trim(s) != ""
  {
    if IsSpace(s[0]) {
      assert s[1..] != "" && s[1..][|s| - 2] == s[|s| - 1];
      TrimKeepsLast(s[1..]);
    }
  }

  lemma {:induction false} KeywordValueDrawn(trimmed: string, keyword: string)
    ensures DrawnFrom(KeywordValue(trimmed, keyword), trimmed)
  {
    if keyword + " " <= trimmed {
      SliceDrawn(trimmed, |keyword + " "|, |trimmed|);
      assert trimmed[|keyword + " "|..|trimmed|] == trimmed[|keyword + " "|..];
    }
  }

  lemma {:induction false} StatusIsWord(line: string)
    requires SplitAtSpace(KeywordAndRest(line).1).Some?
    ensures Word(SplitAtSpace(KeywordAndRest(line).1).value.0)
  {
    hide SplitAtSpace;
    EmptyDoesNotSplit();
    SplitAtSpaceParts(KeywordAndRest(line).1);
  }

  lemma {:induction false} DrawnKeeps(part: string, whole: string)
    requires DrawnFrom(part, whole)
    ensures SingleLine(whole) ==> SingleLine(part)
    ensures '\r' !in whole ==> !EndsInCr(part)
  {
  }

  /** The outcome a line carries; a value is drawn from the line's characters. */
  lemma {:induction false} OutcomeParts(line: string, at: nat)
    requires SingleLine(line) && ParseOutcome(line, at).Ok?
    ensures LineOutcome(ParseOutcome(line, at).value)
    ensures '\r' !in line ==> CrFreeOutcome(ParseOutcome(line, at).value)
  {
    hide SplitAtSpace, Unquote, TrimStart, KeywordValue, KeywordAndRest, DrawnFrom, SingleLine, EndsInCr, Word;
    var trimmed := TrimStart(line);
    var (keyword, rest) := KeywordAndRest(trimmed);
    if keyword == "value" {
      var value := KeywordValue(trimmed, "value");
      TrimStartDrawn(line);
      KeywordValueDrawn(trimmed, "value");
      DrawnTrans(value, trimmed, line);
      DrawnKeeps(value, line);
    } else if keyword == "error" {
      StatusIsWord(trimmed);
    }
  }

  predicate CrFreeAll(lines: seq<string>) {
    forall i | 0 <= i < |lines| :: '\r' !in lines[i]
  }

  lemma {:induction false} ArgsParts(lines: seq<string>)
    requires SingleLines(lines)
    ensures LineArgs(CollectArgs(lines))
    ensures CrFreeAll(lines) ==> CrFreeArgs(CollectArgs(lines))
  {
    hide ArgValue;
    var args := CollectArgs(lines);
    forall i | 0 <= i < |args| ensures SingleLine(args[i]) && (CrFreeAll(lines) ==> !EndsInCr(args[i])) {
      assert ArgValues(lines)[i] == Some(args[i]);
      ArgValueDrawn(lines[i]);
    }
  }

  lemma {:induction false} BlockParts(lines: seq<string>)
    requires SingleLines(lines)
    ensures SingleLines(CollectBlock(lines))
    ensures CrFreeAll(lines) ==> CrFreeLines(CollectBlock(lines))
  {
    var block := CollectBlock(lines);
    var values := seq(|lines|, i requires 0 <= i < |lines| => BlockLine(lines[i]));
    forall i | 0 <= i < |block| ensures SingleLine(block[i]) && (CrFreeAll(lines) ==> !EndsInCr(block[i])) {
      assert values[i] == Some(block[i]);
      assert forall c | c in block[i] :: c in lines[i];
    }
  }

  /** A joined block of lines none of which ends in a carriage return splits into such lines. */
  lemma {:induction false} CrFreeJoined(block: seq<string>)
    requires SingleLines(block) && CrFreeLines(block)
    ensures CrFreeLines(ManifestBlock(JoinNewlines(block)))
  {
    if block != [] {
      SplitJoin(block);
    }
  }

  lemma {:induction false} SplitJoin(block: seq<string>)
    requires block != [] && SingleLines(block)
    ensures SplitNewlines(JoinNewlines(block)) == block
  {
    if |block| > 1 {
      var joined, rest := JoinNewlines(block), JoinNewlines(block[1..]);
      assert joined[..|block[0]|] == block[0] && joined[|block[0]| + 1..] == rest;
      FirstNewlineIs(joined, |block[0]|);
      SplitJoin(block[1..]);
    }
  }

  /** What a stanza may add: parts that fit their places on a line. */
  predicate FitStanza(stanza: Stanza) {
    match stanza
    case Sha(sha256) => SingleLine(sha256) && SpaceFreeEnd(sha256)
    case Plugin(name) => Printable(name)
    case Manifest(_, _) => true
    case Crossing(event, _) => LineEvent(event)
  }

  predicate CrFreeStanza(stanza: Stanza) {
    match stanza
    case Manifest(toml, _) => CrFreeLines(ManifestBlock(toml))
    case Crossing(event, _) => CrFreeEvent(event)
    case _ => true
  }

  lemma {:induction false} StanzaParts(trimmed: string, rest: seq<string>, at: nat)
    requires NoOuterSpace(trimmed) && SingleLine(trimmed) && SingleLines(rest)
    requires ParseStanza(trimmed, rest, at).Ok?
    ensures FitStanza(ParseStanza(trimmed, rest, at).value)
    ensures CrFreeAll(rest) ==> CrFreeStanza(ParseStanza(trimmed, rest, at).value)
  {
    hide KeywordAndRest, ParseOutcome, CollectArgs, CollectBlock, SplitPair, JoinNewlines, ManifestBlock;
    RestOf(trimmed);
    var (keyword, tail) := KeywordAndRest(trimmed);
    ArgsParts(rest);
    BlockParts(rest);
    if CrFreeAll(rest) {
      CrFreeJoined(CollectBlock(rest));
    }
    if SplitPair(tail, at).Ok? {
      PairParts(tail, at);
    }
    if rest != [] && ParseOutcome(rest[0], at).Ok? {
      OutcomeParts(rest[0], at);
    }
    if keyword == "component" {
      assert "sha256:" <= tail ==> SpaceFreeEnd(tail[7..]) && DrawnFrom(tail[7..], tail);
    }
  }

  lemma {:induction false} ParsedFits(lines: seq<string>, at: nat, trace: Trace)
    requires SingleLines(lines) && LineTrace(trace)
    ensures ParseLines(lines, at, trace).Ok? ==>
              && LineTrace(ParseLines(lines, at, trace).value)
              && (CrFreeAll(lines) && CrFree(trace) ==> CrFree(ParseLines(lines, at, trace).value))
    decreases |lines|
  {
    hide Trim, ParseStanza, LineEvent, CrFreeEvent, ManifestBlock;
    if lines != [] {
      var trimmed := Trim(lines[0]);
      TrimParts(lines[0]);
      if trimmed == "" {
        ParsedFits(lines[1..], at + 1, trace);
      } else if ParseStanza(trimmed, lines[1..], at).Ok? {
        StanzaParts(trimmed, lines[1..], at);
        var stanza := ParseStanza(trimmed, lines[1..], at).value;
        AddedFits(trace, stanza);
        ParsedFits(lines[1 + Taken(stanza)..], at + 1 + Taken(stanza), Add(trace, stanza));
      }
    }
  }

  lemma {:induction false} TrimParts(line: string)
    requires SingleLine(line)
    ensures NoOuterSpace(Trim(line)) && SingleLine(Trim(line))
  {
  }

  lemma {:induction false} AddedFits(trace: Trace, stanza: Stanza)
    requires LineTrace(trace) && FitStanza(stanza)
    ensures LineTrace(Add(trace, stanza))
    ensures CrFree(trace) && CrFreeStanza(stanza) ==> CrFree(Add(trace, stanza))
  {
    hide LineEvent, CrFreeEvent, ManifestBlock;
  }

  lemma {:induction false} AcceptedFits(text: string)
    ensures FromText(text).Ok? ==>
              LineTrace(FromText(text).value) && ('\r' !in text ==> CrFree(FromText(text).value))
  {
    hide ParseVersion, ParseLines, Lines;
    var lines := Lines(text);
    if lines != [] {
      assert SingleLines(lines[1..]);
      ParsedFits(lines[1..], 2, BLANK);
    }
  }

  // ---------------------------------------------------------------------------------------------
  // The two promises
  // ---------------------------------------------------------------------------------------------

  /** A trace survives printing and parsing if and only if it is well-formed. */
  lemma {:induction false} TextRoundTrip(trace: Trace)
    ensures FromText(ToText(trace)) == Ok(trace) <==> WellFormed(trace)
  {
    hide FromText, ToText, LineTrace, CrFree;
    StripsNothing(trace);
    if FromText(ToText(trace)) == Ok(trace) {
      AcceptedFits(ToText(trace));
    }
    if LineTrace(trace) {
      RoundTripStrips(trace);
    }
  }

  /**
    Printing is canonical on accepted texts: printing what a text parsed to and parsing again gives
    the same trace, unless a value or manifest line of it ends in a carriage return; and no text
    free of carriage returns parses to such a trace.
    */
  lemma {:induction false} PrintAfterParse(text: string)
    ensures match FromText(text)
            case Err(_) => true
            case Ok(trace) =>
              && FromText(ToText(trace)) == Ok(StripTrace(trace))
              && (FromText(ToText(trace)) == Ok(trace) <==> CrFree(trace))
              && ('\r' !in text ==> FromText(ToText(trace)) == Ok(trace))
  {
    hide FromText, ToText, LineTrace, CrFree;
    AcceptedFits(text);
    if FromText(text).Ok? {
      RoundTripStrips(FromText(text).value);
      StripsNothing(FromText(text).value);
    }
  }
}
