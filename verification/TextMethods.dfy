/** Printing into a growing buffer and parsing with a cursor over the lines, as the format is implemented. */
module TextMethods {
  import opened Wrappers
  import opened Strings
  import opened TraceModel
  import opened TextCodec

  lemma {:induction false} UnlinesPush(lines: seq<string>, line: string)
    ensures Unlines(lines + [line]) == Unlines(lines) + line + "\n"
  {
    UnlinesConcat(lines, [line]);
    assert [line][1..] == [];
    assert Unlines([line]) == line + "\n" + "";
  }

  lemma {:induction false} QuoteBodyConcat(a: string, b: string)
    ensures QuoteBody(a + b) == QuoteBody(a) + QuoteBody(b)
  {
    if a == "" {
      assert a + b == b;
    } else {
      assert (a + b)[1..] == a[1..] + b;
      QuoteBodyConcat(a[1..], b);
    }
  }

  method QuoteInto(text: string) returns (out: string)
    ensures out == Quote(text)
  {
    out := "\"";
    for i := 0 to |text|
      invariant out == "\"" + QuoteBody(text[..i])
    {
      var c := text[i];
      assert text[..i + 1] == text[..i] + [c];
      QuoteBodyConcat(text[..i], [c]);
      assert QuoteBody([c]) == QuoteChar(c) + QuoteBody([c][1..]);
      out := out + QuoteChar(c);
    }
    assert text[..|text|] == text;
    out := out + "\"";
  }

  /** A result with text put in front of it. */
  function Prepend(out: string, r: Result<string, QuoteError>): Result<string, QuoteError> {
    match r
    case Ok(rest) => Ok(out + rest)
    case Err(e) => Err(e)
  }

  lemma {:induction false} PrependPush(out: string, c: char, r: Result<string, QuoteError>)
    ensures Prepend(out + [c], r) == Prepend(out, Prepend([c], r))
    ensures Prepend("", r) == r
  {
    if r.Ok? {
      assert out + [c] + r.value == out + ([c] + r.value);
      assert "" + r.value == r.value;
    }
  }

  method UnquoteFrom(text: string) returns (r: Result<string, QuoteError>)
    ensures r == Unquote(text)
  {
    if |text| < 2 || text[0] != '"' || text[|text| - 1] != '"' {
      return Err(NotQuoted);
    }
    var inner := text[1..|text| - 1];
    var out, at := "", 0;
    assert inner[0..] == inner;
    PrependPush("", 'x', UnquoteBody(inner));
    while at < |inner|
      invariant at <= |inner|
      invariant UnquoteBody(inner) == Prepend(out, UnquoteBody(inner[at..]))
    {
      ghost var left := inner[at..];
      assert left[0] == inner[at] && left[1..] == inner[at + 1..];
      if inner[at] != '\\' {
        PrependPush(out, inner[at], UnquoteBody(inner[at + 1..]));
        out := out + [inner[at]];
        at := at + 1;
        continue;
      }
      if at + 1 == |inner| {
        return Err(EndsInBackslash);
      }
      assert left[1] == inner[at + 1] && left[2..] == inner[at + 2..];
      var c;
      match inner[at + 1] {
        case '"' => c := '"';
        case '\\' => c := '\\';
        case 'n' => c := '\n';
        case 'r' => c := '\r';
        case 't' => c := '\t';
        case other => return Err(UnknownEscape(other));
      }
      PrependPush(out, c, UnquoteBody(inner[at + 2..]));
      out := out + [c];
      at := at + 2;
    }
    assert inner[at..] == "" && out + "" == out;
    r := Ok(out);
  }

  method PushArgs(out: string, args: seq<string>, ghost lines: seq<string>) returns (out': string)
    requires out == Unlines(lines)
    ensures out' == Unlines(lines + ArgLines(args))
  {
    out' := out;
    assert lines + ArgLines(args)[..0] == lines;
    for i := 0 to |args|
      invariant out' == Unlines(lines + ArgLines(args)[..i])
    {
      var line := "  arg " + args[i];
      out' := out' + line + "\n";
      UnlinesPush(lines + ArgLines(args)[..i], line);
      assert lines + ArgLines(args)[..i] + [line] == lines + ArgLines(args)[..i + 1];
    }
    assert ArgLines(args)[..|args|] == ArgLines(args);
  }

  method PushOutcome(out: string, outcome: Outcome, ghost lines: seq<string>) returns (out': string)
    requires out == Unlines(lines)
    ensures out' == Unlines(lines + [OutcomeLine(outcome)])
  {
    UnlinesPush(lines, OutcomeLine(outcome));
    match outcome {
      case Value(None) =>
        out' := out + "  unit" + "\n";
      case Value(Some(value)) =>
        out' := out + ("  value " + value) + "\n";
      case Error(status, message) =>
        var quoted := QuoteInto(message);
        out' := out + ("  error " + status + " " + quoted) + "\n";
    }
  }

  method PushEvent(out: string, event: Event, ghost lines: seq<string>) returns (out': string)
    requires out == Unlines(lines)
    ensures out' == Unlines(lines + EventLines(event))
  {
    hide EventKeyword, EventNames, Unlines, ArgLines, OutcomeLine;
    var head := EventKeyword(event) + " " + EventNames(event);
    UnlinesPush(lines, head);
    out' := out + head + "\n";
    if event.ExportCall? || event.ImportCall? {
      out' := PushArgs(out', event.args, lines + [head]);
    } else {
      out' := PushOutcome(out', event.outcome, lines + [head]);
    }
    assert lines + EventLines(event) == lines + [head] + EventBody(event);
  }

  method PushManifest(out: string, manifest: string, ghost lines: seq<string>) returns (out': string)
    requires out == Unlines(lines)
    ensures out' == Unlines(lines + ManifestLines(ManifestBlock(manifest)))
  {
    out' := out;
    if manifest == "" {
      assert lines + [] == lines;
      return;
    }
    UnlinesPush(lines, "manifest");
    out' := out' + "manifest" + "\n";
    var pieces := SplitNewlines(manifest);
    ghost var top := lines + ["manifest"];
    assert top + Indented(pieces)[..0] == top;
    for i := 0 to |pieces|
      invariant out' == Unlines(top + Indented(pieces)[..i])
    {
      out' := out' + ("  " + pieces[i]) + "\n";
      UnlinesPush(top + Indented(pieces)[..i], "  " + pieces[i]);
      assert top + Indented(pieces)[..i] + ["  " + pieces[i]] == top + Indented(pieces)[..i + 1];
    }
    assert Indented(pieces)[..|pieces|] == Indented(pieces);
    assert lines + ManifestLines(pieces) == top + Indented(pieces);
  }

  lemma {:induction false} EventsLinesConcat(a: seq<Event>, b: seq<Event>)
    ensures EventsLines(a + b) == EventsLines(a) + EventsLines(b)
  {
    hide EventLines;
    if a == [] {
      assert a + b == b;
    } else {
      assert (a + b)[1..] == a[1..] + b;
      EventsLinesConcat(a[1..], b);
    }
  }

  /** Print a trace, a line at a time. */
  method Print(trace: Trace) returns (out: string)
    ensures out == ToText(trace)
  {
    hide EventLines, ManifestLines;
    var header := trace.header;
    var top := ["watoots-trace 1", "component sha256:" + header.componentSha256, "plugin " + header.plugin];
    UnlinesPush([], top[0]);
    UnlinesPush([top[0]], top[1]);
    UnlinesPush([top[0], top[1]], top[2]);
    assert [] + [top[0]] == [top[0]] && [top[0]] + [top[1]] == [top[0], top[1]] && [top[0], top[1]] + [top[2]] == top;
    out := "" + top[0] + "\n" + top[1] + "\n" + top[2] + "\n";
    out := PushManifest(out, header.manifestToml, top);
    ghost var block := ManifestLines(ManifestBlock(header.manifestToml));
    UnlinesPush(top + block, "");
    out := out + "" + "\n";
    ghost var lines := HeaderLines(header.componentSha256, header.plugin, ManifestBlock(header.manifestToml));
    assert lines == top + block + [""];
    assert lines + EventsLines(trace.events[..0]) == lines;
    for i := 0 to |trace.events|
      invariant out == Unlines(lines + EventsLines(trace.events[..i]))
    {
      out := PushEvent(out, trace.events[i], lines + EventsLines(trace.events[..i]));
      assert trace.events[..i + 1] == trace.events[..i] + [trace.events[i]];
      EventsLinesConcat(trace.events[..i], [trace.events[i]]);
      OneEvent(trace.events[i]);
      assert lines + EventsLines(trace.events[..i]) + EventLines(trace.events[i])
          == lines + EventsLines(trace.events[..i + 1]);
    }
    assert trace.events[..|trace.events|] == trace.events;
  }

  lemma {:induction false} OneEvent(event: Event)
    ensures EventsLines([event]) == EventLines(event)
  {
    assert [event][1..] == [];
    assert EventsLines([event][1..]) == [];
  }

  /** Take the argument lines from `at` on; the cursor ends on the first line that is not one. */
  method TakeArgs(lines: seq<string>, at: nat) returns (args: seq<string>, next: nat)
    requires at <= |lines|
    ensures args == CollectArgs(lines[at..]) && next == at + |args| <= |lines|
  {
    hide ArgValue;
    args, next := [], at;
    ghost var all := Leading(ArgValues(lines[at..]));
    while next < |lines|
      invariant at <= next <= |lines| && |args| == next - at <= |all| && args == all[..next - at]
    {
      assert ArgValues(lines[at..])[next - at] == ArgValue(lines[next]);
      match ArgValue(lines[next]) {
        case None => break;
        case Some(value) => args := args + [value];
      }
      next := next + 1;
    }
  }

  method TakeBlock(lines: seq<string>, at: nat) returns (block: seq<string>, next: nat)
    requires at <= |lines|
    ensures block == CollectBlock(lines[at..]) && next == at + |block| <= |lines|
  {
    block, next := [], at;
    ghost var values := seq(|lines[at..]|, i requires 0 <= i < |lines[at..]| => BlockLine(lines[at..][i]));
    ghost var all := Leading(values);
    while next < |lines|
      invariant at <= next <= |lines| && |block| == next - at <= |all| && block == all[..next - at]
    {
      assert values[next - at] == BlockLine(lines[next]);
      match StripPrefix(lines[next], "  ") {
        case None => break;
        case Some(rest) => block := block + [rest];
      }
      next := next + 1;
    }
  }

  /** One stanza, from its first line at `at`; the cursor ends after its last. */
  method TakeStanza(lines: seq<string>, at: nat, trimmed: string) returns (r: Result<Stanza, ParseError>, next: nat)
    requires at < |lines|
    ensures r == ParseStanza(trimmed, lines[at + 1..], at + 2)
    ensures r.Ok? ==> next == at + 1 + Taken(r.value) <= |lines|
  {
    hide KeywordAndRest, ParseOutcome, SplitPair, JoinNewlines, CollectArgs, CollectBlock;
    var number := at + 2;
    next := at + 1;
    var (keyword, tail) := KeywordAndRest(trimmed);
    if keyword == "component" {
      match StripPrefix(tail, "sha256:") {
        case None => r := Err(ExpectedSha(number));
        case Some(sha256) => r := Ok(Sha(sha256));
      }
    } else if keyword == "plugin" {
      r := Ok(Plugin(tail));
    } else if keyword == "manifest" {
      var block;
      block, next := TakeBlock(lines, at + 1);
      r := Ok(Manifest(JoinNewlines(block), |block|));
    } else if keyword == "export-call" {
      var args;
      args, next := TakeArgs(lines, at + 1);
      r := Ok(Crossing(ExportCall(tail, args), |args|));
    } else if keyword == "export-return" {
      var outcome := CollectOutcome(lines[at + 1..], number);
      if outcome.Err? {
        return Err(outcome.error), next;
      }
      next := next + 1;
      r := Ok(Crossing(ExportReturn(tail, outcome.value), 1));
    } else if keyword == "import-call" {
      var pair := SplitPair(tail, number);
      if pair.Err? {
        return Err(pair.error), next;
      }
      var args;
      args, next := TakeArgs(lines, at + 1);
      r := Ok(Crossing(ImportCall(pair.value.0, pair.value.1, args), |args|));
    } else if keyword == "import-return" {
      var pair := SplitPair(tail, number);
      if pair.Err? {
        return Err(pair.error), next;
      }
      var outcome := CollectOutcome(lines[at + 1..], number);
      if outcome.Err? {
        return Err(outcome.error), next;
      }
      next := next + 1;
      r := Ok(Crossing(ImportReturn(pair.value.0, pair.value.1, outcome.value), 1));
    } else {
      r := Err(UnknownKeyword(number, keyword));
    }
  }

  /** Parse a trace, with a cursor over its lines. */
  method Parse(text: string) returns (r: Result<Trace, ParseError>)
    ensures r == FromText(text)
  {
    hide Lines, ParseVersion, ParseStanza, Trim;
    var all := Lines(text);
    if all == [] {
      return Err(EmptyTrace);
    }
    var version := ParseVersion(all[0]);
    if version.Err? {
      return Err(version.error);
    }
    var lines := all[1..];
    var at, trace := 0, BLANK;
    while at < |lines|
      invariant at <= |lines|
      invariant FromText(text) == ParseLines(lines[at..], at + 2, trace)
    {
      var trimmed := Trim(lines[at]);
      ghost var left := lines[at..];
      assert left[1..] == lines[at + 1..];
      if trimmed == "" {
        at := at + 1;
        continue;
      }
      var stanza, next := TakeStanza(lines, at, trimmed);
      if stanza.Err? {
        return Err(stanza.error);
      }
      assert left[1 + Taken(stanza.value)..] == lines[next..];
      trace := Add(trace, stanza.value);
      at := next;
    }
    r := Ok(trace);
  }
}
