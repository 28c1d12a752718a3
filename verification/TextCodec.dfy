/** The text encoding of a trace: line-oriented, one value per line. */
module TextCodec {
  import opened Wrappers
  import opened Strings
  import opened TraceModel

  const MAGIC := "watoots-trace"

  // ---------------------------------------------------------------------------------------------
  // Printing
  // ---------------------------------------------------------------------------------------------

  function QuoteChar(c: char): string {
    if c == '"' then "\\\""
    else if c == '\\' then "\\\\"
    else if c == '\n' then "\\n"
    else if c == '\r' then "\\r"
    else if c == '\t' then "\\t"
    else [c]
  }

  function QuoteBody(text: string): string {
    if text == "" then "" else QuoteChar(text[0]) + QuoteBody(text[1..])
  }

  /** A string on one line, in double quotes. */
  function Quote(text: string): string {
    "\"" + QuoteBody(text) + "\""
  }

  function ArgLines(args: seq<string>): (lines: seq<string>)
    ensures |lines| == |args|
  {
    seq(|args|, i requires 0 <= i < |args| => "  arg " + args[i])
  }

  function OutcomeLine(outcome: Outcome): string {
    match outcome
    case Value(None) => "  unit"
    case Value(Some(value)) => "  value " + value
    case Error(status, message) => "  error " + status + " " + Quote(message)
  }

  function EventKeyword(event: Event): string {
    match event
    case ExportCall(_, _) => "export-call"
    case ExportReturn(_, _) => "export-return"
    case ImportCall(_, _, _) => "import-call"
    case ImportReturn(_, _, _) => "import-return"
  }

  function EventNames(event: Event): string {
    if event.ExportCall? || event.ExportReturn? then event.func else event.interface + " " + event.func
  }

  function EventBody(event: Event): seq<string> {
    if event.ExportCall? || event.ImportCall? then ArgLines(event.args) else [OutcomeLine(event.outcome)]
  }

  function EventLines(event: Event): seq<string> {
    [EventKeyword(event) + " " + EventNames(event)] + EventBody(event)
  }

  function EventsLines(events: seq<Event>): seq<string> {
    if events == [] then [] else EventLines(events[0]) + EventsLines(events[1..])
  }

  function Indented(pieces: seq<string>): (lines: seq<string>)
    ensures |lines| == |pieces|
  {
    seq(|pieces|, i requires 0 <= i < |pieces| => "  " + pieces[i])
  }

  function ManifestLines(block: seq<string>): seq<string> {
    if block == [] then [] else ["manifest"] + Indented(block)
  }

  /** The manifest's lines; an empty manifest has no block. */
  function ManifestBlock(manifest: string): seq<string> {
    if manifest == "" then [] else SplitNewlines(manifest)
  }

  function HeaderLines(sha256: string, plugin: string, block: seq<string>): seq<string> {
    ["watoots-trace 1", "component sha256:" + sha256, "plugin " + plugin] + ManifestLines(block) + [""]
  }

  function ToText(trace: Trace): string {
    var header := trace.header;
    Unlines(HeaderLines(header.componentSha256, header.plugin, ManifestBlock(header.manifestToml))
            + EventsLines(trace.events))
  }

  // ---------------------------------------------------------------------------------------------
  // Parsing
  // ---------------------------------------------------------------------------------------------

  datatype QuoteError = NotQuoted | UnknownEscape(c: char) | EndsInBackslash

  datatype ParseError =
    | EmptyTrace
    | NotATrace
    | UnreadableVersion
    | WrongVersion(version: nat)
    | ExpectedSha(line: nat)
    | ExpectedPair(line: nat)
    | MissingOutcome(line: nat)
    | ExpectedStatus(line: nat)
    | UnknownOutcome(line: nat, keyword: string)
    | UnknownKeyword(line: nat, keyword: string)
    | BadQuote(error: QuoteError)

  function UnquoteBody(inner: string): Result<string, QuoteError> {
    if inner == "" then Ok("")
    else if inner[0] != '\\' then
      var rest :- UnquoteBody(inner[1..]);
      Ok([inner[0]] + rest)
    else if |inner| == 1 then Err(EndsInBackslash)
    else
      var c :- match inner[1]
               case '"' => Ok('"')
               case '\\' => Ok('\\')
               case 'n' => Ok('\n')
               case 'r' => Ok('\r')
               case 't' => Ok('\t')
               case other => Err(UnknownEscape(other));
      var rest :- UnquoteBody(inner[2..]);
      Ok([c] + rest)
  }

  function Unquote(text: string): Result<string, QuoteError> {
    if 2 <= |text| && text[0] == '"' && text[|text| - 1] == '"' then UnquoteBody(text[1..|text| - 1])
    else Err(NotQuoted)
  }

  function ArgValue(line: string): Option<string> {
    match StripPrefix(TrimStart(line), "arg")
    case None => None
    case Some(rest) =>
      match StripPrefix(rest, " ")
      case Some(value) => Some(value)
      case None => if rest == "" then Some("") else None
  }

  function ArgValues(lines: seq<string>): seq<Option<string>> {
    seq(|lines|, i requires 0 <= i < |lines| => ArgValue(lines[i]))
  }

  /** The values up to the first that is missing. */
  function Leading<T>(values: seq<Option<T>>): (r: seq<T>)
    ensures |r| <= |values|
    ensures forall i | 0 <= i < |r| :: values[i] == Some(r[i])
    ensures |r| < |values| ==> values[|r|] == None
  {
    if values == [] || values[0] == None then [] else [values[0].value] + Leading(values[1..])
  }

  /** The arguments on the leading lines that carry one. */
  function CollectArgs(lines: seq<string>): (args: seq<string>)
    ensures |args| <= |lines|
  {
    Leading(ArgValues(lines))
  }

  function KeywordValue(trimmed: string, keyword: string): string {
    match StripPrefix(trimmed, keyword + " ")
    case Some(value) => value
    case None => ""
  }

  function ParseOutcome(line: string, at: nat): Result<Outcome, ParseError> {
    var trimmed := TrimStart(line);
    var (keyword, rest) := KeywordAndRest(trimmed);
    if keyword == "unit" then Ok(Value(None))
    else if keyword == "value" then Ok(Value(Some(KeywordValue(trimmed, "value"))))
    else if keyword == "error" then
      match SplitAtSpace(rest)
      case None => Err(ExpectedStatus(at))
      case Some((status, message)) =>
        match Unquote(Trim(message))
        case Err(e) => Err(BadQuote(e))
        case Ok(m) => Ok(Error(status, m))
    else Err(UnknownOutcome(at, keyword))
  }

  function CollectOutcome(lines: seq<string>, at: nat): Result<Outcome, ParseError> {
    if lines == [] then Err(MissingOutcome(at)) else ParseOutcome(lines[0], at)
  }

  function SplitPair(rest: string, at: nat): Result<(string, string), ParseError> {
    match SplitAtSpace(rest)
    case None => Err(ExpectedPair(at))
    case Some((interface, tail)) => Ok((interface, Trim(tail)))
  }

  function BlockLine(line: string): Option<string> {
    StripPrefix(line, "  ")
  }

  /** The leading indented lines, which belong to the manifest, without their indentation. */
  function CollectBlock(lines: seq<string>): (block: seq<string>)
    ensures |block| <= |lines|
  {
    Leading(seq(|lines|, i requires 0 <= i < |lines| => BlockLine(lines[i])))
  }

  /** What one stanza adds to the trace, and how many of the lines after its first it takes. */
  datatype Stanza =
    | Sha(sha256: string)
    | Plugin(name: string)
    | Manifest(toml: string, taken: nat)
    | Crossing(event: Event, taken: nat)

  function ParseStanza(trimmed: string, rest: seq<string>, at: nat): (r: Result<Stanza, ParseError>)
    ensures r.Ok? && (r.value.Manifest? || r.value.Crossing?) ==> r.value.taken <= |rest|
  {
    var (keyword, tail) := KeywordAndRest(trimmed);
    if keyword == "component" then
      match StripPrefix(tail, "sha256:")
      case None => Err(ExpectedSha(at))
      case Some(sha256) => Ok(Sha(sha256))
    else if keyword == "plugin" then Ok(Plugin(tail))
    else if keyword == "manifest" then Ok(Manifest(JoinNewlines(CollectBlock(rest)), |CollectBlock(rest)|))
    else if keyword == "export-call" then Ok(Crossing(ExportCall(tail, CollectArgs(rest)), |CollectArgs(rest)|))
    else if keyword == "export-return" then
      var outcome :- CollectOutcome(rest, at);
      Ok(Crossing(ExportReturn(tail, outcome), 1))
    else if keyword == "import-call" then
      var (interface, func) :- SplitPair(tail, at);
      Ok(Crossing(ImportCall(interface, func, CollectArgs(rest)), |CollectArgs(rest)|))
    else if keyword == "import-return" then
      var (interface, func) :- SplitPair(tail, at);
      var outcome :- CollectOutcome(rest, at);
      Ok(Crossing(ImportReturn(interface, func, outcome), 1))
    else Err(UnknownKeyword(at, keyword))
  }

  function Taken(stanza: Stanza): nat {
    match stanza
    case Sha(_) => 0
    case Plugin(_) => 0
    case Manifest(_, taken) => taken
    case Crossing(_, taken) => taken
  }

  function Add(trace: Trace, stanza: Stanza): Trace {
    match stanza
    case Sha(sha256) => trace.(header := trace.header.(componentSha256 := sha256))
    case Plugin(name) => trace.(header := trace.header.(plugin := name))
    case Manifest(toml, _) => trace.(header := trace.header.(manifestToml := toml))
    case Crossing(event, _) => trace.(events := trace.events + [event])
  }

  /** Parse the lines from number `at` on, adding to what was read so far. */
  function ParseLines(lines: seq<string>, at: nat, trace: Trace): Result<Trace, ParseError>
    decreases |lines|
  {
    if lines == [] then Ok(trace)
    else
      var trimmed := Trim(lines[0]);
      if trimmed == "" then ParseLines(lines[1..], at + 1, trace)
      else
        var stanza :- ParseStanza(trimmed, lines[1..], at);
        ParseLines(lines[1 + Taken(stanza)..], at + 1 + Taken(stanza), Add(trace, stanza))
  }

  predicate IsDigit(c: char) {
    48 <= c as int <= 57
  }

  predicate AllDigits(s: string) {
    forall i | 0 <= i < |s| :: IsDigit(s[i])
  }

  function DigitsValue(acc: nat, digits: string): nat
    requires AllDigits(digits)
    decreases |digits|
  {
    if digits == "" then acc
    else
      assert IsDigit(digits[0]);
      DigitsValue(10 * acc + (digits[0] as int - 48), digits[1..])
  }

  /** An optional plus sign and at least one digit, within 32 bits. */
  function ParseU32(s: string): Option<nat> {
    var digits := if "+" <= s then s[1..] else s;
    if digits != "" && AllDigits(digits) && DigitsValue(0, digits) < 0x1_0000_0000 then
      Some(DigitsValue(0, digits))
    else
      None
  }

  const BLANK := Trace(Header("", "", ""), [])

  function ParseVersion(first: string): Result<(), ParseError> {
    match StripPrefix(first, MAGIC)
    case None => Err(NotATrace)
    case Some(rest) =>
      match ParseU32(Trim(rest))
      case None => Err(UnreadableVersion)
      case Some(version) => if version == FORMAT_VERSION then Ok(()) else Err(WrongVersion(version))
  }

  function FromText(text: string): Result<Trace, ParseError> {
    var lines := Lines(text);
    if lines == [] then Err(EmptyTrace)
    else
      var _ :- ParseVersion(lines[0]);
      ParseLines(lines[1..], 2, BLANK)
  }
}
