/**
  The call path as a recorder sees it.

  A guest is an arbitrary deterministic transition system; the application that answers its
  imports is not constrained at all, so a live run carries the answers it was given.
  */
module Recording {
  import opened Wrappers
  import opened TraceModel

  /**
    A value crossing the boundary: the one its WAVE text stands for where it crosses, one of another
    type that is spelled alike, or a resource handle, which has no spelling.
    */
  datatype Val = Text(text: string) | Mistyped(text: string) | Handle(id: int)

  function ToWave(value: Val): Option<string> {
    match value
    case Text(text) => Some(text)
    case Mistyped(text) => Some(text)
    case Handle(_) => None
  }

  const UNREPRESENTABLE := "<unrepresentable>"

  /** What a host function, or an export, produced. */
  datatype HostOutcome =
    | Returned(values: seq<Val>)
    | Failed(kind: string, message: string)

  /**
    What the guest's import call came to. A failure is a trap whatever it was, but for the one thing
    read back out of its message: a text that says the transfer budget was spent.
    */
  datatype Reply =
    | Answer(values: seq<Val>)
    | Trap(spent: bool)
    | LibraryTrap(kind: string, message: string)

  const BUDGET_SPENT := "fuel allocated for hostcalls"

  predicate Mentions(message: string, phrase: string) {
    exists i | 0 <= i <= |message| - |phrase| :: phrase <= message[i..]
  }

  predicate SaysSpent(message: string) {
    Mentions(message, BUDGET_SPENT)
  }

  /** What a guest does next, inside an export or while it is being instantiated. */
  datatype Action =
    | Import(interface: string, func: string, args: seq<Val>)
    | Return(values: seq<Val>)
    | Fail(kind: string)

  /**
    A plugin, by the name it was loaded under, and the host library it runs over.

    `arity` and `fits` are what the component declares about an import's results; `library` is the host
    library's answer to a `wasi:` import; `refusal` is the status of an export call whose arguments, as
    text, do not even reach the guest. `registered` is the name the interface that serves an import was
    registered under, which linking lets be another, compatible version of the one imported. `mistyped`
    and `unparsed` are the words libraries find for an answer, or a text, of another type.
    */
  datatype World<!S> = World(
    name: string,
    boot: S,
    enter: (S, string, seq<Val>) -> S,
    next: S -> Action,
    resume: (S, Reply) -> S,
    library: S -> HostOutcome,
    arity: (string, string) -> nat,
    fits: (string, string, Val) -> bool,
    refusal: (string, seq<string>) -> Option<string>,
    registered: string -> string,
    mistyped: (string, string, seq<Val>) -> string,
    unparsed: (string, string, string) -> string
  )

  /** Linking looks past versions only: what serves a `wasi:` import is the host library. */
  ghost predicate Links<S>(w: World<S>) {
    forall interface :: IsWasi(w.registered(interface)) <==> IsWasi(interface)
  }

  /** One import made: the interface imported, the one that served it, and how that turned out. */
  datatype LiveImport = LiveImport(
    interface: string, served: string, func: string, args: seq<Val>, outcome: HostOutcome)

  datatype LiveCall = LiveCall(func: string, args: seq<Val>, imports: seq<LiveImport>, outcome: HostOutcome)

  /** Everything that happened to one plugin: instantiation, then each export call in turn. */
  datatype Session = Session(boot: seq<LiveImport>, calls: seq<LiveCall>)

  // ---------------------------------------------------------------------------------------------
  // Live runs
  // ---------------------------------------------------------------------------------------------

  predicate IsOfType<S>(w: World<S>, interface: string, func: string, v: Val) {
    !v.Mistyped? && w.fits(interface, func, v)
  }

  /** The answer is what the component declares: so many values, each of its type. */
  predicate IsWhole<S>(w: World<S>, x: LiveImport, values: seq<Val>) {
    && |values| == w.arity(x.interface, x.func)
    && forall v | v in values :: IsOfType(w, x.interface, x.func, v)
  }

  /** What the shim puts before whatever went wrong: the plugin and the function that serves it. */
  function Place<S>(w: World<S>, x: LiveImport): string {
    w.name + ": host function " + x.served + "#" + x.func
  }

  /**
    How the application's answer reaches the guest through the import shim. Of a wrong count the message
    is the place, two numbers and fixed words; a wrong type is found after the shim, and worded without it.
    */
  function LiveReply<S>(w: World<S>, x: LiveImport): Reply {
    match x.outcome
    case Failed(_, message) => Trap(SaysSpent(Place(w, x) + ": " + message))
    case Returned(values) =>
      if IsWhole(w, x, values) then Answer(values)
      else if |values| != w.arity(x.interface, x.func) then Trap(SaysSpent(Place(w, x)))
      else Trap(SaysSpent(w.mistyped(x.interface, x.func, values)))
  }

  /** How the host library's answer reaches the guest; the logging shim returns no values. */
  function LibraryReply(outcome: HostOutcome): Reply {
    match outcome
    case Failed(kind, message) => LibraryTrap(kind, message)
    case Returned(_) => Answer([])
  }

  function ReplyTo<S>(w: World<S>, x: LiveImport): Reply {
    if IsWasi(x.interface) then LibraryReply(x.outcome)
    else LiveReply(w, x)
  }

  /** `x` is an import the guest makes in state `s`; only `wasi:` answers are not free. */
  ghost predicate Makes<S>(w: World<S>, s: S, x: LiveImport) {
    && w.next(s) == Import(x.interface, x.func, x.args)
    && x.served == w.registered(x.interface)
    && (IsWasi(x.interface) ==> x.outcome == w.library(s))
  }

  /** The guest in `s` makes exactly these imports, gets these answers and comes to rest in `end`. */
  ghost predicate LiveRun<S>(w: World<S>, s: S, imports: seq<LiveImport>, end: S)
    decreases |imports|
  {
    if imports == [] then s == end && !w.next(s).Import?
    else Makes(w, s, imports[0]) && LiveRun(w, w.resume(s, ReplyTo(w, imports[0])), imports[1..], end)
  }

  /** How an export ended; a component function returns at most one value, and the host words the failures. */
  ghost predicate EndsWith<S>(w: World<S>, end: S, outcome: HostOutcome) {
    match w.next(end)
    case Import(_, _, _) => false
    case Return(values) => |values| <= 1 && outcome == Returned(values)
    case Fail(kind) => outcome.Failed? && outcome.kind == kind
  }

  /** The caller's arguments were checked against the export before the guest was entered. */
  predicate Admitted<S>(w: World<S>, call: LiveCall) {
    (forall v | v in call.args :: !v.Mistyped?) && w.refusal(call.func, EncodeAll(call.args)).None?
  }

  ghost predicate LiveCalls<S(!new)>(w: World<S>, s: S, calls: seq<LiveCall>)
    decreases |calls|
  {
    calls != [] ==>
      && Admitted(w, calls[0])
      && exists end: S ::
        && LiveRun(w, w.enter(s, calls[0].func, calls[0].args), calls[0].imports, end)
        && EndsWith(w, end, calls[0].outcome)
        && LiveCalls(w, end, calls[1..])
  }

  /** A run in which the plugin loaded and was then called. */
  ghost predicate LiveSession<S(!new)>(w: World<S>, session: Session) {
    && Links(w)
    && exists ready: S ::
      && LiveRun(w, w.boot, session.boot, ready)
      && w.next(ready).Return?
      && LiveCalls(w, ready, session.calls)
  }

  // ---------------------------------------------------------------------------------------------
  // What the trace hook is shown, in order
  // ---------------------------------------------------------------------------------------------

  datatype HostEvent =
    | OnExportCall(func: string, args: seq<Val>)
    | OnExportReturn(func: string, outcome: HostOutcome)
    | OnImportCall(interface: string, func: string, args: seq<Val>)
    | OnImportReturn(interface: string, func: string, outcome: HostOutcome)

  function ImportEvents(imports: seq<LiveImport>): seq<HostEvent> {
    if imports == [] then []
    else
      var x := imports[0];
      [OnImportCall(x.served, x.func, x.args), OnImportReturn(x.served, x.func, x.outcome)]
      + ImportEvents(imports[1..])
  }

  function CallEvents(call: LiveCall): seq<HostEvent> {
    [OnExportCall(call.func, call.args)] + ImportEvents(call.imports) + [OnExportReturn(call.func, call.outcome)]
  }

  function CallsEvents(calls: seq<LiveCall>): seq<HostEvent> {
    if calls == [] then [] else CallEvents(calls[0]) + CallsEvents(calls[1..])
  }

  function SessionEvents(session: Session): seq<HostEvent> {
    ImportEvents(session.boot) + CallsEvents(session.calls)
  }

  // ---------------------------------------------------------------------------------------------
  // The recorder
  // ---------------------------------------------------------------------------------------------

  function EncodeOne(value: Val): string {
    match ToWave(value)
    case Some(text) => text
    case None => UNREPRESENTABLE
  }

  function EncodeAll(values: seq<Val>): (texts: seq<string>)
    ensures |texts| == |values|
  {
    seq(|values|, i requires 0 <= i < |values| => EncodeOne(values[i]))
  }

  function EncodeOutcome(outcome: HostOutcome): Outcome {
    match outcome
    case Returned(values) => Value(if values == [] then None else Some(EncodeOne(values[0])))
    case Failed(kind, message) => Error(kind, message)
  }

  function EncodeEvent(event: HostEvent): Event {
    match event
    case OnExportCall(func, args) => ExportCall(func, EncodeAll(args))
    case OnExportReturn(func, outcome) => ExportReturn(func, EncodeOutcome(outcome))
    case OnImportCall(interface, func, args) => ImportCall(interface, func, EncodeAll(args))
    case OnImportReturn(interface, func, outcome) => ImportReturn(interface, func, EncodeOutcome(outcome))
  }

  function EncodeEvents(events: seq<HostEvent>): (encoded: seq<Event>)
    ensures |encoded| == |events|
    ensures forall i | 0 <= i < |events| :: encoded[i] == EncodeEvent(events[i])
  {
    seq(|events|, i requires 0 <= i < |events| => EncodeEvent(events[i]))
  }

  /** The values an event asks the recorder to spell: all arguments, but only the first result. */
  function Spelled(event: HostEvent): seq<Val> {
    match event
    case OnExportCall(_, args) => args
    case OnImportCall(_, _, args) => args
    case OnExportReturn(_, outcome) => if outcome.Returned? then FirstOnly(outcome.values) else []
    case OnImportReturn(_, _, outcome) => if outcome.Returned? then FirstOnly(outcome.values) else []
  }

  function FirstOnly(values: seq<Val>): seq<Val> {
    if values == [] then [] else values[..1]
  }

  predicate Spellable(event: HostEvent) {
    forall v | v in Spelled(event) :: !v.Handle?
  }

  class Recorder {
    const header: Header
    var events: seq<Event>
    var poisoned: Option<Val>

    constructor (header: Header)
      ensures this.header == header && events == [] && poisoned == None
    {
      this.header := header;
      events := [];
      poisoned := None;
    }

    method Poison(value: Val)
      modifies this`poisoned
      ensures poisoned == if old(poisoned).None? then Some(value) else old(poisoned)
    {
      if poisoned == None {
        poisoned := Some(value);
      }
    }

    method Encode(value: Val) returns (text: string)
      modifies this`poisoned
      ensures text == EncodeOne(value)
      ensures poisoned.None? <==> old(poisoned).None? && !value.Handle?
    {
      match ToWave(value) {
        case Some(spelling) =>
          text := spelling;
        case None =>
          Poison(value);
          text := UNREPRESENTABLE;
      }
    }

    method EncodeList(values: seq<Val>) returns (texts: seq<string>)
      modifies this`poisoned
      ensures texts == EncodeAll(values)
      ensures poisoned.None? <==> old(poisoned).None? && forall v | v in values :: !v.Handle?
    {
      texts := [];
      for i := 0 to |values|
        invariant texts == EncodeAll(values[..i])
        invariant poisoned.None? <==> old(poisoned).None? && forall v | v in values[..i] :: !v.Handle?
      {
        var text := Encode(values[i]);
        texts := texts + [text];
        assert values[..i + 1] == values[..i] + [values[i]];
      }
      assert values[..|values|] == values;
    }

    method EncodeResult(outcome: HostOutcome) returns (encoded: Outcome)
      modifies this`poisoned
      ensures encoded == EncodeOutcome(outcome)
      ensures poisoned.None? <==>
              old(poisoned).None? && (outcome.Returned? && outcome.values != [] ==> !outcome.values[0].Handle?)
    {
      match outcome {
        case Returned(values) =>
          if values == [] {
            encoded := Value(None);
          } else {
            var text := Encode(values[0]);
            encoded := Value(Some(text));
          }
        case Failed(kind, message) =>
          encoded := Error(kind, message);
      }
    }

    /** Every crossing is written down, in order; one that cannot be spelled poisons the recording. */
    method OnEvent(event: HostEvent)
      modifies this
      ensures events == old(events) + [EncodeEvent(event)]
      ensures poisoned.None? <==> old(poisoned).None? && Spellable(event)
    {
      var recorded: Event;
      match event {
        case OnExportCall(func, args) =>
          var texts := EncodeList(args);
          recorded := ExportCall(func, texts);
        case OnExportReturn(func, outcome) =>
          var encoded := EncodeResult(outcome);
          recorded := ExportReturn(func, encoded);
        case OnImportCall(interface, func, args) =>
          var texts := EncodeList(args);
          recorded := ImportCall(interface, func, texts);
        case OnImportReturn(interface, func, outcome) =>
          var encoded := EncodeResult(outcome);
          recorded := ImportReturn(interface, func, encoded);
      }
      events := events + [recorded];
    }

    /** A recording is handed back only when nothing in it had to be invented. */
    method Finish() returns (r: Result<Trace, Val>)
      ensures r.Ok? <==> poisoned.None?
      ensures r.Ok? ==> r.value == Trace(header, events)
    {
      match poisoned {
        case Some(reason) => r := Err(reason);
        case None => r := Ok(Trace(header, events));
      }
    }
  }

  /** Record a whole session. */
  method Record(header: Header, session: Session) returns (r: Result<Trace, Val>)
    ensures r.Ok? <==> forall e | e in SessionEvents(session) :: Spellable(e)
    ensures r.Ok? ==> r.value == Trace(header, EncodeEvents(SessionEvents(session)))
  {
    hide SessionEvents, Spellable, EncodeEvent;
    var events := SessionEvents(session);
    var recorder := new Recorder(header);
    for i := 0 to |events|
      invariant recorder.events == EncodeEvents(events[..i])
      invariant recorder.poisoned.None? <==> forall e | e in events[..i] :: Spellable(e)
    {
      recorder.OnEvent(events[i]);
      assert events[..i + 1] == events[..i] + [events[i]];
    }
    assert events[..|events|] == events;
    r := recorder.Finish();
  }
}
