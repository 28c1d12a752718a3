/** Replaying a trace: its cursor, the host that answers in the application's place, and the report. */
module Replay {
  import opened Wrappers
  import opened TraceModel
  import opened Recording

  // ---------------------------------------------------------------------------------------------
  // The report
  // ---------------------------------------------------------------------------------------------

  /** Why replay and recording parted company. */
  datatype Cause =
    | TraceOver
    | Unexpected(expected: Event)
    | NoAnswer
    | ResultDiffers(recorded: Option<string>, got: Option<string>)
    | StatusDiffers(recordedStatus: string, gotStatus: string)
    | ReturnedInsteadOfFailing
    | FailedInsteadOfReturning
    | NoReturn

  datatype Divergence = Divergence(index: nat, cause: Cause)

  /** Where the cursor stands in the trace and what it has found so far. */
  datatype State = State(position: nat, matched: nat, divergences: seq<Divergence>) {

    function Diverge(cause: Cause): State {
      this.(divergences := divergences + [Divergence(position, cause)])
    }

    predicate IsFaithful() {
      divergences == []
    }
  }

  const START := State(0, 0, [])

  // ---------------------------------------------------------------------------------------------
  // The cursor, on values
  // ---------------------------------------------------------------------------------------------

  predicate IsUnserved(events: seq<Event>, at: nat) {
    at < |events| && events[at].ImportCall? && IsWasi(events[at].interface)
  }

  predicate IsAnswer(events: seq<Event>, at: nat) {
    at < |events| && events[at].ImportReturn?
  }

  /** The first position from `at` on that is not part of a crossing the host library serves. */
  function SkipFrom(events: seq<Event>, at: nat): (to: nat)
    ensures at <= to
    ensures !IsUnserved(events, to)
    decreases |events| - at
  {
    if !IsUnserved(events, at) then at
    else SkipFrom(events, if IsAnswer(events, at + 1) then at + 2 else at + 1)
  }

  function ExpectImport(events: seq<Event>, st: State, interface: string, func: string, args: seq<string>)
    : (State, Option<Outcome>)
  {
    var st := st.(position := SkipFrom(events, st.position));
    if |events| <= st.position then
      (st.Diverge(TraceOver), None)
    else if events[st.position] != ImportCall(interface, func, args) then
      (st.Diverge(Unexpected(events[st.position])), None)
    else
      var st := st.(position := st.position + 1, matched := st.matched + 1);
      if IsAnswer(events, st.position) then
        (st.(position := st.position + 1, matched := st.matched + 1), Some(events[st.position].outcome))
      else
        (st.Diverge(NoAnswer), None)
  }

  /** What an export call produced, as WAVE text. */
  datatype Actual = Succeeded(values: seq<string>) | Broke(status: string)

  function First(values: seq<string>): Option<string> {
    if values == [] then None else Some(values[0])
  }

  function CheckExportReturn(st: State, actual: Actual, expected: Option<Outcome>): State {
    match expected
    case None => st.Diverge(NoReturn)
    case Some(Value(recorded)) =>
      (match actual
       case Succeeded(values) =>
         if First(values) == recorded then st.(matched := st.matched + 1)
         else st.Diverge(ResultDiffers(recorded, First(values)))
       case Broke(_) => st.Diverge(FailedInsteadOfReturning))
    case Some(Error(recorded, _)) =>
      match actual
      case Succeeded(_) => st.Diverge(ReturnedInsteadOfFailing)
      case Broke(status) =>
        if status == recorded then st.(matched := st.matched + 1)
        else st.Diverge(StatusDiffers(recorded, status))
  }

  /** The outcome of the next recorded return of this export, paired by name. */
  function FindReturn(events: seq<Event>, from: nat, func: string): Option<Outcome>
    decreases |events| - from
  {
    if |events| <= from then None
    else if events[from].ExportReturn? && events[from].func == func then Some(events[from].outcome)
    else FindReturn(events, from + 1, func)
  }

  // ---------------------------------------------------------------------------------------------
  // The mock host
  // ---------------------------------------------------------------------------------------------

  const KNOWN_STATUSES: seq<string> := [
    "WT_ERR_INVALID_ARGUMENT", "WT_ERR_NOT_FOUND", "WT_ERR_MANIFEST", "WT_ERR_PERMISSION_DENIED",
    "WT_ERR_LOAD", "WT_ERR_TRAP", "WT_ERR_LIMIT_EXCEEDED", "WT_ERR_INTERNAL", "WT_ERR_SIGNATURE_INVALID"
  ]

  /** The mock host's own errors; they name the import as well, which the shim has named before them. */
  const DIVERGED := "replay diverged"
  const NO_RESULT := "no result declared"

  /** A parse error quotes the text. */
  function CannotParse(text: string, detail: string): string {
    "cannot parse \"" + text + "\" as WAVE: " + detail
  }

  /** What the mock host answers: the recording, turned back into a host function's outcome. */
  function MockOutcome<S>(w: World<S>, interface: string, func: string, recorded: Option<Outcome>): HostOutcome {
    match recorded
    case None => Failed("WT_ERR_INTERNAL", DIVERGED)
    case Some(Value(None)) => Returned([])
    case Some(Value(Some(text))) =>
      if w.arity(interface, func) == 0 then
        Failed("WT_ERR_INTERNAL", NO_RESULT)
      else if !w.fits(interface, func, Text(text)) then
        Failed("WT_ERR_INVALID_ARGUMENT", CannotParse(text, w.unparsed(interface, func, text)))
      else
        Returned([Text(text)])
    case Some(Error(status, message)) =>
      Failed(if status in KNOWN_STATUSES then status else "WT_ERR_INTERNAL", message)
  }

  // ---------------------------------------------------------------------------------------------
  // Driving the guest
  // ---------------------------------------------------------------------------------------------

  /** One application import the guest made during replay, and the recorded answer it was given. */
  datatype Answered = Answered(interface: string, func: string, args: seq<string>, answer: Option<Outcome>)

  /** The guest at rest: its state, the cursor, every import it made, and the application's among them. */
  datatype Driven<S> = Driven(end: S, st: State, path: seq<LiveImport>, trail: seq<Answered>)

  /** Run the guest to its next return; `None` when it makes more than `fuel` imports first. */
  function Drive<S>(w: World<S>, events: seq<Event>, s: S, st: State, fuel: nat): Option<Driven<S>>
    decreases fuel
  {
    match w.next(s)
    case Return(_) => Some(Driven(s, st, [], []))
    case Fail(_) => Some(Driven(s, st, [], []))
    case Import(interface, func, args) =>
      if fuel == 0 then
        None
      else if IsWasi(interface) then
        var x := LiveImport(interface, w.registered(interface), func, args, w.library(s));
        match Drive(w, events, w.resume(s, ReplyTo(w, x)), st, fuel - 1)
        case None => None
        case Some(d) => Some(d.(path := [x] + d.path))
      else
        var (st', answer) := ExpectImport(events, st, interface, func, EncodeAll(args));
        var outcome := MockOutcome(w, interface, func, answer);
        var x := LiveImport(interface, w.registered(interface), func, args, outcome);
        match Drive(w, events, w.resume(s, ReplyTo(w, x)), st', fuel - 1)
        case None => None
        case Some(d) =>
          Some(d.(path := [x] + d.path, trail := [Answered(interface, func, EncodeAll(args), answer)] + d.trail))
  }

  /** The end of an export call as its caller sees it, results rendered as text. */
  function Rendered(action: Action): Actual {
    match action
    case Import(_, _, _) => Broke("WT_ERR_INTERNAL")
    case Fail(kind) => Broke(kind)
    case Return(values) =>
      if forall v | v in values :: !v.Handle? then Succeeded(EncodeAll(values))
      else Broke("WT_ERR_INVALID_ARGUMENT")
  }

  function Parsed(args: seq<string>): seq<Val> {
    seq(|args|, i requires 0 <= i < |args| => Text(args[i]))
  }

  /** One export call of a replay: where it is recorded, what the guest did, and how it ended. */
  datatype Replayed = Replayed(index: nat, trail: seq<Answered>, actual: Actual, expected: Option<Outcome>)

  /** An export call made: where it left the guest and the cursor, what it imported and produced. */
  datatype Made<S> = Made(end: S, st: State, trail: seq<Answered>, actual: Actual)

  /** The export call recorded at `index`; arguments that do not reach the guest leave it as it was. */
  function ReplayCall<S>(w: World<S>, events: seq<Event>, index: nat, s: S, st: State, fuel: nat): Option<Made<S>>
    requires index < |events| && events[index].ExportCall?
  {
    var ExportCall(func, args) := events[index];
    var begun := st.(position := index + 1, matched := st.matched + 1);
    match w.refusal(func, args)
    case Some(status) => Some(Made(s, begun, [], Broke(status)))
    case None =>
      match Drive(w, events, w.enter(s, func, Parsed(args)), begun, fuel)
      case None => None
      case Some(d) => Some(Made(d.end, d.st, d.trail, Rendered(w.next(d.end))))
  }

  /** Drive the exports recorded from position `index` on, in order. */
  function ReplayCalls<S>(w: World<S>, events: seq<Event>, index: nat, s: S, st: State, fuel: nat)
    : Option<(State, seq<Replayed>)>
    decreases |events| - index
  {
    if |events| <= index then
      Some((st, []))
    else if !events[index].ExportCall? then
      ReplayCalls(w, events, index + 1, s, st, fuel)
    else
      var func := events[index].func;
      match ReplayCall(w, events, index, s, st, fuel)
      case None => None
      case Some(made) =>
        var expected := FindReturn(events, index + 1, func);
        match ReplayCalls(w, events, index + 1, made.end, CheckExportReturn(made.st, made.actual, expected), fuel)
        case None => None
        case Some((final, rest)) => Some((final, [Replayed(index, made.trail, made.actual, expected)] + rest))
  }

  datatype Refusal = WrongComponent | LoadFailed

  /** A replay that ran: the report, what instantiation did and what each export call did. */
  datatype Run = Run(report: State, boot: seq<Answered>, calls: seq<Replayed>)

  /** The plugin as replay loads it: under the recorded name, every import served under its own. */
  function Reloaded<S>(w: World<S>, name: string): World<S> {
    w.(name := name, registered := interface => interface)
  }

  /** `None` when some call makes more than `fuel` imports. */
  function ReplayTrace<S>(w: World<S>, trace: Trace, sha256: string, fuel: nat): Option<Result<Run, Refusal>> {
    if trace.header.componentSha256 != "" && trace.header.componentSha256 != sha256 then
      Some(Err(WrongComponent))
    else
      var w := Reloaded(w, trace.header.plugin);
      match Drive(w, trace.events, w.boot, START, fuel)
      case None => None
      case Some(d) =>
        if !w.next(d.end).Return? then Some(Err(LoadFailed))
        else
          match ReplayCalls(w, trace.events, 0, d.end, d.st, fuel)
          case None => None
          case Some((report, calls)) => Some(Ok(Run(report, d.trail, calls)))
  }

  // ---------------------------------------------------------------------------------------------
  // The cursor, updated in place
  // ---------------------------------------------------------------------------------------------

  class Cursor {
    const events: seq<Event>
    var position: nat
    var matched: nat
    var divergences: seq<Divergence>

    function St(): State
      reads this
    {
      State(position, matched, divergences)
    }

    constructor (events: seq<Event>)
      ensures this.events == events && St() == START
    {
      this.events := events;
      position, matched, divergences := 0, 0, [];
    }

    method Diverge(cause: Cause)
      modifies this
      ensures St() == old(St()).Diverge(cause)
    {
      divergences := divergences + [Divergence(position, cause)];
    }

    method SkipUnserved()
      modifies this`position
      ensures position == SkipFrom(events, old(position))
    {
      while position < |events| && events[position].ImportCall? && IsWasi(events[position].interface)
        invariant SkipFrom(events, position) == SkipFrom(events, old(position))
        decreases |events| - position
      {
        position := position + 1;
        if position < |events| && events[position].ImportReturn? {
          position := position + 1;
        }
      }
    }

    /** Answer an import from the trace, or say where it departs from it. */
    method Expect(interface: string, func: string, args: seq<string>) returns (answer: Option<Outcome>)
      modifies this
      ensures (St(), answer) == ExpectImport(events, old(St()), interface, func, args)
    {
      SkipUnserved();
      if |events| <= position {
        Diverge(TraceOver);
        return None;
      }
      var expected := events[position];
      if expected != ImportCall(interface, func, args) {
        Diverge(Unexpected(expected));
        return None;
      }
      position := position + 1;
      matched := matched + 1;
      if position < |events| && events[position].ImportReturn? {
        answer := Some(events[position].outcome);
        position := position + 1;
        matched := matched + 1;
      } else {
        Diverge(NoAnswer);
        answer := None;
      }
    }

    method BeginExport(index: nat)
      modifies this
      ensures St() == old(St()).(position := index + 1, matched := old(matched) + 1)
    {
      position := index + 1;
      matched := matched + 1;
    }

    method CheckReturn(actual: Actual, expected: Option<Outcome>)
      modifies this
      ensures St() == CheckExportReturn(old(St()), actual, expected)
    {
      match (actual, expected) {
        case (Succeeded(values), Some(Value(recorded))) =>
          if First(values) == recorded {
            matched := matched + 1;
          } else {
            Diverge(ResultDiffers(recorded, First(values)));
          }
        case (Broke(status), Some(Error(recorded, _))) =>
          if status == recorded {
            matched := matched + 1;
          } else {
            Diverge(StatusDiffers(recorded, status));
          }
        case (Succeeded(_), Some(Error(_, _))) => Diverge(ReturnedInsteadOfFailing);
        case (Broke(_), Some(Value(_))) => Diverge(FailedInsteadOfReturning);
        case (_, None) => Diverge(NoReturn);
      }
    }

    /** Run the guest until it returns, answering the application's imports from the trace. */
    method RunGuest<S>(w: World<S>, s: S, fuel: nat) returns (end: Option<S>)
      modifies this
      ensures var d := Drive(w, events, s, old(St()), fuel);
              && (end.Some? <==> d.Some?)
              && (end.Some? ==> end.value == d.value.end && St() == d.value.st)
    {
      var at, left := s, fuel;
      ghost var whole := Drive(w, events, s, St(), fuel);
      while w.next(at).Import?
        invariant var rest := Drive(w, events, at, St(), left);
                  && (rest.Some? <==> whole.Some?)
                  && (rest.Some? ==> rest.value.end == whole.value.end && rest.value.st == whole.value.st)
        decreases left
      {
        if left == 0 {
          return None;
        }
        var Import(interface, func, args) := w.next(at);
        if IsWasi(interface) {
          var x := LiveImport(interface, w.registered(interface), func, args, w.library(at));
          at := w.resume(at, ReplyTo(w, x));
        } else {
          var answer := Expect(interface, func, EncodeAll(args));
          var outcome := MockOutcome(w, interface, func, answer);
          at := w.resume(at, ReplyTo(w, LiveImport(interface, w.registered(interface), func, args, outcome)));
        }
        left := left - 1;
      }
      end := Some(at);
    }
  }

  /** Replay a trace against a component, driving its exports in recorded order. */
  method RunReplay<S>(plugin: World<S>, trace: Trace, sha256: string, fuel: nat)
    returns (r: Option<Result<State, Refusal>>)
    ensures var run := ReplayTrace(plugin, trace, sha256, fuel);
            && (r.None? <==> run.None?)
            && (r.Some? && r.value.Ok? ==> run.value.Ok? && r.value.value == run.value.value.report)
            && (r.Some? && r.value.Err? ==> run.value.Err? && r.value.error == run.value.error)
    ensures r == Some(Err(WrongComponent)) <==> trace.header.componentSha256 !in {"", sha256}
  {
    hide Drive, CheckExportReturn, FindReturn, Rendered, Parsed;
    if trace.header.componentSha256 != "" && trace.header.componentSha256 != sha256 {
      return Some(Err(WrongComponent));
    }
    var w := Reloaded(plugin, trace.header.plugin);
    var cursor := new Cursor(trace.events);
    var loaded := cursor.RunGuest(w, w.boot, fuel);
    if loaded == None {
      return None;
    }
    var s := loaded.value;
    if !w.next(s).Return? {
      return Some(Err(LoadFailed));
    }
    ghost var whole := ReplayCalls(w, trace.events, 0, s, cursor.St(), fuel);
    for index := 0 to |trace.events|
      invariant cursor.events == trace.events
      invariant fresh(cursor)
      invariant var rest := ReplayCalls(w, trace.events, index, s, cursor.St(), fuel);
                && (rest.Some? <==> whole.Some?)
                && (rest.Some? ==> rest.value.0 == whole.value.0)
    {
      var event := trace.events[index];
      if event.ExportCall? {
        cursor.BeginExport(index);
        var refusal := w.refusal(event.func, event.args);
        var actual: Actual;
        if refusal.Some? {
          actual := Broke(refusal.value);
        } else {
          var end := cursor.RunGuest(w, w.enter(s, event.func, Parsed(event.args)), fuel);
          if end.None? {
            return None;
          }
          s := end.value;
          actual := Rendered(w.next(s));
        }
        cursor.CheckReturn(actual, FindReturn(trace.events, index + 1, event.func));
      }
    }
    r := Some(Ok(cursor.St()));
  }
}
