/**
  What a replay's report says is so.

  Every divergence in it can be checked against the recording: `ReportsAreJustified` says what each
  cause means there, whatever the guest did.
  */
module ReplayReports {
  import opened Wrappers
  import opened TraceModel
  import opened Recording
  import opened Replay

  predicate IsReturnOf(event: Event, func: string) {
    event.ExportReturn? && event.func == func
  }

  /** The return recorded for the export call at `call`: the first of that name after it. */
  predicate Paired(events: seq<Event>, call: nat, at: nat) {
    && call < at < |events|
    && events[call].ExportCall? && IsReturnOf(events[at], events[call].func)
    && forall i | call < i < at :: !IsReturnOf(events[i], events[call].func)
  }

  predicate Unpaired(events: seq<Event>, call: nat) {
    && call < |events| && events[call].ExportCall?
    && forall i | call < i < |events| :: !IsReturnOf(events[i], events[call].func)
  }

  /** Some export call is recorded to have ended so. */
  ghost predicate Ended(events: seq<Event>, outcome: Outcome) {
    exists call: nat, at: nat :: Paired(events, call, at) && events[at].outcome == outcome
  }

  predicate IsApplicationCall(events: seq<Event>, at: nat) {
    at < |events| && events[at].ImportCall? && !IsWasi(events[at].interface)
  }

  /** What a divergence claims of the recording. */
  ghost predicate Justified(events: seq<Event>, d: Divergence) {
    match d.cause
    case TraceOver => |events| <= d.index
    case Unexpected(expected) => d.index < |events| && events[d.index] == expected && !IsUnserved(events, d.index)
    case NoAnswer => 0 < d.index && IsApplicationCall(events, d.index - 1) && !IsAnswer(events, d.index)
    case ResultDiffers(recorded, got) => recorded != got && Ended(events, Value(recorded))
    case StatusDiffers(recorded, got) => recorded != got && exists message :: Ended(events, Error(recorded, message))
    case ReturnedInsteadOfFailing => exists status, message :: Ended(events, Error(status, message))
    case FailedInsteadOfReturning => exists value :: Ended(events, Value(value))
    case NoReturn => exists call: nat :: Unpaired(events, call)
  }

  ghost predicate AllJustified(events: seq<Event>, st: State) {
    forall i | 0 <= i < |st.divergences| :: Justified(events, st.divergences[i])
  }

  lemma {:induction false} OneMore(events: seq<Event>, st: State, cause: Cause)
    requires AllJustified(events, st) && Justified(events, Divergence(st.position, cause))
    ensures AllJustified(events, st.Diverge(cause))
  {
    hide Justified;
  }

  lemma {:induction false} ExpectJustified(
    events: seq<Event>, st: State, interface: string, func: string, args: seq<string>)
    requires AllJustified(events, st) && !IsWasi(interface)
    ensures AllJustified(events, ExpectImport(events, st, interface, func, args).0)
  {
    hide AllJustified, IsWasi;
    var p := SkipFrom(events, st.position);
    var at := st.(position := p);
    SameDivergences(events, st, at);
    if |events| <= p {
      OneMore(events, at, TraceOver);
    } else if events[p] != ImportCall(interface, func, args) {
      OneMore(events, at, Unexpected(events[p]));
    } else {
      var next := at.(position := p + 1, matched := at.matched + 1);
      SameDivergences(events, at, next);
      if IsAnswer(events, p + 1) {
        SameDivergences(events, next, ExpectImport(events, st, interface, func, args).0);
      } else {
        OneMore(events, next, NoAnswer);
      }
    }
  }

  lemma {:induction false} SameDivergences(events: seq<Event>, a: State, b: State)
    requires AllJustified(events, a) && a.divergences == b.divergences
    ensures AllJustified(events, b)
  {
    hide Justified;
  }

  lemma {:induction false} DriveJustified<S>(w: World<S>, events: seq<Event>, s: S, st: State, fuel: nat)
    requires AllJustified(events, st) && Drive(w, events, s, st, fuel).Some?
    ensures AllJustified(events, Drive(w, events, s, st, fuel).value.st)
    decreases fuel
  {
    hide ExpectImport, MockOutcome, AllJustified, IsWasi;
    match w.next(s) {
      case Return(_) =>
      case Fail(_) =>
      case Import(interface, func, args) =>
        if IsWasi(interface) {
          var x := LiveImport(interface, w.registered(interface), func, args, w.library(s));
          DriveJustified(w, events, w.resume(s, ReplyTo(w, x)), st, fuel - 1);
        } else {
          var (st', answer) := ExpectImport(events, st, interface, func, EncodeAll(args));
          var x := LiveImport(
            interface, w.registered(interface), func, args, MockOutcome(w, interface, func, answer));
          ExpectJustified(events, st, interface, func, EncodeAll(args));
          DriveJustified(w, events, w.resume(s, ReplyTo(w, x)), st', fuel - 1);
        }
    }
  }

  /** The search finds the return that is paired with the call, or there is none. */
  lemma {:induction false} FindsPaired(events: seq<Event>, call: nat, from: nat)
    requires call < |events| && events[call].ExportCall? && call < from
    requires forall i | call < i < from && i < |events| :: !IsReturnOf(events[i], events[call].func)
    ensures match FindReturn(events, from, events[call].func)
            case None => Unpaired(events, call)
            case Some(outcome) => exists at: nat :: Paired(events, call, at) && events[at].outcome == outcome
    decreases |events| - from
  {
    if from < |events| {
      if IsReturnOf(events[from], events[call].func) {
        assert Paired(events, call, from);
      } else {
        FindsPaired(events, call, from + 1);
      }
    }
  }

  lemma {:induction false} ReturnJustified(events: seq<Event>, call: nat, st: State, actual: Actual)
    requires AllJustified(events, st) && call < |events| && events[call].ExportCall?
    ensures AllJustified(
              events, CheckExportReturn(st, actual, FindReturn(events, call + 1, events[call].func)))
  {
    FindsPaired(events, call, call + 1);
    hide AllJustified, FindReturn, Paired, Unpaired;
    var expected := FindReturn(events, call + 1, events[call].func);
    assert expected.Some? ==> Ended(events, expected.value);
    var after := CheckExportReturn(st, actual, expected);
    if after.divergences == st.divergences {
      SameDivergences(events, st, after);
    } else {
      OneMore(events, st, after.divergences[|st.divergences|].cause);
    }
  }

  lemma {:induction false} CallsJustified<S>(
    w: World<S>, events: seq<Event>, index: nat, s: S, st: State, fuel: nat)
    requires AllJustified(events, st) && ReplayCalls(w, events, index, s, st, fuel).Some?
    ensures AllJustified(events, ReplayCalls(w, events, index, s, st, fuel).value.0)
    decreases |events| - index
  {
    hide AllJustified, Drive, FindReturn, CheckExportReturn, Rendered;
    if index < |events| {
      if !events[index].ExportCall? {
        CallsJustified(w, events, index + 1, s, st, fuel);
      } else {
        var ExportCall(func, args) := events[index];
        var begun := st.(position := index + 1, matched := st.matched + 1);
        SameDivergences(events, st, begun);
        if w.refusal(func, args) == None {
          DriveJustified(w, events, w.enter(s, func, Parsed(args)), begun, fuel);
        }
        var made := ReplayCall(w, events, index, s, st, fuel).value;
        var expected := FindReturn(events, index + 1, func);
        ReturnJustified(events, index, made.st, made.actual);
        CallsJustified(w, events, index + 1, made.end, CheckExportReturn(made.st, made.actual, expected), fuel);
      }
    }
  }

  /** Whatever a guest does and whatever was recorded, the report claims nothing the recording does not bear out. */
  lemma {:induction false} ReportsAreJustified<S>(w: World<S>, trace: Trace, sha256: string, fuel: nat)
    ensures var run := ReplayTrace(w, trace, sha256, fuel);
            run.Some? && run.value.Ok? ==> AllJustified(trace.events, run.value.value.report)
  {
    hide Drive, ReplayCalls, AllJustified;
    var v := Reloaded(w, trace.header.plugin);
    assert AllJustified(trace.events, START) by {
      NothingSaid(trace.events);
    }
    var booted := Drive(v, trace.events, v.boot, START, fuel);
    if booted.Some? {
      DriveJustified(v, trace.events, v.boot, START, fuel);
      if ReplayCalls(v, trace.events, 0, booted.value.end, booted.value.st, fuel).Some? {
        CallsJustified(v, trace.events, 0, booted.value.end, booted.value.st, fuel);
      }
    }
  }

  lemma {:induction false} NothingSaid(events: seq<Event>)
    ensures AllJustified(events, START)
  {
  }
}
