/**
  That the condition of completeness is needed: whatever recorded answer does not meet it, some guest
  replays to a divergence. The inputs that fail are given at the end.
  */
module ReplayConverse {
  import opened Wrappers
  import opened TraceModel
  import opened Recording
  import opened Replay
  import opened ReplayTheorems

  const TRAPPED := "WT_ERR_TRAP"
  const OVER_LIMIT := "WT_ERR_LIMIT_EXCEEDED"

  function StatusOf(reply: Reply): string {
    if reply.Trap? && reply.spent then OVER_LIMIT else TRAPPED
  }

  /** In `w`'s place, a guest with one export: it calls the import `x`, and returns if it gets an answer. */
  function AskerWorld(w: World<int>, x: LiveImport): World<int> {
    w.(
      boot := 0,
      enter := (s, _, _) => 1,
      next := s =>
        if s == 1 then Import(x.interface, x.func, x.args)
        else if s == 3 then Fail(TRAPPED)
        else if s == 4 then Fail(OVER_LIMIT)
        else Return([]),
      resume := (s, reply: Reply) => AskerAfter(reply),
      library := s => Returned([]),
      refusal := (_, _) => None)
  }

  function AskerAfter(reply: Reply): int {
    if reply.Answer? then 2 else if StatusOf(reply) == TRAPPED then 3 else 4
  }

  function AskerOutcome(reply: Reply): HostOutcome {
    if reply.Answer? then Returned([]) else Failed(StatusOf(reply), "")
  }

  /** The run in which the application answers with `x`'s outcome. */
  function AskerSession(w: World<int>, x: LiveImport): Session {
    Session([], [LiveCall("run", [], [x], AskerOutcome(ReplyTo(w, x)))])
  }

  function AskerTrace(w: World<int>, x: LiveImport): seq<Event> {
    [ExportCall("run", []), ImportCall(x.served, x.func, EncodeAll(x.args)),
     ImportReturn(x.served, x.func, EncodeOutcome(x.outcome)),
     ExportReturn("run", EncodeOutcome(AskerOutcome(ReplyTo(w, x))))]
  }

  lemma {:induction false} AskerRan(w: World<int>, x: LiveImport)
    requires Links(w) && !IsWasi(x.interface) && x.served == w.registered(x.interface)
    ensures LiveSession(AskerWorld(w, x), AskerSession(w, x))
  {
    var asker, session := AskerWorld(w, x), AskerSession(w, x);
    var call, end := session.calls[0], AskerAfter(ReplyTo(w, x));
    AskerReplies(w, x);
    hide ReplyTo;
    assert call.imports[1..] == [];
    assert LiveRun(asker, end, call.imports[1..], end);
    assert LiveRun(asker, asker.enter(0, call.func, call.args), call.imports, end);
    assert LiveCalls(asker, end, session.calls[1..]);
    assert LiveCalls(asker, 0, session.calls);
    assert LiveRun(asker, asker.boot, session.boot, 0);
  }

  /** What is declared decides on replies, not the guest. */
  lemma {:induction false} AskerReplies(w: World<int>, x: LiveImport)
    ensures ReplyTo(AskerWorld(w, x), x) == ReplyTo(w, x)
    ensures GoodImport(AskerWorld(w, x), x) == GoodImport(w, x)
  {
    hide SaysSpent;
    assert Place(AskerWorld(w, x), x) == Place(w, x);
    assert forall values :: IsWhole(AskerWorld(w, x), x, values) <==> IsWhole(w, x, values);
  }

  lemma {:induction false} AskerRecorded(w: World<int>, x: LiveImport)
    ensures EncodeEvents(SessionEvents(AskerSession(w, x))) == AskerTrace(w, x)
    ensures SessionEvents(AskerSession(w, x))
         == [OnExportCall("run", []), OnImportCall(x.served, x.func, x.args),
             OnImportReturn(x.served, x.func, x.outcome),
             OnExportReturn("run", AskerOutcome(ReplyTo(w, x)))]
  {
    hide EncodeOutcome, ReplyTo;
    var session := AskerSession(w, x);
    var call := session.calls[0];
    var e0, e1 := OnExportCall("run", []), OnImportCall(x.served, x.func, x.args);
    var e2, e3 := OnImportReturn(x.served, x.func, x.outcome), OnExportReturn("run", call.outcome);
    assert ImportEvents(call.imports[1..]) == [];
    assert ImportEvents(call.imports) == [e1, e2];
    assert CallsEvents(session.calls[1..]) == [];
    assert SessionEvents(session) == [e0, e1, e2, e3];
    assert EncodeAll([]) == [];
    assert EncodeEvents([e0, e1, e2, e3]) == AskerTrace(w, x);
  }

  /** Replies that differ show: in whether there is an answer, or in the status of the trap. */
  lemma {:induction false} MisleadingShows<S>(w: World<S>, x: LiveImport)
    requires Representable(x.outcome) && Misleads(w, x)
    ensures AskerAfter(ReplayedReply(w, x)) != AskerAfter(LiveReply(w, x))
  {
    SameReply(w, x);
    ReplayedTextually(w, x);
    hide SaysSpent, Place, ErrsAsSpent;
    assert x.outcome.values[0] in x.outcome.values;
  }

  /** How the replay of the asker's run is judged. */
  function AskerCause(live: Reply, replayed: Reply): Cause {
    if live.Answer? then FailedInsteadOfReturning
    else if replayed.Answer? then ReturnedInsteadOfFailing
    else StatusDiffers(StatusOf(live), StatusOf(replayed))
  }

  /** The asker's one call, from where the guest stands after the import. */
  lemma {:induction false} AskerEnds(w: World<int>, x: LiveImport, answered: State, replayed: Reply)
    requires !IsWasi(x.interface)
    requires var asker := Again(AskerWorld(w, x));
             var (st, answer) :=
               ExpectImport(AskerTrace(w, x), State(1, 1, []), x.interface, x.func, EncodeAll(x.args));
             var outcome := MockOutcome(asker, x.interface, x.func, answer);
             st == answered && replayed == LiveReply(asker, x.(served := x.interface, outcome := outcome))
    ensures var asker := Again(AskerWorld(w, x));
            var made := ReplayCall(asker, AskerTrace(w, x), 0, 0, State(0, 0, []), 4);
            && made.Some? && made.value.st == answered && made.value.end == AskerAfter(replayed)
            && made.value.actual == if replayed.Answer? then Succeeded([]) else Broke(StatusOf(replayed))
  {
    hide ExpectImport, MockOutcome, LiveReply, EncodeOutcome;
    var asker, events := Again(AskerWorld(w, x)), AskerTrace(w, x);
    var end := AskerAfter(replayed);
    assert EncodeAll([]) == [];
    assert Drive(asker, events, end, answered, 3) == Some(Driven(end, answered, [], []));
    var (st, answer) := ExpectImport(events, State(1, 1, []), x.interface, x.func, EncodeAll(x.args));
    var y := LiveImport(x.interface, x.interface, x.func, x.args, MockOutcome(asker, x.interface, x.func, answer));
    assert y == x.(served := x.interface, outcome := y.outcome);
    assert ReplyTo(asker, y) == LiveReply(asker, y);
    assert Parsed(events[0].args) == [];
  }

  /** Its replay, to the end: the report is what the one judgement leaves. */
  lemma {:induction false} AskerJudged(w: World<int>, x: LiveImport, made: Made<int>)
    requires ReplayCall(Again(AskerWorld(w, x)), AskerTrace(w, x), 0, 0, START, 4) == Some(made)
    ensures var recorded := EncodeOutcome(AskerOutcome(ReplyTo(w, x)));
            var run := ReplayTrace(AskerWorld(w, x), Trace(Header("", w.name, ""), AskerTrace(w, x)), "", 4);
            && run.Some? && run.value.Ok?
            && run.value.value.report == CheckExportReturn(made.st, made.actual, Some(recorded))
  {
    hide ReplayCall, CheckExportReturn, EncodeOutcome, AskerOutcome;
    var asker, events := Again(AskerWorld(w, x)), AskerTrace(w, x);
    var recorded := EncodeOutcome(AskerOutcome(ReplyTo(w, x)));
    assert Reloaded(AskerWorld(w, x), w.name) == asker;
    assert Drive(asker, events, 0, START, 4) == Some(Driven(0, START, [], []));
    assert FindReturn(events, 1, "run") == FindReturn(events, 2, "run") == FindReturn(events, 3, "run");
    SkipToExportCall(asker, events, 1, 4, made.end, CheckExportReturn(made.st, made.actual, Some(recorded)), 4);
  }

  /** The asker's import, looked up where it is recorded. */
  lemma {:induction false} AskerExpects(w: World<int>, x: LiveImport)
    requires !IsWasi(x.interface) && !IsWasi(x.served)
    ensures var (st, answer) :=
              ExpectImport(AskerTrace(w, x), State(1, 1, []), x.interface, x.func, EncodeAll(x.args));
            if x.served == x.interface then st == State(3, 3, []) && answer == Some(EncodeOutcome(x.outcome))
            else st == State(1, 1, [Divergence(1, Unexpected(AskerTrace(w, x)[1]))]) && answer == None
  {
    hide EncodeOutcome, AskerOutcome;
    assert SkipFrom(AskerTrace(w, x), 1) == 1;
  }

  /** What the asker is given in replay is the recorded answer read back. */
  lemma {:induction false} AskerGets(w: World<int>, x: LiveImport)
    requires x.served == x.interface
    ensures var asker := Again(AskerWorld(w, x));
            var outcome := MockOutcome(asker, x.interface, x.func, Some(EncodeOutcome(x.outcome)));
            LiveReply(asker, x.(served := x.interface, outcome := outcome)) == ReplayedReply(w, x)
  {
    hide SaysSpent;
    var asker := Again(AskerWorld(w, x));
    var outcome := MockOutcome(asker, x.interface, x.func, Some(EncodeOutcome(x.outcome)));
    var y := x.(outcome := outcome);
    assert x.(served := x.interface, outcome := outcome) == y;
    assert Place(asker, y) == Place(w, y);
    assert forall values :: IsWhole(asker, y, values) <==> IsWhole(w, y, values);
  }

  /** An answer that misleads, served under its own name, replays to one divergence, at the export's return. */
  lemma {:induction false} AskerReplayed(w: World<int>, x: LiveImport)
    requires !IsWasi(x.interface) && x.served == x.interface && Representable(x.outcome) && Misleads(w, x)
    ensures var run := ReplayTrace(AskerWorld(w, x), Trace(Header("", w.name, ""), AskerTrace(w, x)), "", 4);
            && run.Some? && run.value.Ok?
            && run.value.value.report.divergences
               == [Divergence(3, AskerCause(LiveReply(w, x), ReplayedReply(w, x)))]
  {
    hide LiveReply, MockOutcome, Misleads, ExpectImport, ReplayCall, ReplayTrace, ReplayedReply;
    MisleadingShows(w, x);
    AskerExpects(w, x);
    AskerGets(w, x);
    AskerEnds(w, x, State(3, 3, []), ReplayedReply(w, x));
    AskerJudged(w, x, ReplayCall(Again(AskerWorld(w, x)), AskerTrace(w, x), 0, 0, START, 4).value);
  }

  /** So does one served under another name, at the import. */
  lemma {:induction false} AskerDrifted(w: World<int>, x: LiveImport)
    requires !IsWasi(x.interface) && !IsWasi(x.served) && x.served != x.interface
    ensures var run := ReplayTrace(AskerWorld(w, x), Trace(Header("", w.name, ""), AskerTrace(w, x)), "", 4);
            && run.Some? && run.value.Ok?
            && run.value.value.report.divergences != []
            && run.value.value.report.divergences[0] == Divergence(1, Unexpected(AskerTrace(w, x)[1]))
  {
    hide LiveReply, MockOutcome, ExpectImport, ReplayCall, ReplayTrace, AskerOutcome;
    var asker := Again(AskerWorld(w, x));
    var (st, answer) := ExpectImport(AskerTrace(w, x), State(1, 1, []), x.interface, x.func, EncodeAll(x.args));
    AskerExpects(w, x);
    var outcome := MockOutcome(asker, x.interface, x.func, answer);
    AskerEnds(w, x, st, LiveReply(asker, x.(served := x.interface, outcome := outcome)));
    AskerJudged(w, x, ReplayCall(asker, AskerTrace(w, x), 0, 0, START, 4).value);
  }

  /**
    The condition of `RecordingsReplay` is needed, for every declaration and every recorded answer: if
    the answer misleads, or was served under another name, some guest with that declaration, in a
    session with just that answer, replays to a divergence.
    */
  lemma {:induction false} MisleadingDiverges(w: World<int>, x: LiveImport)
    requires Links(w) && !IsWasi(x.interface) && x.served == w.registered(x.interface)
    requires Representable(x.outcome) && (forall v | v in x.args :: !v.Handle?)
    requires !GoodImport(w, x)
    ensures var asker, session := AskerWorld(w, x), AskerSession(w, x);
            var trace := Trace(Header("", w.name, ""), EncodeEvents(SessionEvents(session)));
            var run := ReplayTrace(asker, trace, "", 4);
            && LiveSession(asker, session)
            && (forall e | e in SessionEvents(session) :: Spellable(e))
            && run.Some? && run.value.Ok? && !run.value.value.report.IsFaithful()
  {
    hide LiveSession, ReplayTrace, EncodeEvents, AskerTrace, AskerWorld, Misleads;
    AskerRan(w, x);
    AskerRecorded(w, x);
    if x.served == x.interface {
      AskerReplayed(w, x);
    } else {
      AskerDrifted(w, x);
    }
  }

  // ---------------------------------------------------------------------------------------------
  // Such answers
  // ---------------------------------------------------------------------------------------------

  const SINK := "app:log/sink@0.1.0"

  /** A plugin whose imports are declared to return one value each; `fits` says of which texts. */
  function OneResult(name: string, fits: bool, registered: string -> string): World<int> {
    World(
      name, 0, (s, _, _) => 0, s => Return([]), (s, _) => 0, s => Returned([]), (_, _) => 1, (_, _, _) => fits,
      (_, _) => None, registered, (_, _, _) => "type mismatch", (_, _, _) => "unexpected token")
  }

  function Emitted(served: string, values: seq<Val>): LiveImport {
    LiveImport(SINK, served, "emit", [], Returned(values))
  }

  lemma {:induction false} SinkIsNotWasi(version: string)
    ensures !IsWasi("app:log/sink@" + version)
  {
    assert "wasi:"[0] != ("app:log/sink@" + version)[0];
  }

  /** The replay of a session of the asker that makes the one import. */
  function AskerReplay(w: World<int>, x: LiveImport): Option<Result<Run, Refusal>> {
    ReplayTrace(AskerWorld(w, x), Trace(Header("", w.name, ""), EncodeEvents(SessionEvents(AskerSession(w, x)))), "", 4)
  }

  ghost predicate DivergesOnly(run: Option<Result<Run, Refusal>>, divergence: Divergence) {
    run.Some? && run.value.Ok? && run.value.value.report.divergences == [divergence]
  }

  /**
    Two values where one is declared. Live, the guest's call failed; what is recorded is the first, and
    replayed the guest is given that value.
    */
  lemma {:induction false} ExtraValuesDiverge()
    ensures var w, x := OneResult("p", true, i => i), Emitted(SINK, [Text("a"), Text("b")]);
            && LiveSession(AskerWorld(w, x), AskerSession(w, x))
            && DivergesOnly(AskerReplay(w, x), Divergence(3, ReturnedInsteadOfFailing))
  {
    var w, x := OneResult("p", true, i => i), Emitted(SINK, [Text("a"), Text("b")]);
    SinkIsNotWasi("0.1.0");
    hide LiveSession, EncodeEvents, AskerSession, AskerTrace, AskerWorld;
    AskerRan(w, x);
    AskerRecorded(w, x);
    AskerReplayed(w, x);
    ReplayedTextually(w, x);
  }

  lemma {:induction false} SaysSo(front: string, back: string)
    ensures SaysSpent(front + BUDGET_SPENT + back)
  {
    MentionedAt(BUDGET_SPENT, BUDGET_SPENT, 0);
    MentionedWithin(front, BUDGET_SPENT, back, BUDGET_SPENT);
  }

  lemma {:induction false} WrongTypeDiverges(name: string, text: string)
    requires SaysSpent(Place(OneResult(name, false, i => i), Emitted(SINK, [Mistyped(text)]))) || SaysSpent(text)
    ensures var w, x := OneResult(name, false, i => i), Emitted(SINK, [Mistyped(text)]);
            && LiveSession(AskerWorld(w, x), AskerSession(w, x))
            && DivergesOnly(AskerReplay(w, x), Divergence(3, StatusDiffers(TRAPPED, OVER_LIMIT)))
  {
    hide SaysSpent, Place;
    var w, x := OneResult(name, false, i => i), Emitted(SINK, [Mistyped(text)]);
    SinkIsNotWasi("0.1.0");
    NoSuchLetter("type mismatch");
    assert Mistyped(text) in x.outcome.values;
    hide LiveSession, EncodeEvents, AskerSession, AskerTrace, AskerWorld, Links;
    AskerRan(w, x);
    AskerRecorded(w, x);
    AskerReplayed(w, x);
    ReplayedTextually(w, x);
  }

  /**
    A value of another type, whose text says what a spent budget says. Live, it is a wrong type and a
    trap; replayed, the parse error quotes it, and the trap is taken for a spent limit.
    */
  lemma {:induction false} QuotedBudgetDiverges()
    ensures var w, x := OneResult("p", false, i => i), Emitted(SINK, [Mistyped("\"" + BUDGET_SPENT + "\"")]);
            && LiveSession(AskerWorld(w, x), AskerSession(w, x))
            && DivergesOnly(AskerReplay(w, x), Divergence(3, StatusDiffers(TRAPPED, OVER_LIMIT)))
  {
    SaysSo("\"", "\"");
    hide LiveSession, AskerSession, AskerWorld, AskerReplay, DivergesOnly, SaysSpent;
    WrongTypeDiverges("p", "\"" + BUDGET_SPENT + "\"");
  }

  /** A plugin of that name: every error the shim words is taken for a spent limit, a wrong type live is not. */
  lemma {:induction false} NamedAfterBudgetDiverges()
    ensures var w, x := OneResult(BUDGET_SPENT, false, i => i), Emitted(SINK, [Mistyped("7")]);
            && LiveSession(AskerWorld(w, x), AskerSession(w, x))
            && DivergesOnly(AskerReplay(w, x), Divergence(3, StatusDiffers(TRAPPED, OVER_LIMIT)))
  {
    var rest := ": host function " + SINK + "#" + "emit";
    SaysSo("", rest);
    hide LiveSession, AskerSession, AskerWorld, AskerReplay, DivergesOnly, SaysSpent;
    assert Place(OneResult(BUDGET_SPENT, false, i => i), Emitted(SINK, [Mistyped("7")])) == "" + BUDGET_SPENT + rest;
    WrongTypeDiverges(BUDGET_SPENT, "7");
  }

  /** Registered under a compatible version, an interface is recorded under a name replay does not ask for. */
  lemma {:induction false} CompatibleVersionDiverges()
    ensures var w := OneResult("p", true, i => if i == SINK then "app:log/sink@0.1.1" else i);
            var x := Emitted("app:log/sink@0.1.1", [Text("a")]);
            && LiveSession(AskerWorld(w, x), AskerSession(w, x))
            && AskerReplay(w, x).Some? && AskerReplay(w, x).value.Ok?
            && !AskerReplay(w, x).value.value.report.IsFaithful()
  {
    var w := OneResult("p", true, i => if i == SINK then "app:log/sink@0.1.1" else i);
    var x := Emitted("app:log/sink@0.1.1", [Text("a")]);
    SinkIsNotWasi("0.1.0");
    SinkIsNotWasi("0.1.1");
    assert |SINK| == |x.served| && SINK[|SINK| - 1] != x.served[|SINK| - 1];
    hide LiveSession, EncodeEvents, AskerSession, AskerTrace, AskerWorld, ReplayTrace, SessionEvents, Spellable;
    MisleadingDiverges(w, x);
  }
}
