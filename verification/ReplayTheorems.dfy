/**
  Recordings replay.

  A recorded session replays without divergence and matches every event the host library does not
  serve, provided no recorded answer misleads and every interface was served under its own name.
  */
module ReplayTheorems {
  import opened Wrappers
  import opened TraceModel
  import opened Recording
  import opened Replay

  // ---------------------------------------------------------------------------------------------
  // Counting the events a replay has to match
  // ---------------------------------------------------------------------------------------------

  /** Everything but the crossings the host library serves. */
  predicate IsServed(event: Event) {
    match event
    case ExportCall(_, _) => true
    case ExportReturn(_, _) => true
    case ImportCall(interface, _, _) => !IsWasi(interface)
    case ImportReturn(interface, _, _) => !IsWasi(interface)
  }

  function ServedCount(events: seq<Event>): nat {
    if events == [] then 0
    else (if IsServed(events[0]) then 1 else 0) + ServedCount(events[1..])
  }

  lemma {:induction false} ServedCountConcat(a: seq<Event>, b: seq<Event>)
    ensures ServedCount(a + b) == ServedCount(a) + ServedCount(b)
  {
    if a == [] {
      assert a + b == b;
    } else {
      assert (a + b)[1..] == a[1..] + b;
      ServedCountConcat(a[1..], b);
    }
  }

  // ---------------------------------------------------------------------------------------------
  // When a recorded answer reaches the guest as the live one did
  // ---------------------------------------------------------------------------------------------

  predicate Representable(outcome: HostOutcome) {
    outcome.Returned? && outcome.values != [] ==> ToWave(outcome.values[0]).Some?
  }

  /** Read back, the text is an error whose message says the budget was spent: it quotes the text. */
  predicate ErrsAsSpent<S>(w: World<S>, x: LiveImport, text: string) {
    && 1 <= w.arity(x.interface, x.func)
    && !w.fits(x.interface, x.func, Text(text))
    && (SaysSpent(text) || SaysSpent(w.unparsed(x.interface, x.func, text)))
  }

  /**
    What is written down, the text of the first value, comes to another reply than was given.

    Where one result is declared and the text is of its type, it is an answer: the value was not of the
    type, or not the only one. Anywhere else it is a trap: the values were a whole answer the recording
    has lost; or they were a trap too, and one of the two messages says the budget was spent. A wrong
    count is worded by the shim, as every replayed error is, a wrong type without it.
    */
  predicate Misleads<S>(w: World<S>, x: LiveImport) {
    && x.outcome.Returned?
    && x.outcome.values != []
    && var values, declared := x.outcome.values, w.arity(x.interface, x.func);
       var text := EncodeOne(values[0]);
       if declared == 1 && w.fits(x.interface, x.func, Text(text)) then
         values[0].Mistyped? || 2 <= |values|
       else if IsWhole(w, x, values) then
         true
       else if |values| != declared then
         !SaysSpent(Place(w, x)) && ErrsAsSpent(w, x, text)
       else
         SaysSpent(w.mistyped(x.interface, x.func, values)) != (SaysSpent(Place(w, x)) || ErrsAsSpent(w, x, text))
  }

  lemma {:induction false} NoSuchLetter(message: string)
    requires 'f' !in message
    ensures !SaysSpent(message)
  {
    forall i | 0 <= i <= |message| - |BUDGET_SPENT| ensures !(BUDGET_SPENT <= message[i..]) {
      assert message[i..][0] == message[i] && BUDGET_SPENT[0] == 'f';
    }
  }

  lemma {:induction false} MentionedAt(message: string, phrase: string, i: nat)
    requires i + |phrase| <= |message| && message[i..i + |phrase|] == phrase
    ensures Mentions(message, phrase)
  {
    assert message[i..][..|phrase|] == message[i..i + |phrase|];
    assert phrase <= message[i..];
  }

  lemma {:induction false} Mentioning(message: string, phrase: string) returns (i: nat)
    requires Mentions(message, phrase)
    ensures i + |phrase| <= |message| && message[i..i + |phrase|] == phrase
  {
    i :| i <= |message| - |phrase| && phrase <= message[i..];
    assert message[i..][..|phrase|] == message[i..i + |phrase|];
  }

  lemma {:induction false} MentionedWithin(front: string, message: string, back: string, phrase: string)
    requires Mentions(message, phrase)
    ensures Mentions(front + message + back, phrase)
  {
    var i := Mentioning(message, phrase);
    var whole, at := front + message + back, |front| + i;
    assert whole[at..at + |phrase|] == message[i..i + |phrase|];
    MentionedAt(whole, phrase, at);
  }

  /** A phrase does not reach across a character it does not have. */
  lemma {:induction false} MentionedAround(a: string, c: char, b: string, phrase: string)
    requires c !in phrase
    ensures Mentions(a + [c] + b, phrase) <==> Mentions(a, phrase) || Mentions(b, phrase)
  {
    hide Mentions;
    var n, whole := |phrase|, a + [c] + b;
    if Mentions(whole, phrase) {
      var i := Mentioning(whole, phrase);
      assert forall k | i <= k < i + n :: whole[k] == whole[i..i + n][k - i] == phrase[k - i];
      if |a| < i {
        assert b[i - |a| - 1..i - |a| - 1 + n] == whole[i..i + n];
        MentionedAt(b, phrase, i - |a| - 1);
      } else {
        assert whole[|a|] == c;
        assert i + n <= |a|;
        assert a[i..i + n] == whole[i..i + n];
        MentionedAt(a, phrase, i);
      }
    }
    if Mentions(a, phrase) {
      MentionedWithin([], a, [c] + b, phrase);
      assert [] + a + ([c] + b) == whole;
    }
    if Mentions(b, phrase) {
      MentionedWithin(a + [c], b, [], phrase);
      assert a + [c] + b + [] == whole;
    }
  }

  /** A character a phrase does not begin with can go before it. */
  lemma {:induction false} MentionedPast(c: char, message: string, phrase: string)
    requires phrase != "" && c != phrase[0]
    ensures Mentions([c] + message, phrase) <==> Mentions(message, phrase)
  {
    hide Mentions;
    var n, whole := |phrase|, [c] + message;
    if Mentions(whole, phrase) {
      var i := Mentioning(whole, phrase);
      assert i > 0 by {
        assert whole[i..i + n][0] == whole[i];
      }
      assert message[i - 1..i - 1 + n] == whole[i..i + n];
      MentionedAt(message, phrase, i - 1);
    }
    if Mentions(message, phrase) {
      MentionedWithin([c], message, [], phrase);
      assert [c] + message + [] == whole;
    }
  }

  lemma {:induction false} PhraseLetters()
    ensures ':' !in BUDGET_SPENT && '\"' !in BUDGET_SPENT
    ensures BUDGET_SPENT != "" && BUDGET_SPENT[0] == 'f'
  {
  }

  /** In an error of a host function it is said by the place or by the message. */
  lemma {:induction false} SaidInError(place: string, message: string)
    ensures SaysSpent(place + ": " + message) <==> SaysSpent(place) || SaysSpent(message)
  {
    hide Mentions;
    PhraseLetters();
    assert place + ": " + message == place + [':'] + ([' '] + message);
    MentionedAround(place, ':', [' '] + message, BUDGET_SPENT);
    MentionedPast(' ', message, BUDGET_SPENT);
  }

  /** In a parse error by the text it quotes or by what is wrong with it. */
  lemma {:induction false} SaidInParseError(text: string, detail: string)
    ensures SaysSpent(CannotParse(text, detail)) <==> SaysSpent(text) || SaysSpent(detail)
  {
    hide Mentions;
    PhraseLetters();
    var rest := " as WAVE" + [':'] + ([' '] + detail);
    assert CannotParse(text, detail) == "cannot parse " + ['\"'] + (text + ['\"'] + rest);
    MentionedAround("cannot parse ", '\"', text + ['\"'] + rest, BUDGET_SPENT);
    MentionedAround(text, '\"', rest, BUDGET_SPENT);
    MentionedAround(" as WAVE", ':', [' '] + detail, BUDGET_SPENT);
    MentionedPast(' ', detail, BUDGET_SPENT);
    NoSuchLetter("cannot parse ");
    NoSuchLetter(" as WAVE");
  }

  /** What the guest gets for a recorded answer, were it replayed in place. */
  function ReplayedReply<S>(w: World<S>, x: LiveImport): Reply {
    LiveReply(w, x.(outcome := MockOutcome(w, x.interface, x.func, Some(EncodeOutcome(x.outcome)))))
  }

  lemma {:induction false} ReplayedTextually<S>(w: World<S>, x: LiveImport)
    requires Representable(x.outcome) && x.outcome.Returned? && x.outcome.values != []
    ensures ReplayedReply(w, x)
         == var text := EncodeOne(x.outcome.values[0]);
            if w.arity(x.interface, x.func) == 1 && w.fits(x.interface, x.func, Text(text)) then Answer([Text(text)])
            else Trap(SaysSpent(Place(w, x)) || ErrsAsSpent(w, x, text))
  {
    var text := EncodeOne(x.outcome.values[0]);
    assert forall outcome :: Place(w, x.(outcome := outcome)) == Place(w, x);
    hide Mentions, SaysSpent, Place, CannotParse;
    var detail := w.unparsed(x.interface, x.func, text);
    SaidInError(Place(w, x), NO_RESULT);
    NoSuchLetter(NO_RESULT);
    SaidInError(Place(w, x), CannotParse(text, detail));
    SaidInParseError(text, detail);
    assert forall v | v in [Text(text)] :: v == Text(text);
    assert Text(text) in [Text(text)];
  }

  /** Recorded answer and live one are the same to the guest exactly when the recording does not mislead. */
  lemma {:induction false} SameReply<S>(w: World<S>, x: LiveImport)
    requires Representable(x.outcome)
    ensures ReplayedReply(w, x) == LiveReply(w, x) <==> !Misleads(w, x)
  {
    assert forall outcome :: Place(w, x.(outcome := outcome)) == Place(w, x);
    hide Mentions, SaysSpent, Place, ErrsAsSpent, CannotParse;
    if x.outcome.Returned? && x.outcome.values != [] {
      ReplayedTextually(w, x);
      var first := x.outcome.values[0];
      assert first in x.outcome.values;
      assert |x.outcome.values| == 1 ==> x.outcome.values == [first];
    } else if x.outcome.Returned? {
      assert MockOutcome(w, x.interface, x.func, Some(EncodeOutcome(x.outcome))) == x.outcome;
    }
  }

  /** Served under its own name, and with an answer the recording does not mislead about. */
  predicate GoodImport<S>(w: World<S>, x: LiveImport) {
    IsWasi(x.interface) || (x.served == x.interface && !Misleads(w, x))
  }

  predicate GoodImports<S>(w: World<S>, imports: seq<LiveImport>) {
    forall i | 0 <= i < |imports| :: GoodImport(w, imports[i])
  }

  lemma {:induction false} GoodImportsSplit<S>(w: World<S>, imports: seq<LiveImport>)
    requires imports != [] && GoodImports(w, imports)
    ensures GoodImport(w, imports[0]) && GoodImports(w, imports[1..])
  {
    var rest := imports[1..];
    forall i | 0 <= i < |rest| ensures GoodImport(w, rest[i]) {
      assert rest[i] == imports[i + 1];
    }
  }

  predicate GoodSession<S>(w: World<S>, session: Session) {
    && GoodImports(w, session.boot)
    && forall k | 0 <= k < |session.calls| :: GoodImports(w, session.calls[k].imports)
  }

  // ---------------------------------------------------------------------------------------------
  // Completeness: recordings replay
  // ---------------------------------------------------------------------------------------------

  predicate AllSpellable(events: seq<HostEvent>) {
    forall i | 0 <= i < |events| :: Spellable(events[i])
  }

  /** `events` holds the recording of `part` starting at position `at`. */
  predicate RecordedAt(events: seq<Event>, at: nat, part: seq<HostEvent>) {
    && at + |part| <= |events|
    && forall i | 0 <= i < |part| :: events[at + i] == EncodeEvent(part[i])
  }

  lemma {:induction false} RecordedAtSplit(events: seq<Event>, at: nat, a: seq<HostEvent>, b: seq<HostEvent>)
    requires RecordedAt(events, at, a + b)
    ensures RecordedAt(events, at, a) && RecordedAt(events, at + |a|, b)
  {
    forall i | 0 <= i < |a| ensures events[at + i] == EncodeEvent(a[i]) {
      assert (a + b)[i] == a[i];
    }
    forall i | 0 <= i < |b| ensures events[at + |a| + i] == EncodeEvent(b[i]) {
      assert (a + b)[|a| + i] == b[i];
    }
  }

  lemma {:induction false} AllSpellableSplit(a: seq<HostEvent>, b: seq<HostEvent>)
    requires AllSpellable(a + b)
    ensures AllSpellable(a) && AllSpellable(b)
  {
    forall i | 0 <= i < |a| ensures Spellable(a[i]) {
      assert (a + b)[i] == a[i];
    }
    forall i | 0 <= i < |b| ensures Spellable(b[i]) {
      assert (a + b)[|a| + i] == b[i];
    }
  }

  function ServedOf(events: seq<HostEvent>): nat {
    ServedCount(EncodeEvents(events))
  }

  lemma {:induction false} ServedOfConcat(a: seq<HostEvent>, b: seq<HostEvent>)
    ensures ServedOf(a + b) == ServedOf(a) + ServedOf(b)
  {
    assert EncodeEvents(a + b) == EncodeEvents(a) + EncodeEvents(b);
    ServedCountConcat(EncodeEvents(a), EncodeEvents(b));
  }

  lemma {:induction false} ServedOfOne(event: HostEvent)
    ensures ServedOf([event]) == if IsServed(EncodeEvent(event)) then 1 else 0
  {
    var encoded := EncodeEvents([event]);
    assert encoded[0] == EncodeEvent(event) && encoded[1..] == [];
    assert ServedCount(encoded[1..]) == 0;
  }

  function ServedImports(imports: seq<LiveImport>): nat {
    if imports == [] then 0
    else (if IsWasi(imports[0].served) then 0 else 2) + ServedImports(imports[1..])
  }

  lemma {:induction false} ImportEventsLength(imports: seq<LiveImport>)
    ensures |ImportEvents(imports)| == 2 * |imports|
    ensures ServedOf(ImportEvents(imports)) == ServedImports(imports)
    ensures forall i | 0 <= i < |ImportEvents(imports)| ::
              ImportEvents(imports)[i].OnImportCall? || ImportEvents(imports)[i].OnImportReturn?
  {
    if imports != [] {
      ImportEventsLength(imports[1..]);
      var x := imports[0];
      var call, ret := OnImportCall(x.served, x.func, x.args), OnImportReturn(x.served, x.func, x.outcome);
      var tail := ImportEvents(imports[1..]);
      assert ImportEvents(imports) == [call] + ([ret] + tail);
      ServedOfConcat([call], [ret] + tail);
      ServedOfConcat([ret], tail);
      ServedOfOne(call);
      ServedOfOne(ret);
    }
  }

  /** The recording of one import, with the rest after it. */
  lemma {:induction false} FirstImportRecorded(events: seq<Event>, at: nat, imports: seq<LiveImport>)
    requires imports != [] && RecordedAt(events, at, ImportEvents(imports))
    ensures at + 2 <= |events|
    ensures events[at] == ImportCall(imports[0].served, imports[0].func, EncodeAll(imports[0].args))
    ensures events[at + 1] == ImportReturn(imports[0].served, imports[0].func, EncodeOutcome(imports[0].outcome))
    ensures RecordedAt(events, at + 2, ImportEvents(imports[1..]))
  {
    var x := imports[0];
    var head := [OnImportCall(x.served, x.func, x.args), OnImportReturn(x.served, x.func, x.outcome)];
    assert ImportEvents(imports) == head + ImportEvents(imports[1..]);
    RecordedAtSplit(events, at, head, ImportEvents(imports[1..]));
    assert events[at + 0] == EncodeEvent(head[0]);
    assert events[at + 1] == EncodeEvent(head[1]);
  }

  lemma {:induction false} AllSpellableImports(imports: seq<LiveImport>)
    requires imports != [] && AllSpellable(ImportEvents(imports))
    ensures Representable(imports[0].outcome)
    ensures AllSpellable(ImportEvents(imports[1..]))
  {
    var all := ImportEvents(imports);
    var rest := ImportEvents(imports[1..]);
    assert Spellable(all[1]);
    if imports[0].outcome.Returned? && imports[0].outcome.values != [] {
      assert imports[0].outcome.values[0] in Spelled(all[1]);
    }
    forall i | 0 <= i < |rest| ensures Spellable(rest[i]) {
      assert all[i + 2] == rest[i];
    }
  }

  /** The cursor, asked for the import recorded where it stands, answers with what was recorded. */
  lemma {:induction false} ExpectRecorded(events: seq<Event>, st: State, at: nat, x: LiveImport)
    requires at + 2 <= |events| && !IsWasi(x.interface)
    requires SkipFrom(events, st.position) == SkipFrom(events, at)
    requires events[at] == ImportCall(x.interface, x.func, EncodeAll(x.args))
    requires events[at + 1] == ImportReturn(x.interface, x.func, EncodeOutcome(x.outcome))
    ensures ExpectImport(events, st, x.interface, x.func, EncodeAll(x.args))
         == (State(at + 2, st.matched + 2, st.divergences), Some(EncodeOutcome(x.outcome)))
  {
    assert SkipFrom(events, at) == at;
  }

  /** The plugin as its own recording has it loaded again. */
  function Again<S>(w: World<S>): World<S> {
    Reloaded(w, w.name)
  }

  /** To an import served under its own name the reload makes no difference. */
  lemma {:induction false} SameAgain<S>(w: World<S>, x: LiveImport)
    ensures Place(Again(w), x) == Place(w, x)
    ensures LiveReply(Again(w), x) == LiveReply(w, x) && ReplayedReply(Again(w), x) == ReplayedReply(w, x)
    ensures ReplyTo(Again(w), x) == ReplyTo(w, x)
  {
    hide SaysSpent;
    assert forall values :: IsWhole(Again(w), x, values) <==> IsWhole(w, x, values);
  }

  /** One stretch of a live run, replayed over its own recording. */
  lemma {:induction false} DriveLive<S>(
    w: World<S>, events: seq<Event>, s: S, imports: seq<LiveImport>, end: S, at: nat, st: State, fuel: nat)
    requires Links(w) && LiveRun(w, s, imports, end)
    requires GoodImports(w, imports) && AllSpellable(ImportEvents(imports))
    requires RecordedAt(events, at, ImportEvents(imports))
    requires SkipFrom(events, st.position) == SkipFrom(events, at)
    requires |imports| <= fuel
    ensures var d := Drive(Again(w), events, s, st, fuel);
            && d.Some? && d.value.end == end
            && d.value.st.matched == st.matched + ServedImports(imports)
            && d.value.st.divergences == st.divergences
    decreases |imports|
  {
    hide ExpectImport, MockOutcome, LiveReply, EncodeOutcome, RecordedAt, AllSpellable, ImportEvents, GoodImports,
      Misleads;
    if imports != [] {
      var x, rest := imports[0], imports[1..];
      FirstImportRecorded(events, at, imports);
      AllSpellableImports(imports);
      GoodImportsSplit(w, imports);
      if IsWasi(x.interface) {
        assert SkipFrom(events, at) == SkipFrom(events, at + 2);
        DriveLive(w, events, w.resume(s, ReplyTo(w, x)), rest, end, at + 2, st, fuel - 1);
      } else {
        ExpectRecorded(events, st, at, x);
        var (st', answer) := ExpectImport(events, st, x.interface, x.func, EncodeAll(x.args));
        SameReply(w, x);
        SameAgain(w, x);
        DriveLive(w, events, w.resume(s, ReplyTo(w, x)), rest, end, at + 2, st', fuel - 1);
      }
    }
  }

  lemma {:induction false} ParsedEncoded(args: seq<Val>)
    requires forall v | v in args :: v.Text?
    ensures Parsed(EncodeAll(args)) == args
  {
    forall i | 0 <= i < |args| ensures Parsed(EncodeAll(args))[i] == args[i] {
      assert args[i] in args;
    }
  }

  /** The return of a call is found past the imports made inside it. */
  lemma {:induction false} FindReturnPastImports(events: seq<Event>, from: nat, to: nat, func: string)
    requires from <= to < |events|
    requires forall i | from <= i < to :: !events[i].ExportReturn?
    requires events[to].ExportReturn? && events[to].func == func
    ensures FindReturn(events, from, func) == Some(events[to].outcome)
    decreases |events| - from
  {
    if from < to {
      FindReturnPastImports(events, from + 1, to, func);
    }
  }

  lemma {:induction false} SkipToExportCall<S>(
    w: World<S>, events: seq<Event>, from: nat, to: nat, s: S, st: State, fuel: nat)
    requires from <= to <= |events|
    requires forall i | from <= i < to :: !events[i].ExportCall?
    ensures ReplayCalls(w, events, from, s, st, fuel) == ReplayCalls(w, events, to, s, st, fuel)
    decreases |events| - from
  {
    if from < to {
      SkipToExportCall(w, events, from + 1, to, s, st, fuel);
    }
  }

  lemma {:induction false} CallsShape(calls: seq<LiveCall>)
    requires calls != []
    ensures CallsEvents(calls)
         == [OnExportCall(calls[0].func, calls[0].args)]
            + (ImportEvents(calls[0].imports)
               + ([OnExportReturn(calls[0].func, calls[0].outcome)] + CallsEvents(calls[1..])))
  {
  }

  /** The layout of one recorded call: its call event, the imports inside it, its return, and the rest. */
  lemma {:induction false} FirstCallRecorded(events: seq<Event>, at: nat, calls: seq<LiveCall>)
    requires calls != [] && RecordedAt(events, at, CallsEvents(calls))
    ensures var c := calls[0];
            var n := 2 * |c.imports|;
            && at + n + 2 <= |events|
            && events[at] == ExportCall(c.func, EncodeAll(c.args))
            && RecordedAt(events, at + 1, ImportEvents(c.imports))
            && events[at + 1 + n] == ExportReturn(c.func, EncodeOutcome(c.outcome))
            && RecordedAt(events, at + n + 2, CallsEvents(calls[1..]))
            && (forall i | at + 1 <= i < at + 1 + n :: events[i].ImportCall? || events[i].ImportReturn?)
            && |CallsEvents(calls)| == n + 2 + |CallsEvents(calls[1..])|
  {
    hide CallsEvents, ImportEvents, EncodeOutcome;
    var c := calls[0];
    var inner, rest := ImportEvents(c.imports), CallsEvents(calls[1..]);
    var head, tail := [OnExportCall(c.func, c.args)], [OnExportReturn(c.func, c.outcome)];
    ImportEventsLength(c.imports);
    CallsShape(calls);
    RecordedAtSplit(events, at, head, inner + (tail + rest));
    RecordedAtSplit(events, at + 1, inner, tail + rest);
    RecordedAtSplit(events, at + 1 + |inner|, tail, rest);
    assert events[at + 0] == EncodeEvent(head[0]);
    assert events[at + 1 + |inner| + 0] == EncodeEvent(tail[0]);
    forall i | at + 1 <= i < at + 1 + |inner| ensures events[i].ImportCall? || events[i].ImportReturn? {
      assert events[at + 1 + (i - at - 1)] == EncodeEvent(inner[i - at - 1]);
    }
  }

  lemma {:induction false} FirstCallSpellable(calls: seq<LiveCall>)
    requires calls != [] && AllSpellable(CallsEvents(calls))
    ensures (forall v | v in calls[0].args :: !v.Handle?) && Representable(calls[0].outcome)
    ensures AllSpellable(ImportEvents(calls[0].imports)) && AllSpellable(CallsEvents(calls[1..]))
  {
    hide CallsEvents, ImportEvents;
    var c := calls[0];
    var inner, rest := ImportEvents(c.imports), CallsEvents(calls[1..]);
    var head, tail := [OnExportCall(c.func, c.args)], [OnExportReturn(c.func, c.outcome)];
    CallsShape(calls);
    AllSpellableSplit(head, inner + (tail + rest));
    AllSpellableSplit(inner, tail + rest);
    AllSpellableSplit(tail, rest);
    assert Spellable(head[0]) && Spellable(tail[0]);
    if c.outcome.Returned? && c.outcome.values != [] {
      assert c.outcome.values[0] in Spelled(tail[0]);
    }
  }

  lemma {:induction false} CallsServed(calls: seq<LiveCall>)
    requires calls != []
    ensures ServedOf(CallsEvents(calls))
         == 2 + ServedImports(calls[0].imports) + ServedOf(CallsEvents(calls[1..]))
  {
    var c := calls[0];
    var head, tail := OnExportCall(c.func, c.args), OnExportReturn(c.func, c.outcome);
    var inner, rest := ImportEvents(c.imports), CallsEvents(calls[1..]);
    CallsShape(calls);
    ServedOfConcat([head], inner + ([tail] + rest));
    ServedOfConcat(inner, [tail] + rest);
    ServedOfConcat([tail], rest);
    ServedOfOne(head);
    ServedOfOne(tail);
    ImportEventsLength(c.imports);
  }

  /** A recorded export result is judged to match. */
  lemma {:induction false} ReturnMatches<S>(w: World<S>, end: S, outcome: HostOutcome, st: State)
    requires EndsWith(w, end, outcome) && Representable(outcome)
    ensures CheckExportReturn(st, Rendered(w.next(end)), Some(EncodeOutcome(outcome)))
         == st.(matched := st.matched + 1)
  {
    match w.next(end) {
      case Return(values) =>
        if values != [] {
          assert values == [values[0]];
        }
        assert forall v | v in values :: !v.Handle?;
      case Fail(_) =>
    }
  }

  /** One recorded call, replayed: the guest ends where it ended, having matched the call and its imports. */
  lemma {:induction false} CallDriven<S>(
    w: World<S>, events: seq<Event>, s: S, c: LiveCall, end: S, at: nat, st: State, fuel: nat)
    requires Links(w) && Admitted(w, c) && (forall v | v in c.args :: !v.Handle?)
    requires LiveRun(w, w.enter(s, c.func, c.args), c.imports, end)
    requires GoodImports(w, c.imports) && AllSpellable(ImportEvents(c.imports))
    requires at < |events| && events[at] == ExportCall(c.func, EncodeAll(c.args))
    requires RecordedAt(events, at + 1, ImportEvents(c.imports)) && |c.imports| <= fuel
    ensures var made := ReplayCall(Again(w), events, at, s, st, fuel);
            && made.Some? && made.value.end == end && made.value.actual == Rendered(w.next(end))
            && made.value.st.divergences == st.divergences
            && made.value.st.matched == st.matched + ServedImports(c.imports) + 1
  {
    hide Drive, Rendered, RecordedAt, AllSpellable, ImportEvents, GoodImports, LiveRun, Links, Parsed, EncodeAll,
      ServedImports;
    ParsedEncoded(c.args);
    var begun := st.(position := at + 1, matched := st.matched + 1);
    DriveLive(w, events, w.enter(s, c.func, c.args), c.imports, end, at + 1, begun, fuel);
  }

  /** And its result is judged to match. */
  lemma {:induction false} CallLive<S>(
    w: World<S>, events: seq<Event>, s: S, calls: seq<LiveCall>, end: S, at: nat, st: State, fuel: nat)
    requires Links(w) && calls != [] && Admitted(w, calls[0])
    requires LiveRun(w, w.enter(s, calls[0].func, calls[0].args), calls[0].imports, end)
    requires EndsWith(w, end, calls[0].outcome) && GoodImports(w, calls[0].imports)
    requires AllSpellable(CallsEvents(calls))
    requires RecordedAt(events, at, CallsEvents(calls)) && |events| <= fuel
    ensures at < |events| && events[at].ExportCall? && events[at].func == calls[0].func
    ensures var made := ReplayCall(Again(w), events, at, s, st, fuel);
            && made.Some? && made.value.end == end
            && var judged := CheckExportReturn(
                               made.value.st, made.value.actual, FindReturn(events, at + 1, calls[0].func));
            && judged.divergences == st.divergences
            && judged.matched == st.matched + ServedImports(calls[0].imports) + 2
  {
    var c := calls[0];
    hide ReplayCall, CheckExportReturn, FindReturn, CallsEvents, RecordedAt, AllSpellable, ImportEvents, EncodeOutcome,
      Rendered, EndsWith, LiveRun, Links, GoodImports, ServedImports, EncodeAll, Representable, Admitted, Again;
    FirstCallRecorded(events, at, calls);
    FirstCallSpellable(calls);
    CallDriven(w, events, s, c, end, at, st, fuel);
    FindReturnPastImports(events, at + 1, at + 1 + 2 * |c.imports|, c.func);
    ReturnMatches(w, end, c.outcome, ReplayCall(Again(w), events, at, s, st, fuel).value.st);
  }

  lemma {:induction false} CallsLive<S(!new)>(
    w: World<S>, events: seq<Event>, s: S, calls: seq<LiveCall>, index: nat, at: nat, st: State, fuel: nat)
    requires Links(w) && LiveCalls(w, s, calls)
    requires forall k | 0 <= k < |calls| :: GoodImports(w, calls[k].imports)
    requires AllSpellable(CallsEvents(calls))
    requires RecordedAt(events, at, CallsEvents(calls)) && at + |CallsEvents(calls)| == |events| <= fuel
    requires index <= at && forall i | index <= i < at :: !events[i].ExportCall?
    ensures var r := ReplayCalls(Again(w), events, index, s, st, fuel);
            && r.Some?
            && r.value.0.divergences == st.divergences
            && r.value.0.matched == st.matched + ServedOf(CallsEvents(calls))
    decreases |calls|
  {
    hide CheckExportReturn, FindReturn, ReplayCall, RecordedAt, AllSpellable, CallsEvents, Admitted;
    SkipToExportCall(Again(w), events, index, at, s, st, fuel);
    if calls == [] {
      NoCallsNoEvents();
      assert EncodeEvents(CallsEvents(calls)) == [];
    } else {
      var c := calls[0];
      var end: S :| && LiveRun(w, w.enter(s, c.func, c.args), c.imports, end)
                    && EndsWith(w, end, c.outcome) && LiveCalls(w, end, calls[1..]);
      assert GoodImports(w, calls[0].imports);
      CallLive(w, events, s, calls, end, at, st, fuel);
      NextCalls(w, events, s, calls, end, at, st, fuel);
      CallsServed(calls);
    }
  }

  lemma {:induction false} NoCallsNoEvents()
    ensures CallsEvents([]) == []
  {
  }

  lemma {:induction false} NextCalls<S(!new)>(
    w: World<S>, events: seq<Event>, s: S, calls: seq<LiveCall>, end: S, at: nat, st: State, fuel: nat)
    requires Links(w) && calls != [] && LiveCalls(w, end, calls[1..])
    requires forall k | 0 <= k < |calls| :: GoodImports(w, calls[k].imports)
    requires AllSpellable(CallsEvents(calls))
    requires RecordedAt(events, at, CallsEvents(calls)) && at + |CallsEvents(calls)| == |events| <= fuel
    requires at < |events| && events[at].ExportCall? && events[at].func == calls[0].func
    requires ReplayCall(Again(w), events, at, s, st, fuel).Some?
    requires ReplayCall(Again(w), events, at, s, st, fuel).value.end == end
    ensures var made := ReplayCall(Again(w), events, at, s, st, fuel).value;
            var judged := CheckExportReturn(made.st, made.actual, FindReturn(events, at + 1, calls[0].func));
            var r := ReplayCalls(Again(w), events, at + 1, end, judged, fuel);
            && r.Some?
            && r.value.0.divergences == judged.divergences
            && r.value.0.matched == judged.matched + ServedOf(CallsEvents(calls[1..]))
    decreases |calls|, 0
  {
    var made := ReplayCall(Again(w), events, at, s, st, fuel).value;
    var judged := CheckExportReturn(made.st, made.actual, FindReturn(events, at + 1, calls[0].func));
    FirstCallRecorded(events, at, calls);
    FirstCallSpellable(calls);
    forall k | 0 <= k < |calls[1..]| ensures GoodImports(w, calls[1..][k].imports) {
      assert calls[1..][k] == calls[k + 1];
    }
    CallsLive(w, events, end, calls[1..], at + 1, at + 2 * |calls[0].imports| + 2, judged, fuel);
  }

  lemma {:induction false} ImportsEncode(event: HostEvent)
    requires event.OnImportCall? || event.OnImportReturn?
    ensures !EncodeEvent(event).ExportCall?
  {
  }

  lemma {:induction false} Encoded(a: seq<HostEvent>, b: seq<HostEvent>)
    ensures RecordedAt(EncodeEvents(a + b), 0, a) && RecordedAt(EncodeEvents(a + b), |a|, b)
  {
    hide EncodeEvent;
    assert RecordedAt(EncodeEvents(a + b), 0, a + b);
    RecordedAtSplit(EncodeEvents(a + b), 0, a, b);
  }

  lemma {:induction false} ImportsAreNoExports(events: seq<Event>, imports: seq<LiveImport>)
    requires RecordedAt(events, 0, ImportEvents(imports))
    ensures forall i | 0 <= i < |ImportEvents(imports)| :: !events[i].ExportCall?
  {
    hide ImportEvents, EncodeEvent;
    var boot := ImportEvents(imports);
    ImportEventsLength(imports);
    forall i | 0 <= i < |boot| ensures !events[i].ExportCall? {
      assert events[0 + i] == EncodeEvent(boot[i]);
      ImportsEncode(boot[i]);
    }
  }

  /** The session's recording, laid out: instantiation first, then the calls. */
  lemma {:induction false} SessionRecorded(session: Session)
    requires forall e | e in SessionEvents(session) :: Spellable(e)
    ensures var boot, rest := ImportEvents(session.boot), CallsEvents(session.calls);
            var events := EncodeEvents(SessionEvents(session));
            && |events| == |boot| + |rest| && |boot| == 2 * |session.boot|
            && RecordedAt(events, 0, boot) && RecordedAt(events, |boot|, rest)
            && AllSpellable(boot) && AllSpellable(rest)
            && (forall i | 0 <= i < |boot| :: !events[i].ExportCall?)
            && ServedCount(events) == ServedImports(session.boot) + ServedOf(rest)
  {
    hide ImportEvents, CallsEvents, Spellable, ServedImports, ServedCount, EncodeEvent, RecordedAt;
    var boot, rest := ImportEvents(session.boot), CallsEvents(session.calls);
    var all := SessionEvents(session);
    assert AllSpellable(boot + rest) by {
      forall i | 0 <= i < |all| ensures Spellable(all[i]) {
        assert all[i] in all;
      }
    }
    AllSpellableSplit(boot, rest);
    Encoded(boot, rest);
    ImportEventsLength(session.boot);
    ServedOfConcat(boot, rest);
    ImportsAreNoExports(EncodeEvents(all), session.boot);
  }

  /**
    Replay completeness. Record any session of any guest, with any answers the recording does not
    mislead about, from interfaces registered under the names imported; if the recorder hands back a
    trace, replaying it diverges nowhere and matches every event but the ones the host library serves.
    */
  lemma {:induction false} RecordingsReplay<S(!new)>(
    w: World<S>, session: Session, header: Header, sha256: string, fuel: nat)
    requires LiveSession(w, session) && GoodSession(w, session)
    requires forall e | e in SessionEvents(session) :: Spellable(e)
    requires header.plugin == w.name && (header.componentSha256 == "" || header.componentSha256 == sha256)
    requires |SessionEvents(session)| <= fuel
    ensures var trace := Trace(header, EncodeEvents(SessionEvents(session)));
            var run := ReplayTrace(w, trace, sha256, fuel);
            && run.Some? && run.value.Ok?
            && run.value.value.report.IsFaithful()
            && run.value.value.report.matched == ServedCount(trace.events)
  {
    var events := EncodeEvents(SessionEvents(session));
    SessionRecorded(session);
    var ready: S :| && LiveRun(w, w.boot, session.boot, ready)
                    && w.next(ready).Return? && LiveCalls(w, ready, session.calls);
    DriveLive(w, events, w.boot, session.boot, ready, 0, START, fuel);
    var d := Drive(Again(w), events, w.boot, START, fuel).value;
    CallsLive(w, events, ready, session.calls, 0, |ImportEvents(session.boot)|, d.st, fuel);
  }

  /** The whole path: record a session, replay the recording, and read the report. */
  method RecordThenReplay<S(!new)>(w: World<S>, session: Session, header: Header, sha256: string, fuel: nat)
    returns (recorded: bool, report: Option<State>)
    requires LiveSession(w, session) && GoodSession(w, session)
    requires header.plugin == w.name && (header.componentSha256 == "" || header.componentSha256 == sha256)
    requires |SessionEvents(session)| <= fuel
    ensures recorded <==> forall e | e in SessionEvents(session) :: Spellable(e)
    ensures recorded ==>
              && report.Some? && report.value.IsFaithful()
              && report.value.matched == ServedCount(EncodeEvents(SessionEvents(session)))
  {
    report := None;
    var recording := Record(header, session);
    recorded := recording.Ok?;
    if recorded {
      RecordingsReplay(w, session, header, sha256, fuel);
      var replayed := RunReplay(w, recording.value, sha256, fuel);
      report := Some(replayed.value.value);
    }
  }
}
