/**
  Interfaces registered under another version than the component imports.

  Linking takes a compatible version, and the recording then carries the name the application
  registered. Replay serves each import under the name the component imports, so such a recording
  never replays faithfully, whatever the guest: `FaithfulExactlyWhenServed`.
  */
module ReplayDrift {
  import opened Wrappers
  import opened TraceModel
  import opened Recording
  import opened Replay
  import opened ReplayTheorems
  import opened ReplaySoundness

  /** The application's interfaces served these imports under the names imported. */
  predicate Served(imports: seq<LiveImport>) {
    forall x | x in imports :: IsWasi(x.interface) || x.served == x.interface
  }

  predicate ServedSession(session: Session) {
    Served(session.boot) && forall call | call in session.calls :: Served(call.imports)
  }

  predicate NoneMislead<S>(w: World<S>, imports: seq<LiveImport>) {
    forall x | x in imports :: IsWasi(x.interface) || !Misleads(w, x)
  }

  predicate NoneMisleadAt<S>(w: World<S>, session: Session) {
    NoneMislead(w, session.boot) && forall call | call in session.calls :: NoneMislead(w, call.imports)
  }

  lemma {:induction false} ServedAreGood<S>(w: World<S>, imports: seq<LiveImport>)
    requires Served(imports) && NoneMislead(w, imports)
    ensures GoodImports(w, imports)
  {
    hide Misleads;
    forall i | 0 <= i < |imports| ensures GoodImport(w, imports[i]) {
      assert imports[i] in imports;
    }
  }

  lemma {:induction false} SessionIsGood<S>(w: World<S>, session: Session)
    requires ServedSession(session) && NoneMisleadAt(w, session)
    ensures GoodSession(w, session)
  {
    hide Served, NoneMislead, GoodImports;
    ServedAreGood(w, session.boot);
    forall k | 0 <= k < |session.calls| ensures GoodImports(w, session.calls[k].imports) {
      assert session.calls[k] in session.calls;
      ServedAreGood(w, session.calls[k].imports);
    }
  }

  /** The import that drifted is not the one recorded where the cursor stands. */
  lemma {:induction false} ExpectDrifted(events: seq<Event>, st: State, at: nat, x: LiveImport, args: seq<string>)
    requires at < |events| && events[at].ImportCall? && events[at].interface == x.served
    requires !IsWasi(x.served) && x.served != x.interface
    requires SkipFrom(events, st.position) == SkipFrom(events, at)
    ensures st.divergences < ExpectImport(events, st, x.interface, x.func, args).0.divergences
  {
    assert SkipFrom(events, at) == at;
  }

  /** From there on nothing takes a divergence back. */
  lemma {:induction false} DriveDriftsHere<S>(
    w: World<S>, events: seq<Event>, s: S, x: LiveImport, at: nat, st: State, fuel: nat)
    requires w.next(s) == Import(x.interface, x.func, x.args) && !IsWasi(x.interface)
    requires at < |events| && events[at].ImportCall? && events[at].interface == x.served
    requires !IsWasi(x.served) && x.served != x.interface
    requires SkipFrom(events, st.position) == SkipFrom(events, at)
    requires Drive(w, events, s, st, fuel).Some?
    ensures st.divergences < Drive(w, events, s, st, fuel).value.st.divergences
  {
    hide ExpectImport, MockOutcome, ReplyTo;
    ExpectDrifted(events, st, at, x, EncodeAll(x.args));
    var (st', answer) := ExpectImport(events, st, x.interface, x.func, EncodeAll(x.args));
    var outcome := MockOutcome(w, x.interface, x.func, answer);
    var y := LiveImport(x.interface, w.registered(x.interface), x.func, x.args, outcome);
    DriveExact(w, events, w.resume(s, ReplyTo(w, y)), st', fuel - 1);
  }

  /** A stretch of a live run with a drifted import, replayed over its own recording, diverges. */
  lemma {:induction false} DriveDrifts<S>(
    w: World<S>, events: seq<Event>, s: S, imports: seq<LiveImport>, end: S, at: nat, st: State, fuel: nat)
    requires Links(w) && LiveRun(w, s, imports, end)
    requires NoneMislead(w, imports) && !Served(imports) && AllSpellable(ImportEvents(imports))
    requires RecordedAt(events, at, ImportEvents(imports))
    requires SkipFrom(events, st.position) == SkipFrom(events, at)
    requires Drive(Again(w), events, s, st, fuel).Some?
    ensures st.divergences < Drive(Again(w), events, s, st, fuel).value.st.divergences
    decreases |imports|
  {
    hide ExpectImport, MockOutcome, LiveReply, EncodeOutcome, RecordedAt, AllSpellable, ImportEvents, Misleads;
    var x, rest := imports[0], imports[1..];
    assert x in imports && forall y | y in rest :: y in imports;
    FirstImportRecorded(events, at, imports);
    AllSpellableImports(imports);
    if IsWasi(x.interface) {
      assert SkipFrom(events, at) == SkipFrom(events, at + 2);
      assert !Served(rest);
      DriveDrifts(w, events, w.resume(s, ReplyTo(w, x)), rest, end, at + 2, st, fuel - 1);
    } else {
      if x.served == x.interface {
        var (st', answer) := ExpectImport(events, st, x.interface, x.func, EncodeAll(x.args));
        ExpectRecorded(events, st, at, x);
        SameReply(w, x);
        SameAgain(w, x);
        assert !Served(rest);
        DriveDrifts(w, events, w.resume(s, ReplyTo(w, x)), rest, end, at + 2, st', fuel - 1);
      } else {
        DriveDriftsHere(Again(w), events, s, x, at, st, fuel);
      }
    }
  }

  lemma {:induction false} CallDrifts<S>(
    w: World<S>, events: seq<Event>, s: S, calls: seq<LiveCall>, end: S, at: nat, st: State, fuel: nat)
    requires Links(w) && calls != [] && Admitted(w, calls[0])
    requires LiveRun(w, w.enter(s, calls[0].func, calls[0].args), calls[0].imports, end)
    requires NoneMislead(w, calls[0].imports) && !Served(calls[0].imports)
    requires AllSpellable(CallsEvents(calls)) && RecordedAt(events, at, CallsEvents(calls))
    ensures at < |events| && events[at].ExportCall?
    ensures var made := ReplayCall(Again(w), events, at, s, st, fuel);
            made.Some? ==> st.divergences < made.value.st.divergences
  {
    hide Drive, Rendered, RecordedAt, AllSpellable, CallsEvents, ImportEvents, LiveRun, Links, Parsed, EncodeAll,
      NoneMislead, Served;
    var c := calls[0];
    FirstCallRecorded(events, at, calls);
    FirstCallSpellable(calls);
    ParsedEncoded(c.args);
    var begun := st.(position := at + 1, matched := st.matched + 1);
    if ReplayCall(Again(w), events, at, s, st, fuel).Some? {
      DriveDrifts(w, events, w.enter(s, c.func, c.args), c.imports, end, at + 1, begun, fuel);
    }
  }

  /** A call with a drifted import: neither its judgement nor a later call takes the divergence back. */
  lemma {:induction false} CallsDriftHere<S>(
    w: World<S>, events: seq<Event>, s: S, calls: seq<LiveCall>, end: S, at: nat, st: State, fuel: nat)
    requires Links(w) && calls != [] && Admitted(w, calls[0])
    requires LiveRun(w, w.enter(s, calls[0].func, calls[0].args), calls[0].imports, end)
    requires NoneMislead(w, calls[0].imports) && !Served(calls[0].imports)
    requires AllSpellable(CallsEvents(calls)) && RecordedAt(events, at, CallsEvents(calls))
    requires ReplayCalls(Again(w), events, at, s, st, fuel).Some?
    ensures st.divergences < ReplayCalls(Again(w), events, at, s, st, fuel).value.0.divergences
  {
    hide ReplayCall, CheckExportReturn, FindReturn, RecordedAt, AllSpellable, CallsEvents, LiveRun, Links, NoneMislead,
      Served, Admitted, IsLog, AllFaithful, Matches;
    CallDrifts(w, events, s, calls, end, at, st, fuel);
    var made := ReplayCall(Again(w), events, at, s, st, fuel).value;
    var expected := FindReturn(events, at + 1, events[at].func);
    JudgementExact(made.st, made.actual, expected);
    CallsExact(Again(w), events, at + 1, made.end, CheckExportReturn(made.st, made.actual, expected), fuel);
  }

  lemma {:induction false} CallsDrift<S(!new)>(
    w: World<S>, events: seq<Event>, s: S, calls: seq<LiveCall>, index: nat, at: nat, st: State, fuel: nat)
    requires Links(w) && LiveCalls(w, s, calls)
    requires forall call | call in calls :: NoneMislead(w, call.imports)
    requires exists call | call in calls :: !Served(call.imports)
    requires AllSpellable(CallsEvents(calls))
    requires RecordedAt(events, at, CallsEvents(calls)) && |events| <= fuel
    requires index <= at && forall i | index <= i < at :: !events[i].ExportCall?
    requires ReplayCalls(Again(w), events, index, s, st, fuel).Some?
    ensures st.divergences < ReplayCalls(Again(w), events, index, s, st, fuel).value.0.divergences
    decreases |calls|
  {
    hide CheckExportReturn, FindReturn, ReplayCall, RecordedAt, AllSpellable, CallsEvents, Admitted, LiveRun, Links,
      NoneMislead, Served, EndsWith, ImportEvents;
    var c := calls[0];
    assert c in calls;
    FirstCallRecorded(events, at, calls);
    FirstCallSpellable(calls);
    SkipToExportCall(Again(w), events, index, at, s, st, fuel);
    var end: S :| && LiveRun(w, w.enter(s, c.func, c.args), c.imports, end)
                  && EndsWith(w, end, c.outcome) && LiveCalls(w, end, calls[1..]);
    if Served(c.imports) {
      ServedAreGood(w, c.imports);
      CallLive(w, events, s, calls, end, at, st, fuel);
      var made := ReplayCall(Again(w), events, at, s, st, fuel).value;
      var judged := CheckExportReturn(made.st, made.actual, FindReturn(events, at + 1, c.func));
      assert forall call | call in calls[1..] :: call in calls;
      CallsDrift(w, events, end, calls[1..], at + 1, at + 2 * |c.imports| + 2, judged, fuel);
    } else {
      CallsDriftHere(w, events, s, calls, end, at, st, fuel);
    }
  }

  lemma {:induction false} DriftDiverges<S(!new)>(
    w: World<S>, session: Session, header: Header, sha256: string, fuel: nat)
    requires LiveSession(w, session) && NoneMisleadAt(w, session) && !ServedSession(session)
    requires forall e | e in SessionEvents(session) :: Spellable(e)
    requires header.plugin == w.name && |SessionEvents(session)| <= fuel
    ensures var run := ReplayTrace(w, Trace(header, EncodeEvents(SessionEvents(session))), sha256, fuel);
            run.Some? && run.value.Ok? ==> !run.value.value.report.IsFaithful()
  {
    hide Spellable, SessionEvents, EncodeEvents, ImportEvents, CallsEvents, RecordedAt, AllSpellable, NoneMislead,
      Served, Drive, ReplayCalls, Links, LiveRun, LiveCalls, ServedCount, ServedImports, ServedOf;
    var events := EncodeEvents(SessionEvents(session));
    SessionRecorded(session);
    var run := ReplayTrace(w, Trace(header, events), sha256, fuel);
    if run.Some? && run.value.Ok? {
      var ready: S :| && LiveRun(w, w.boot, session.boot, ready)
                      && w.next(ready).Return? && LiveCalls(w, ready, session.calls);
      var d := Drive(Again(w), events, w.boot, START, fuel).value;
      if Served(session.boot) {
        ServedAreGood(w, session.boot);
        DriveLive(w, events, w.boot, session.boot, ready, 0, START, fuel);
        CallsDrift(w, events, ready, session.calls, 0, |ImportEvents(session.boot)|, d.st, fuel);
      } else {
        DriveDrifts(w, events, w.boot, session.boot, ready, 0, START, fuel);
        CallsExact(Again(w), events, 0, d.end, d.st, fuel);
      }
    }
  }

  /**
    Of all the sessions no answer of which misleads, exactly those replay faithfully in which every
    application import was served under the name the component imports. This holds for every guest.
    */
  lemma {:induction false} FaithfulExactlyWhenServed<S(!new)>(
    w: World<S>, session: Session, header: Header, sha256: string, fuel: nat)
    requires LiveSession(w, session) && NoneMisleadAt(w, session)
    requires forall e | e in SessionEvents(session) :: Spellable(e)
    requires header.plugin == w.name && (header.componentSha256 == "" || header.componentSha256 == sha256)
    requires |SessionEvents(session)| <= fuel
    ensures var run := ReplayTrace(w, Trace(header, EncodeEvents(SessionEvents(session))), sha256, fuel);
            (run.Some? && run.value.Ok? && run.value.value.report.IsFaithful()) <==> ServedSession(session)
  {
    hide LiveSession, NoneMisleadAt, SessionEvents, Spellable, EncodeEvents, ReplayTrace, GoodSession, ServedSession,
      ServedCount;
    if ServedSession(session) {
      SessionIsGood(w, session);
      RecordingsReplay(w, session, header, sha256, fuel);
    } else {
      DriftDiverges(w, session, header, sha256, fuel);
    }
  }
}
