/** Recordings are well bracketed, so a recorded run replays in full; and faithful alone is not full. */
module ReplayExactness {
  import opened Wrappers
  import opened TraceModel
  import opened Recording
  import opened Replay
  import opened ReplayTheorems
  import opened ReplaySoundness

  lemma {:induction false} PairsRecorded(events: seq<Event>, at: nat, imports: seq<LiveImport>)
    requires RecordedAt(events, at, ImportEvents(imports))
    requires at + 2 * |imports| < |events| ==> !events[at + 2 * |imports|].ImportCall?
    ensures PairsEnd(events, at) == at + 2 * |imports|
    decreases |imports|
  {
    hide RecordedAt, ImportEvents;
    if imports != [] {
      FirstImportRecorded(events, at, imports);
      PairsRecorded(events, at + 2, imports[1..]);
    }
  }

  lemma {:induction false} CallsAreBracketed(events: seq<Event>, at: nat, calls: seq<LiveCall>)
    requires RecordedAt(events, at, CallsEvents(calls)) && at + |CallsEvents(calls)| == |events|
    ensures CallsBracketed(events, at)
    decreases |calls|
  {
    hide RecordedAt, CallsEvents, ImportEvents, PairsEnd;
    if calls == [] {
      NoCallsNoEvents();
    } else {
      FirstCallRecorded(events, at, calls);
      PairsRecorded(events, at + 1, calls[0].imports);
      CallsAreBracketed(events, at + 2 * |calls[0].imports| + 2, calls[1..]);
    }
  }

  /** What the recorder writes: instantiation's crossings, then calls, each around its own. */
  lemma {:induction false} RecordingsAreBracketed(session: Session)
    requires forall e | e in SessionEvents(session) :: Spellable(e)
    ensures WellBracketed(EncodeEvents(SessionEvents(session)))
  {
    hide SessionEvents, EncodeEvents, RecordedAt, CallsBracketed, PairsEnd, Spellable;
    var events := EncodeEvents(SessionEvents(session));
    var at := 2 * |session.boot|;
    SessionRecorded(session);
    CallsAreBracketed(events, at, session.calls);
    if at < |events| {
      assert session.calls != [] by {
        NoCallsNoEvents();
      }
      FirstCallRecorded(events, at, session.calls);
    }
    PairsRecorded(events, 0, session.boot);
  }

  /** A recorded run, replayed, makes every recorded import again, in instantiation and in each call. */
  lemma {:induction false} RecordingsReplayInFull<S(!new)>(
    w: World<S>, session: Session, header: Header, sha256: string, fuel: nat)
    requires LiveSession(w, session) && GoodSession(w, session)
    requires forall e | e in SessionEvents(session) :: Spellable(e)
    requires header.plugin == w.name && (header.componentSha256 == "" || header.componentSha256 == sha256)
    requires |SessionEvents(session)| <= fuel
    ensures var trace := Trace(header, EncodeEvents(SessionEvents(session)));
            var r := ReplayTrace(w, trace, sha256, fuel);
            && r.Some? && r.value.Ok?
            && r.value.value.boot == RecordedFrom(trace.events, 0)
            && IsLog(trace.events, 0, r.value.value.calls)
            && AllFaithful(trace.events, r.value.value.calls) && AllFull(trace.events, r.value.value.calls)
  {
    hide LiveSession, GoodSession, SessionEvents, EncodeEvents, ReplayTrace, WellBracketed, ServedCount, RecordedFrom,
      AllFull, AllFaithful, IsLog, Spellable;
    var trace := Trace(header, EncodeEvents(SessionEvents(session)));
    RecordingsReplay(w, session, header, sha256, fuel);
    RecordingsAreBracketed(session);
    FaithfulAndFull(w, trace, sha256, fuel);
    FaithfulMeans(w, trace, sha256, fuel);
  }

  /** A guest whose one export returns at once. */
  function IdleWorld(): World<int> {
    World(
      "p", 0, (s, _, _) => 1, s => Return([]), (s, _) => s, s => Returned([]), (_, _) => 0, (_, _, _) => true,
      (_, _) => None, i => i, (_, _, _) => "", (_, _, _) => "")
  }

  function BusyTrace(): seq<Event> {
    [ExportCall("run", []), ImportCall("app:log/sink", "emit", []),
     ImportReturn("app:log/sink", "emit", Value(None)), ExportReturn("run", Value(None))]
  }

  /** No divergence, and yet the recorded import was never made: only the count tells. */
  lemma {:induction false} FaithfulIsNotFull()
    ensures var r := ReplayTrace(IdleWorld(), Trace(Header("", "p", ""), BusyTrace()), "", 0);
            && WellBracketed(BusyTrace())
            && r.Some? && r.value.Ok? && r.value.value.report.IsFaithful()
            && r.value.value.report.matched == 2 < ServedCount(BusyTrace()) == 4
  {
    var w, events := IdleWorld(), BusyTrace();
    assert "wasi:"[0] != "app:log/sink"[0];
    assert FindReturn(events, 1, "run") == FindReturn(events, 2, "run") == FindReturn(events, 3, "run");
    var judged := State(1, 2, []);
    SkipToExportCall(w, events, 1, 4, 1, judged, 0);
    assert Drive(w, events, 1, State(1, 1, []), 0) == Some(Driven(1, State(1, 1, []), [], []));
    assert EncodeAll([]) == [];
    assert PairsEnd(events, 0) == 0 && PairsEnd(events, 1) == PairsEnd(events, 3) == 3;
    assert CallsBracketed(events, 4);
    BusyCount();
  }

  lemma {:induction false} BusyCount()
    ensures ServedCount(BusyTrace()) == 4
  {
    var events := BusyTrace();
    assert "wasi:"[0] != "app:log/sink"[0];
    assert events[1..][1..] == events[2..] && events[2..][1..] == events[3..] && events[3..][1..] == [];
    assert ServedCount(events[3..]) == 1;
    assert ServedCount(events[2..]) == 2;
    assert ServedCount(events[1..]) == 3;
  }
}
