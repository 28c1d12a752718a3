/**
  What a faithful replay means, for every trace and every guest.

  A report without divergences says exactly this: in instantiation and in each export call, the
  guest's application imports were a prefix of the ones recorded straight after it, each was answered
  from its own record, and each export result agrees with the recorded one. Nothing in that compares
  lengths; for a well-bracketed trace it is the matched count that does.
  */
module ReplaySoundness {
  import opened Wrappers
  import opened TraceModel
  import opened Recording
  import opened Replay
  import opened ReplayTheorems

  /** The application crossings recorded from `at` on, up to the first thing that is not one. */
  function RecordedFrom(events: seq<Event>, at: nat): seq<Answered>
    decreases |events| - at
  {
    var to := SkipFrom(events, at);
    if to < |events| && events[to].ImportCall? && IsAnswer(events, to + 1) then
      [Answered(events[to].interface, events[to].func, events[to].args, Some(events[to + 1].outcome))]
      + RecordedFrom(events, to + 2)
    else
      []
  }

  /** The path is a run's imports, and `trail` the application's among them with their recorded answers. */
  predicate AnsweredAlong<S>(w: World<S>, path: seq<LiveImport>, trail: seq<Answered>)
    decreases |path|
  {
    if path == [] then trail == []
    else if IsWasi(path[0].interface) then AnsweredAlong(w, path[1..], trail)
    else
      && trail != []
      && trail[0].interface == path[0].interface
      && trail[0].func == path[0].func
      && trail[0].args == EncodeAll(path[0].args)
      && path[0].outcome == MockOutcome(w, path[0].interface, path[0].func, trail[0].answer)
      && AnsweredAlong(w, path[1..], trail[1..])
  }

  /** Replaying is running: the mock host is just another application. */
  lemma {:induction false} DriveIsLive<S>(w: World<S>, events: seq<Event>, s: S, st: State, fuel: nat)
    requires Drive(w, events, s, st, fuel).Some?
    ensures var d := Drive(w, events, s, st, fuel).value;
            LiveRun(w, s, d.path, d.end) && AnsweredAlong(w, d.path, d.trail)
    decreases fuel
  {
    if w.next(s).Import? {
      var Import(interface, func, args) := w.next(s);
      var d := Drive(w, events, s, st, fuel).value;
      var x := d.path[0];
      if IsWasi(interface) {
        DriveIsLive(w, events, w.resume(s, ReplyTo(w, x)), st, fuel - 1);
        assert d.path[1..] == Drive(w, events, w.resume(s, ReplyTo(w, x)), st, fuel - 1).value.path;
      } else {
        var (st', answer) := ExpectImport(events, st, interface, func, EncodeAll(args));
        DriveIsLive(w, events, w.resume(s, ReplyTo(w, x)), st', fuel - 1);
        var rest := Drive(w, events, w.resume(s, ReplyTo(w, x)), st', fuel - 1).value;
        assert d.path[1..] == rest.path && d.trail[1..] == rest.trail;
      }
    }
  }

  /** One import: no divergence exactly when it is the next one recorded. */
  lemma {:induction false} ExpectExact(
    events: seq<Event>, st: State, interface: string, func: string, args: seq<string>)
    ensures var (st', answer) := ExpectImport(events, st, interface, func, args);
            var recorded := RecordedFrom(events, st.position);
            && st.divergences <= st'.divergences
            && (st'.divergences == st.divergences <==> answer.Some?)
            && (answer.Some? ==>
                  && recorded != [] && recorded[0] == Answered(interface, func, args, answer)
                  && recorded[1..] == RecordedFrom(events, st'.position)
                  && st'.matched == st.matched + 2)
            && (recorded != [] && recorded[0] == Answered(interface, func, args, answer) ==> answer.Some?)
  {
    var recorded := RecordedFrom(events, st.position);
    var to := SkipFrom(events, st.position);
    if recorded != [] {
      assert recorded[1..] == RecordedFrom(events, to + 2);
    }
  }

  /** A stretch of replay adds no divergence exactly when what it asked for is a prefix of the record. */
  lemma {:induction false} DriveExact<S>(w: World<S>, events: seq<Event>, s: S, st: State, fuel: nat)
    requires Drive(w, events, s, st, fuel).Some?
    ensures var d := Drive(w, events, s, st, fuel).value;
            && st.divergences <= d.st.divergences
            && (d.st.divergences == st.divergences <==> d.trail <= RecordedFrom(events, st.position))
            && (d.st.divergences == st.divergences ==> d.st.matched == st.matched + 2 * |d.trail|)
    decreases fuel
  {
    hide ExpectImport, RecordedFrom, MockOutcome, LiveReply, LibraryReply;
    if w.next(s).Import? {
      var Import(interface, func, args) := w.next(s);
      var d := Drive(w, events, s, st, fuel).value;
      var x := d.path[0];
      if IsWasi(interface) {
        DriveExact(w, events, w.resume(s, ReplyTo(w, x)), st, fuel - 1);
      } else {
        var (st', answer) := ExpectImport(events, st, interface, func, EncodeAll(args));
        ExpectExact(events, st, interface, func, EncodeAll(args));
        DriveExact(w, events, w.resume(s, ReplyTo(w, x)), st', fuel - 1);
        var rest := Drive(w, events, w.resume(s, ReplyTo(w, x)), st', fuel - 1).value;
        PrefixCons(d.trail[0], rest.trail, RecordedFrom(events, st.position));
      }
    }
  }

  lemma {:induction false} PrefixCons<T>(head: T, tail: seq<T>, whole: seq<T>)
    ensures [head] + tail <= whole <==> whole != [] && head == whole[0] && tail <= whole[1..]
  {
    if whole != [] {
      assert whole == [whole[0]] + whole[1..];
      if head == whole[0] && tail <= whole[1..] {
        assert forall i | 0 <= i < |[head] + tail| :: ([head] + tail)[i] == whole[i];
      }
      if [head] + tail <= whole {
        assert forall i | 0 <= i < |tail| :: tail[i] == ([head] + tail)[i + 1] == whole[1..][i];
      }
    }
  }

  /** The judgement of one export result. */
  predicate Agrees(actual: Actual, expected: Option<Outcome>) {
    match expected
    case None => false
    case Some(Value(recorded)) => actual.Succeeded? && First(actual.values) == recorded
    case Some(Error(status, _)) => actual.Broke? && actual.status == status
  }

  /** The log lists every recorded export call, in order, judged against the return found for it. */
  predicate IsLog(events: seq<Event>, from: nat, calls: seq<Replayed>)
    decreases |events| - from
  {
    if |events| <= from then calls == []
    else if !events[from].ExportCall? then IsLog(events, from + 1, calls)
    else
      && calls != []
      && calls[0].index == from
      && calls[0].expected == FindReturn(events, from + 1, events[from].func)
      && IsLog(events, from + 1, calls[1..])
  }

  predicate FaithfulCall(events: seq<Event>, call: Replayed) {
    && call.trail <= RecordedFrom(events, call.index + 1)
    && Agrees(call.actual, call.expected)
  }

  predicate AllFaithful(events: seq<Event>, calls: seq<Replayed>) {
    calls == [] || (FaithfulCall(events, calls[0]) && AllFaithful(events, calls[1..]))
  }

  /** Matches a faithful log accounts for: the call, its return, and two for each import. */
  function Matches(calls: seq<Replayed>): nat {
    if calls == [] then 0 else 2 + 2 * |calls[0].trail| + Matches(calls[1..])
  }

  lemma JudgementExact(st: State, actual: Actual, expected: Option<Outcome>)
    ensures var judged := CheckExportReturn(st, actual, expected);
            && st.divergences <= judged.divergences
            && (judged.divergences == st.divergences <==> Agrees(actual, expected))
            && (Agrees(actual, expected) ==> judged.matched == st.matched + 1)
  {
  }

  /** One replayed call adds no divergence exactly when it is faithful. */
  lemma {:induction false} CallExact<S>(w: World<S>, events: seq<Event>, index: nat, s: S, st: State, fuel: nat)
    requires index < |events| && events[index].ExportCall?
    requires ReplayCall(w, events, index, s, st, fuel).Some?
    ensures var made := ReplayCall(w, events, index, s, st, fuel).value;
            var expected := FindReturn(events, index + 1, events[index].func);
            var judged := CheckExportReturn(made.st, made.actual, expected);
            var call := Replayed(index, made.trail, made.actual, expected);
            && st.divergences <= judged.divergences
            && (judged.divergences == st.divergences <==> FaithfulCall(events, call))
            && (FaithfulCall(events, call) ==> judged.matched == st.matched + 2 + 2 * |made.trail|)
  {
    hide Drive, CheckExportReturn, FindReturn, Rendered, RecordedFrom, Agrees;
    var made := ReplayCall(w, events, index, s, st, fuel).value;
    var begun := st.(position := index + 1, matched := st.matched + 1);
    if w.refusal(events[index].func, events[index].args).None? {
      DriveExact(w, events, w.enter(s, events[index].func, Parsed(events[index].args)), begun, fuel);
    }
    JudgementExact(made.st, made.actual, FindReturn(events, index + 1, events[index].func));
  }

  lemma {:induction false} CallsExact<S>(
    w: World<S>, events: seq<Event>, index: nat, s: S, st: State, fuel: nat)
    requires ReplayCalls(w, events, index, s, st, fuel).Some?
    ensures var (final, calls) := ReplayCalls(w, events, index, s, st, fuel).value;
            && st.divergences <= final.divergences
            && IsLog(events, index, calls)
            && (final.divergences == st.divergences <==> AllFaithful(events, calls))
            && (final.divergences == st.divergences ==> final.matched == st.matched + Matches(calls))
    decreases |events| - index
  {
    hide CheckExportReturn, FindReturn, ReplayCall, FaithfulCall;
    if |events| <= index {
    } else if !events[index].ExportCall? {
      CallsExact(w, events, index + 1, s, st, fuel);
    } else {
      CallExact(w, events, index, s, st, fuel);
      var made := ReplayCall(w, events, index, s, st, fuel).value;
      var expected := FindReturn(events, index + 1, events[index].func);
      var judged := CheckExportReturn(made.st, made.actual, expected);
      CallsExact(w, events, index + 1, made.end, judged, fuel);
      var (final, rest) := ReplayCalls(w, events, index + 1, made.end, judged, fuel).value;
      var first := Replayed(index, made.trail, made.actual, expected);
      var calls := [first] + rest;
      assert ReplayCalls(w, events, index, s, st, fuel).value == (final, calls);
      assert calls[0] == first && calls[1..] == rest;
    }
  }

  /** The call in the log is one the guest, entered in `s`, really made against the recorded answers. */
  ghost predicate RanAs<S>(w: World<S>, events: seq<Event>, s: S, call: Replayed, path: seq<LiveImport>, end: S) {
    && call.index < |events|
    && events[call.index].ExportCall?
    && var ExportCall(func, args) := events[call.index];
    match w.refusal(func, args)
    case Some(status) => path == [] && call.trail == [] && end == s && call.actual == Broke(status)
    case None =>
      && LiveRun(w, w.enter(s, func, Parsed(args)), path, end)
      && AnsweredAlong(w, path, call.trail)
      && call.actual == Rendered(w.next(end))
  }

  /** The whole log is a run of the guest: each call starts where the one before it came to rest. */
  ghost predicate RanThrough<S(!new)>(w: World<S>, events: seq<Event>, s: S, calls: seq<Replayed>)
    decreases |calls|
  {
    calls != [] ==>
      exists path: seq<LiveImport>, end: S ::
        RanAs(w, events, s, calls[0], path, end) && RanThrough(w, events, end, calls[1..])
  }

  lemma {:induction false} CallIsLive<S>(w: World<S>, events: seq<Event>, index: nat, s: S, st: State, fuel: nat)
    returns (path: seq<LiveImport>)
    requires index < |events| && events[index].ExportCall?
    requires ReplayCall(w, events, index, s, st, fuel).Some?
    ensures var made := ReplayCall(w, events, index, s, st, fuel).value;
            forall expected ::
              RanAs(w, events, s, Replayed(index, made.trail, made.actual, expected), path, made.end)
  {
    hide Drive, LiveRun, AnsweredAlong, Rendered;
    var ExportCall(func, args) := events[index];
    path := [];
    if w.refusal(func, args).None? {
      var begun := st.(position := index + 1, matched := st.matched + 1);
      DriveIsLive(w, events, w.enter(s, func, Parsed(args)), begun, fuel);
      path := Drive(w, events, w.enter(s, func, Parsed(args)), begun, fuel).value.path;
    }
  }

  lemma {:induction false} CallsAreLive<S(!new)>(
    w: World<S>, events: seq<Event>, index: nat, s: S, st: State, fuel: nat)
    requires ReplayCalls(w, events, index, s, st, fuel).Some?
    ensures RanThrough(w, events, s, ReplayCalls(w, events, index, s, st, fuel).value.1)
    decreases |events| - index
  {
    hide CheckExportReturn, FindReturn, ReplayCall, RanAs;
    if |events| <= index {
    } else if !events[index].ExportCall? {
      CallsAreLive(w, events, index + 1, s, st, fuel);
    } else {
      var path := CallIsLive(w, events, index, s, st, fuel);
      var made := ReplayCall(w, events, index, s, st, fuel).value;
      var expected := FindReturn(events, index + 1, events[index].func);
      var judged := CheckExportReturn(made.st, made.actual, expected);
      CallsAreLive(w, events, index + 1, made.end, judged, fuel);
      var (final, rest) := ReplayCalls(w, events, index + 1, made.end, judged, fuel).value;
      var first := Replayed(index, made.trail, made.actual, expected);
      var calls := [first] + rest;
      assert ReplayCalls(w, events, index, s, st, fuel).value == (final, calls);
      assert calls[0] == first && calls[1..] == rest;
      assert RanAs(w, events, s, calls[0], path, made.end);
    }
  }

  /** A trace that names another component is refused, whatever it holds; nothing else is refused so. */
  lemma {:induction false} OnlyItsOwnComponent<S>(w: World<S>, trace: Trace, sha256: string, fuel: nat)
    ensures trace.header.componentSha256 !in {"", sha256} <==>
            ReplayTrace(w, trace, sha256, fuel) == Some(Err(WrongComponent))
    ensures ReplayTrace(w, trace, sha256, fuel).None? ==> trace.header.componentSha256 in {"", sha256}
  {
  }

  /**
    Replay soundness, both ways, for every trace, well-formed or edited by hand: the report is
    faithful if and only if every stretch of imports is a prefix of the recorded ones and every
    export result agrees. The guest really ran that way against the recorded answers, from
    instantiation through every call.
    */
  lemma {:induction false} FaithfulMeans<S(!new)>(w: World<S>, trace: Trace, sha256: string, fuel: nat)
    requires var r := ReplayTrace(w, trace, sha256, fuel); r.Some? && r.value.Ok?
    ensures var run := ReplayTrace(w, trace, sha256, fuel).value.value;
            && trace.header.componentSha256 in {"", sha256}
            && IsLog(trace.events, 0, run.calls)
            && (run.report.IsFaithful() <==>
                  run.boot <= RecordedFrom(trace.events, 0) && AllFaithful(trace.events, run.calls))
            && (run.report.IsFaithful() ==> run.report.matched == 2 * |run.boot| + Matches(run.calls))
    ensures var run, again := ReplayTrace(w, trace, sha256, fuel).value.value, Reloaded(w, trace.header.plugin);
            exists path: seq<LiveImport>, ready: S ::
              && LiveRun(again, w.boot, path, ready) && w.next(ready).Return?
              && AnsweredAlong(again, path, run.boot)
              && RanThrough(again, trace.events, ready, run.calls)
  {
    hide Drive, ReplayCalls, IsLog, AllFaithful, RanThrough, LiveRun, AnsweredAlong, Matches, RecordedFrom;
    var again := Reloaded(w, trace.header.plugin);
    DriveExact(again, trace.events, w.boot, START, fuel);
    DriveIsLive(again, trace.events, w.boot, START, fuel);
    var d := Drive(again, trace.events, w.boot, START, fuel).value;
    CallsExact(again, trace.events, 0, d.end, d.st, fuel);
    CallsAreLive(again, trace.events, 0, d.end, d.st, fuel);
    var run := ReplayTrace(w, trace, sha256, fuel).value.value;
    assert run.boot == d.trail;
    assert LiveRun(again, w.boot, d.path, d.end) && AnsweredAlong(again, d.path, run.boot);
  }

  // ---------------------------------------------------------------------------------------------
  // Well-bracketed traces
  // ---------------------------------------------------------------------------------------------

  /** The end of the run of import crossings that starts at `at`. */
  function PairsEnd(events: seq<Event>, at: nat): (end: nat)
    ensures at <= end
    decreases |events| - at
  {
    if at < |events| && events[at].ImportCall? && IsAnswer(events, at + 1)
       && events[at + 1].interface == events[at].interface
    then PairsEnd(events, at + 2)
    else at
  }

  /** From `at` on: export calls, each with its crossings and then its own return. */
  predicate CallsBracketed(events: seq<Event>, at: nat)
    decreases |events| - at
  {
    at == |events|
    || (&& at < |events| && events[at].ExportCall?
        && var end := PairsEnd(events, at + 1);
        && end < |events| && events[end].ExportReturn? && events[end].func == events[at].func
        && CallsBracketed(events, end + 1))
  }

  predicate WellBracketed(events: seq<Event>) {
    CallsBracketed(events, PairsEnd(events, 0))
  }

  /** What a log would account for had every call made all of its recorded imports. */
  function FullMatches(events: seq<Event>, calls: seq<Replayed>): nat {
    if calls == [] then 0
    else 2 + 2 * |RecordedFrom(events, calls[0].index + 1)| + FullMatches(events, calls[1..])
  }

  lemma {:induction false} PairServed(events: seq<Event>, at: nat)
    requires at + 2 <= |events| && events[at].ImportCall? && events[at + 1].ImportReturn?
    requires events[at + 1].interface == events[at].interface
    ensures var n := if IsWasi(events[at].interface) then 0 else 1;
            && ServedCount(events[at..]) == 2 * n + ServedCount(events[at + 2..])
            && |RecordedFrom(events, at)| == n + |RecordedFrom(events, at + 2)|
  {
    hide ServedCount, RecordedFrom, IsWasi;
    ServedHead(events, at);
    ServedHead(events, at + 1);
    PairRecorded(events, at);
  }

  lemma {:induction false} PairRecorded(events: seq<Event>, at: nat)
    requires at + 2 <= |events| && events[at].ImportCall? && events[at + 1].ImportReturn?
    ensures |RecordedFrom(events, at)|
         == (if IsWasi(events[at].interface) then 0 else 1) + |RecordedFrom(events, at + 2)|
  {
    hide IsWasi;
    if IsWasi(events[at].interface) {
      assert SkipFrom(events, at) == SkipFrom(events, at + 2);
    } else {
      assert SkipFrom(events, at) == at;
    }
  }

  lemma {:induction false} NothingRecorded(events: seq<Event>, at: nat)
    requires at < |events| ==> !events[at].ImportCall?
    ensures RecordedFrom(events, at) == []
  {
    assert SkipFrom(events, at) == at;
  }

  lemma {:induction false} PairsServed(events: seq<Event>, at: nat)
    requires at <= |events|
    requires var end := PairsEnd(events, at); end == |events| || (end < |events| && !events[end].ImportCall?)
    ensures PairsEnd(events, at) <= |events|
    ensures ServedCount(events[at..]) == 2 * |RecordedFrom(events, at)| + ServedCount(events[PairsEnd(events, at)..])
    ensures forall i | at <= i < PairsEnd(events, at) :: !events[i].ExportCall?
    decreases |events| - at
  {
    hide ServedCount, RecordedFrom;
    if PairsEnd(events, at) != at {
      PairServed(events, at);
      PairsServed(events, at + 2);
    } else {
      NothingRecorded(events, at);
    }
  }

  lemma {:induction false} LogPastPairs(events: seq<Event>, from: nat, to: nat, calls: seq<Replayed>)
    requires from <= to <= |events|
    requires forall i | from <= i < to :: !events[i].ExportCall?
    requires IsLog(events, from, calls)
    ensures IsLog(events, to, calls)
    decreases |events| - from
  {
    if from < to {
      LogPastPairs(events, from + 1, to, calls);
    }
  }

  lemma {:induction false} BracketedServed(events: seq<Event>, at: nat, calls: seq<Replayed>)
    requires CallsBracketed(events, at) && IsLog(events, at, calls)
    ensures at <= |events| && ServedCount(events[at..]) == FullMatches(events, calls)
    decreases |events| - at
  {
    hide ServedCount, RecordedFrom, PairsEnd;
    if at == |events| {
      assert events[at..] == [];
      NoneServed();
    } else {
      var end := PairsEnd(events, at + 1);
      PairsServed(events, at + 1);
      LogPastPairs(events, at + 1, end + 1, calls[1..]);
      BracketedServed(events, end + 1, calls[1..]);
      ServedHead(events, at);
      ServedHead(events, end);
    }
  }

  lemma {:induction false} NoneServed()
    ensures ServedCount([]) == 0
  {
  }

  lemma {:induction false} ServedHead(events: seq<Event>, at: nat)
    requires at < |events|
    ensures ServedCount(events[at..]) == (if IsServed(events[at]) then 1 else 0) + ServedCount(events[at + 1..])
  {
    assert events[at..][1..] == events[at + 1..];
  }

  /** The guest made every import recorded for the call. */
  predicate FullCall(events: seq<Event>, call: Replayed) {
    call.trail == RecordedFrom(events, call.index + 1)
  }

  predicate AllFull(events: seq<Event>, calls: seq<Replayed>) {
    calls == [] || (FullCall(events, calls[0]) && AllFull(events, calls[1..]))
  }

  lemma {:induction false} FullWhenEqual(events: seq<Event>, calls: seq<Replayed>)
    requires AllFaithful(events, calls)
    ensures Matches(calls) <= FullMatches(events, calls)
    ensures Matches(calls) == FullMatches(events, calls) <==> AllFull(events, calls)
  {
    if calls != [] {
      FullWhenEqual(events, calls[1..]);
      var first, record := calls[0].trail, RecordedFrom(events, calls[0].index + 1);
      assert first == record[..|first|];
    }
  }

  /**
    Exactness. On a well-bracketed trace a faithful replay matched every served event if and only if
    the guest made all of the recorded imports, in instantiation and in every call. Being faithful
    alone does not say so.
    */
  lemma {:induction false} FaithfulAndFull<S(!new)>(w: World<S>, trace: Trace, sha256: string, fuel: nat)
    requires var r := ReplayTrace(w, trace, sha256, fuel); r.Some? && r.value.Ok? && r.value.value.report.IsFaithful()
    requires WellBracketed(trace.events)
    ensures var run := ReplayTrace(w, trace, sha256, fuel).value.value;
            && run.report.matched <= ServedCount(trace.events)
            && (run.report.matched == ServedCount(trace.events) <==>
                  run.boot == RecordedFrom(trace.events, 0) && AllFull(trace.events, run.calls))
  {
    var run := ReplayTrace(w, trace, sha256, fuel).value.value;
    FaithfulMeans(w, trace, sha256, fuel);
    BracketedLog(trace.events, run.calls);
    FullWhenEqual(trace.events, run.calls);
    assert run.boot == RecordedFrom(trace.events, 0)[..|run.boot|];
  }

  lemma {:induction false} BracketedLog(events: seq<Event>, calls: seq<Replayed>)
    requires WellBracketed(events) && IsLog(events, 0, calls)
    ensures ServedCount(events) == 2 * |RecordedFrom(events, 0)| + FullMatches(events, calls)
  {
    var start := PairsEnd(events, 0);
    PairsServed(events, 0);
    assert events[0..] == events;
    LogPastPairs(events, 0, start, calls);
    BracketedServed(events, start, calls);
  }
}
