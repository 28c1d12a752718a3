/** The profiler conserves time, and for nested windows measures what it says. */
module ProfileTheorems {
  import opened Wrappers
  import opened Profiles

  /** A transition and when it happened. */
  datatype Stamped = Stamped(hook: Hook, at: nat)

  /** One call: its window, the transitions inside it, and the WAVE conversion around it, if any. */
  datatype Call = Call(func: string, start: nat, hooks: seq<Stamped>, end: nat, wave: Option<nat>)

  predicate Clocked(hooks: seq<Stamped>, start: nat, end: nat)
    decreases |hooks|
  {
    if hooks == [] then start <= end
    else start <= hooks[0].at && Clocked(hooks[1..], hooks[0].at, end)
  }

  function RunHooks(p: Profile, hooks: seq<Stamped>): Profile
    decreases |hooks|
  {
    if hooks == [] then p else RunHooks(OnHook(p, hooks[0].hook, hooks[0].at), hooks[1..])
  }

  function AfterCall(p: Profile, call: Call): Profile
    requires Clocked(call.hooks, call.start, call.end)
  {
    ClockRuns(call.hooks, call.start, call.end);
    var done := FinishCall(RunHooks(p, call.hooks), call.func, call.end - call.start);
    match call.wave
    case None => done
    case Some(nanos) => AddWaveTo(done, call.func, nanos)
  }

  predicate ClockedCalls(calls: seq<Call>) {
    forall i | 0 <= i < |calls| :: Clocked(calls[i].hooks, calls[i].start, calls[i].end)
  }

  function AfterCalls(p: Profile, calls: seq<Call>): Profile
    requires ClockedCalls(calls)
    decreases |calls|
  {
    if calls == [] then p else AfterCalls(AfterCall(p, calls[0]), calls[1..])
  }

  lemma {:induction false} ClockRuns(hooks: seq<Stamped>, start: nat, end: nat)
    requires Clocked(hooks, start, end)
    ensures start <= end
    decreases |hooks|
  {
    if hooks != [] {
      ClockRuns(hooks[1..], hooks[0].at, end);
    }
  }

  // ---------------------------------------------------------------------------------------------
  // Conservation
  // ---------------------------------------------------------------------------------------------

  /** A window measures no more than the time since the call started. */
  predicate Within(depth: nat, since: Option<nat>, nanos: nat, start: nat, now: nat) {
    && start <= now
    && (since.Some? <==> 0 < depth)
    && (match since
        case None => nanos <= now - start
        case Some(s) => start <= s <= now && nanos <= s - start)
  }

  predicate WindowsWithin(w: Windows, start: nat, now: nat) {
    && Within(w.wasmDepth, w.wasmSince, w.wasmNanos, start, now)
    && Within(w.hostDepth, w.hostSince, w.hostNanos, start, now)
  }

  lemma {:induction false} HookWithin(p: Profile, hook: Hook, start: nat, now: nat, at: nat)
    requires WindowsWithin(p.win, start, now) && now <= at
    ensures WindowsWithin(OnHook(p, hook, at).win, start, at)
    ensures OnHook(p, hook, at).total == p.total && OnHook(p, hook, at).exports == p.exports
  {
    hide Row, Totals.Add;
  }

  lemma {:induction false} HooksWithin(p: Profile, hooks: seq<Stamped>, start: nat, now: nat, end: nat)
    requires WindowsWithin(p.win, start, now) && Clocked(hooks, now, end)
    ensures WindowsWithin(RunHooks(p, hooks).win, start, end)
    ensures RunHooks(p, hooks).total == p.total && RunHooks(p, hooks).exports == p.exports
    decreases |hooks|
  {
    hide OnHook;
    if hooks != [] {
      HookWithin(p, hooks[0].hook, start, now, hooks[0].at);
      HooksWithin(OnHook(p, hooks[0].hook, hooks[0].at), hooks[1..], start, hooks[0].at, end);
    }
  }

  /** A quiet profiler whose every row, and their total, adds up. */
  ghost predicate Balanced(p: Profile) {
    && p.win == CLOSED
    && p.total.Adds()
    && (forall k | k in p.exports :: p.exports[k].Adds())
    && RowsSum(p)
  }

  ghost predicate RowsSum(p: Profile) {
    && SumRows(p.exports, CALLS) == p.total.calls
    && SumRows(p.exports, WALL) == p.total.wall
    && SumRows(p.exports, GUEST) == p.total.guest
    && SumRows(p.exports, HOST) == p.total.host
    && SumRows(p.exports, WAVE) == p.total.wave
  }

  const CALLS := (t: Totals) => t.calls
  const WALL := (t: Totals) => t.wall
  const GUEST := (t: Totals) => t.guest
  const HOST := (t: Totals) => t.host
  const WAVE := (t: Totals) => t.wave

  // ---------------------------------------------------------------------------------------------
  // Sums of rows
  // ---------------------------------------------------------------------------------------------

  ghost function SumOf<K(!new)>(m: map<K, nat>): nat
    decreases |m|
  {
    if m == map[] then 0
    else
      var k :| k in m;
      m[k] + SumOf(m - {k})
  }

  lemma {:induction false} SumRemove<K(!new)>(m: map<K, nat>, k: K)
    requires k in m
    ensures SumOf(m) == m[k] + SumOf(m - {k})
    decreases |m|
  {
    var j :| j in m && SumOf(m) == m[j] + SumOf(m - {j});
    if j != k {
      SumRemove(m - {j}, k);
      SumRemove(m - {k}, j);
      assert m - {j} - {k} == m - {k} - {j};
    }
  }

  lemma {:induction false} SumPut<K(!new)>(m: map<K, nat>, k: K, v: nat)
    ensures SumOf(m[k := v]) == (if k in m then SumOf(m) - m[k] else SumOf(m)) + v
  {
    SumRemove(m[k := v], k);
    if k in m {
      SumRemove(m, k);
      assert m[k := v] - {k} == m - {k};
    } else {
      assert m[k := v] - {k} == m;
    }
  }

  function Column<K>(rows: map<K, Totals>, f: Totals -> nat): map<K, nat> {
    map k | k in rows :: f(rows[k])
  }

  ghost function SumRows<K(!new)>(rows: map<K, Totals>, f: Totals -> nat): nat {
    SumOf(Column(rows, f))
  }

  lemma {:induction false} RowsPut<K(!new)>(rows: map<K, Totals>, k: K, t: Totals, f: Totals -> nat)
    requires f(NONE) == 0
    ensures SumRows(rows[k := t], f) == SumRows(rows, f) - f(Row(rows, k)) + f(t)
  {
    assert Column(rows[k := t], f) == Column(rows, f)[k := f(t)];
    SumPut(Column(rows, f), k, f(t));
  }

  lemma {:induction false} ExportPut(p: Profile, func: string, t: Totals)
    ensures var rows := p.exports[func := t];
            var before := Row(p.exports, func);
            && SumRows(rows, CALLS) == SumRows(p.exports, CALLS) - before.calls + t.calls
            && SumRows(rows, WALL) == SumRows(p.exports, WALL) - before.wall + t.wall
            && SumRows(rows, GUEST) == SumRows(p.exports, GUEST) - before.guest + t.guest
            && SumRows(rows, HOST) == SumRows(p.exports, HOST) - before.host + t.host
            && SumRows(rows, WAVE) == SumRows(p.exports, WAVE) - before.wave + t.wave
  {
    RowsPut(p.exports, func, t, CALLS);
    RowsPut(p.exports, func, t, WALL);
    RowsPut(p.exports, func, t, GUEST);
    RowsPut(p.exports, func, t, HOST);
    RowsPut(p.exports, func, t, WAVE);
  }

  lemma {:induction false} FinishBalances(p: Profile, before: Profile, func: string, wall: nat)
    requires Balanced(before) && p.total == before.total && p.exports == before.exports
    requires p.win.wasmNanos <= wall && p.win.hostNanos <= wall
    ensures Balanced(FinishCall(p, func, wall)) && func in FinishCall(p, func, wall).exports
  {
    hide SumRows;
    var host := p.win.hostNanos;
    ExportPut(p, func, Row(p.exports, func).Add(wall, Less(p.win.wasmNanos, host), host));
  }

  lemma {:induction false} WaveBalances(p: Profile, func: string, nanos: nat)
    requires Balanced(p) && func in p.exports
    ensures Balanced(AddWaveTo(p, func, nanos))
  {
    hide SumRows;
    ExportPut(p, func, p.exports[func].AddWave(nanos));
  }

  lemma {:induction false} CallBalances(p: Profile, call: Call)
    requires Balanced(p) && Clocked(call.hooks, call.start, call.end)
    ensures Balanced(AfterCall(p, call))
  {
    hide Balanced;
    ClockRuns(call.hooks, call.start, call.end);
    QuietWithin(p, call.start);
    HooksWithin(p, call.hooks, call.start, call.start, call.end);
    var ran := RunHooks(p, call.hooks);
    FinishBalances(ran, p, call.func, call.end - call.start);
    if call.wave.Some? {
      WaveBalances(FinishCall(ran, call.func, call.end - call.start), call.func, call.wave.value);
    }
  }

  lemma {:induction false} QuietWithin(p: Profile, start: nat)
    requires Balanced(p)
    ensures WindowsWithin(p.win, start, start)
  {
  }

  /**
    After any number of calls, whatever hooks fired in them under a monotone clock: in the total, and in
    every export row, guest, host, WAVE and marshalling add up to wall exactly, and the total is the sum
    of the rows.
    */
  lemma {:induction false} CallsConserve(p: Profile, calls: seq<Call>)
    requires Balanced(p) && ClockedCalls(calls)
    ensures var q := AfterCalls(p, calls);
            && RowsSum(q)
            && q.total.guest + q.total.host + q.total.wave + q.total.Marshalling() == q.total.wall
            && forall k | k in q.exports ::
                 var t := q.exports[k]; t.guest + t.host + t.wave + t.Marshalling() == t.wall
    ensures Balanced(AfterCalls(p, calls))
    decreases |calls|
  {
    if calls != [] {
      CallBalances(p, calls[0]);
      CallsConserve(AfterCall(p, calls[0]), calls[1..]);
    }
  }

  // ---------------------------------------------------------------------------------------------
  // Import rows
  // ---------------------------------------------------------------------------------------------

  lemma {:induction false} HookImports(p: Profile, hook: Hook, now: nat)
    ensures var q := OnHook(p, hook, now);
            && p.win.hostNanos <= q.win.hostNanos
            && SumRows(p.imports, HOST) <= SumRows(q.imports, HOST)
            && SumRows(q.imports, HOST) - SumRows(p.imports, HOST) <= q.win.hostNanos - p.win.hostNanos
  {
    hide SumRows;
    var q := OnHook(p, hook, now);
    if q.imports != p.imports {
      var key := p.win.serving.value;
      RowsPut(p.imports, key, q.imports[key], HOST);
    }
  }

  lemma {:induction false} HooksImports(p: Profile, hooks: seq<Stamped>)
    ensures var q := RunHooks(p, hooks);
            && p.win.hostNanos <= q.win.hostNanos
            && SumRows(p.imports, HOST) <= SumRows(q.imports, HOST)
            && SumRows(q.imports, HOST) - SumRows(p.imports, HOST) <= q.win.hostNanos - p.win.hostNanos
            && q.total == p.total
    decreases |hooks|
  {
    hide SumRows;
    if hooks != [] {
      HookImports(p, hooks[0].hook, hooks[0].at);
      HooksImports(OnHook(p, hooks[0].hook, hooks[0].at), hooks[1..]);
    }
  }

  /** From the first call on, the import rows together never exceed the host bucket. */
  lemma {:induction false} ImportsWithinHost(p: Profile, calls: seq<Call>)
    requires p.win == CLOSED && ClockedCalls(calls)
    ensures var q := AfterCalls(p, calls);
            && p.total.host <= q.total.host
            && SumRows(p.imports, HOST) <= SumRows(q.imports, HOST)
            && SumRows(q.imports, HOST) - SumRows(p.imports, HOST) <= q.total.host - p.total.host
    decreases |calls|
  {
    hide SumRows;
    if calls != [] {
      HooksImports(p, calls[0].hooks);
      ImportsWithinHost(AfterCall(p, calls[0]), calls[1..]);
    }
  }

  // ---------------------------------------------------------------------------------------------
  // From the beginning
  // ---------------------------------------------------------------------------------------------

  const EMPTY := Profile(CLOSED, NONE, map[], map[])

  lemma {:induction false} EmptyBalances()
    ensures Balanced(EMPTY) && SumRows(EMPTY.imports, HOST) == 0
  {
    assert forall f: Totals -> nat :: Column<string>(map[], f) == map[];
  }

  /** A profile that has seen nothing, and then any calls: it adds up, and its import rows are within the host's. */
  lemma {:induction false} ProfileConserves(calls: seq<Call>)
    requires ClockedCalls(calls)
    ensures var q := AfterCalls(EMPTY, calls);
            && RowsSum(q)
            && q.total.guest + q.total.host + q.total.wave + q.total.Marshalling() == q.total.wall
            && (forall k | k in q.exports ::
                  var t := q.exports[k]; t.guest + t.host + t.wave + t.Marshalling() == t.wall)
            && SumRows(q.imports, HOST) <= q.total.host
  {
    EmptyBalances();
    CallsConserve(EMPTY, calls);
    ImportsWithinHost(EMPTY, calls);
  }

  // ---------------------------------------------------------------------------------------------
  // What the buckets mean
  // ---------------------------------------------------------------------------------------------

  datatype Frame = InWasm | InHost

  /** Windows close in the order they opened, and a call enters the guest first. */
  predicate Nested(hooks: seq<Stamped>, stack: seq<Frame>)
    decreases |hooks|
  {
    if hooks == [] then stack == []
    else
      && (match hooks[0].hook
          case CallingWasm => true
          case ReturningFromWasm => stack != [] && stack[|stack| - 1] == InWasm
          case CallingHost => stack != []
          case ReturningFromHost => stack != [] && stack[|stack| - 1] == InHost
          case Serving(_) => true)
      && Nested(hooks[1..], Inside(stack, hooks[0].hook))
  }

  /** The windows open after a transition, outermost first. */
  function Inside(stack: seq<Frame>, hook: Hook): seq<Frame> {
    match hook
    case CallingWasm => stack + [InWasm]
    case CallingHost => stack + [InHost]
    case Serving(_) => stack
    case _ => if stack == [] then [] else stack[..|stack| - 1]
  }

  datatype Spent = Spent(guest: nat, host: nat, idle: nat) {
    function Plus(other: Spent): Spent {
      Spent(guest + other.guest, host + other.host, idle + other.idle)
    }
  }

  /** Time is the host's while any host window is open, else the guest's, else nobody's. */
  function Segment(stack: seq<Frame>, n: nat): Spent {
    if InHost in stack then Spent(0, n, 0)
    else if stack != [] then Spent(n, 0, 0)
    else Spent(0, 0, n)
  }

  function TimeOf(hooks: seq<Stamped>, stack: seq<Frame>, now: nat, end: nat): Spent
    requires Clocked(hooks, now, end)
    decreases |hooks|
  {
    if hooks == [] then Segment(stack, end - now)
    else
      Segment(stack, hooks[0].at - now).Plus(TimeOf(hooks[1..], Inside(stack, hooks[0].hook), hooks[0].at, end))
  }

  function Count(stack: seq<Frame>, f: Frame): nat {
    multiset(stack)[f]
  }

  /** The windows agree with the stack. */
  predicate Matches(w: Windows, stack: seq<Frame>, now: nat) {
    && (stack != [] ==> stack[0] == InWasm)
    && w.wasmDepth == Count(stack, InWasm) && w.hostDepth == Count(stack, InHost)
    && (w.wasmSince.Some? <==> stack != []) && (w.hostSince.Some? <==> InHost in stack)
    && (w.wasmSince.Some? ==> w.wasmSince.value <= now) && (w.hostSince.Some? ==> w.hostSince.value <= now)
  }

  function Open(since: Option<nat>, now: nat): nat {
    match since
    case None => 0
    case Some(s) => Less(now, s)
  }

  /** Between two moments the windows have measured exactly the time spent. */
  predicate Accounts(w: Windows, now: nat, t: Spent, after: Windows, at: nat) {
    && after.wasmNanos + Open(after.wasmSince, at) == w.wasmNanos + Open(w.wasmSince, now) + t.guest + t.host
    && after.hostNanos + Open(after.hostSince, at) == w.hostNanos + Open(w.hostSince, now) + t.host
  }

  lemma {:induction false} Pushed(stack: seq<Frame>, f: Frame)
    ensures Count(stack + [f], f) == Count(stack, f) + 1
    ensures forall g: Frame | g != f :: Count(stack + [f], g) == Count(stack, g)
    ensures forall g: Frame :: g in stack + [f] <==> g in stack || g == f
    ensures forall g: Frame :: 0 < Count(stack, g) <==> g in stack
  {
  }

  lemma {:induction false} Popped(stack: seq<Frame>)
    requires stack != []
    ensures var rest, top := stack[..|stack| - 1], stack[|stack| - 1];
            && Count(stack, top) == Count(rest, top) + 1
            && (forall g: Frame | g != top :: Count(rest, g) == Count(stack, g))
            && (forall g: Frame :: 0 < Count(rest, g) <==> g in rest)
            && (rest != [] ==> rest[0] == stack[0] && stack[0] in rest)
  {
    var rest, top := stack[..|stack| - 1], stack[|stack| - 1];
    assert stack == rest + [top];
    Pushed(rest, top);
  }

  lemma {:induction false} EnterMatches(p: Profile, hook: Hook, stack: seq<Frame>, now: nat, at: nat)
    requires Matches(p.win, stack, now) && now <= at
    requires hook.CallingWasm? || hook.Serving? || (hook.CallingHost? && stack != [])
    ensures var q := OnHook(p, hook, at);
            && Matches(q.win, Inside(stack, hook), at)
            && Accounts(p.win, now, Segment(stack, at - now), q.win, at)
  {
    Pushed(stack, InWasm);
    Pushed(stack, InHost);
    hide Count;
  }

  lemma {:induction false} LeaveMatches(p: Profile, hook: Hook, stack: seq<Frame>, now: nat, at: nat)
    requires Matches(p.win, stack, now) && now <= at && stack != []
    requires hook == if stack[|stack| - 1] == InWasm then ReturningFromWasm else ReturningFromHost
    ensures var q := OnHook(p, hook, at);
            && Matches(q.win, Inside(stack, hook), at)
            && Accounts(p.win, now, Segment(stack, at - now), q.win, at)
  {
    Popped(stack);
    hide Count, Row, Totals.Add;
    assert stack[0] in stack && stack[|stack| - 1] in stack;
  }

  lemma {:induction false} HookMatches(p: Profile, hook: Hook, stack: seq<Frame>, now: nat, at: nat)
    requires Matches(p.win, stack, now) && now <= at
    requires hook.ReturningFromWasm? ==> stack != [] && stack[|stack| - 1] == InWasm
    requires hook.ReturningFromHost? ==> stack != [] && stack[|stack| - 1] == InHost
    requires hook.CallingHost? ==> stack != []
    ensures var q := OnHook(p, hook, at);
            && Matches(q.win, Inside(stack, hook), at)
            && Accounts(p.win, now, Segment(stack, at - now), q.win, at)
  {
    hide OnHook, Matches, Segment, Open, Inside;
    if hook.ReturningFromWasm? || hook.ReturningFromHost? {
      LeaveMatches(p, hook, stack, now, at);
    } else {
      EnterMatches(p, hook, stack, now, at);
    }
  }

  lemma {:induction false} WindowsMean(p: Profile, hooks: seq<Stamped>, stack: seq<Frame>, now: nat, end: nat)
    requires Clocked(hooks, now, end) && Nested(hooks, stack) && Matches(p.win, stack, now)
    ensures now <= end
    ensures var q := RunHooks(p, hooks).win;
            var t := TimeOf(hooks, stack, now, end);
            && q.wasmNanos == p.win.wasmNanos + Open(p.win.wasmSince, now) + t.guest + t.host
            && q.hostNanos == p.win.hostNanos + Open(p.win.hostSince, now) + t.host
            && t.guest + t.host + t.idle == end - now
    decreases |hooks|
  {
    hide OnHook;
    if hooks != [] {
      var hook, at := hooks[0].hook, hooks[0].at;
      HookMatches(p, hook, stack, now, at);
      WindowsMean(OnHook(p, hook, at), hooks[1..], Inside(stack, hook), at, end);
    }
  }

  // ---------------------------------------------------------------------------------------------
  // What the rows mean
  // ---------------------------------------------------------------------------------------------

  /** A host window that was open and is closed: the import named last inside it, if any, and how long it took. */
  datatype HostWindow = HostWindow(named: Option<Key>, nanos: nat)

  predicate Opens(stack: seq<Frame>, hook: Hook) {
    InHost !in stack && InHost in Inside(stack, hook)
  }

  predicate Closes(stack: seq<Frame>, hook: Hook) {
    InHost in stack && InHost !in Inside(stack, hook)
  }

  /** The import an open host window is for, after a transition: none yet when it has just opened. */
  function Label(stack: seq<Frame>, hook: Hook, named: Option<Key>): Option<Key> {
    if Opens(stack, hook) then None else if hook.Serving? then Some(hook.key) else named
  }

  /** The outermost host windows, in the order they close; one open at the start has been since `since`. */
  function HostWindows(hooks: seq<Stamped>, stack: seq<Frame>, since: nat, named: Option<Key>): seq<HostWindow>
    decreases |hooks|
  {
    if hooks == [] then []
    else
      var hook, at := hooks[0].hook, hooks[0].at;
      (if Closes(stack, hook) then [HostWindow(named, Less(at, since))] else [])
      + HostWindows(
          hooks[1..], Inside(stack, hook), if Opens(stack, hook) then at else since, Label(stack, hook, named))
  }

  /** The windows of an import: how many there are, and how long they took together. */
  function CountOf(windows: seq<HostWindow>, key: Key): nat {
    if windows == [] then 0
    else (if windows[0].named == Some(key) then 1 else 0) + CountOf(windows[1..], key)
  }

  function NanosOf(windows: seq<HostWindow>, key: Key): nat {
    if windows == [] then 0
    else (if windows[0].named == Some(key) then windows[0].nanos else 0) + NanosOf(windows[1..], key)
  }

  function AllNanos(windows: seq<HostWindow>): nat {
    if windows == [] then 0 else windows[0].nanos + AllNanos(windows[1..])
  }

  /** A row with so many more calls, and so much more time in the host. */
  function Charged(row: Totals, calls: nat, nanos: nat): Totals {
    row.(calls := row.calls + calls, wall := row.wall + nanos, host := row.host + nanos)
  }

  /** The open host window is the one begun at `since`, and named last what `named` says. */
  predicate Serves(w: Windows, stack: seq<Frame>, since: nat, named: Option<Key>) {
    InHost in stack ==> w.hostSince == Some(since) && w.serving == named
  }

  lemma {:induction false} EnterCharges(
    p: Profile, hook: Hook, stack: seq<Frame>, now: nat, at: nat, since: nat, named: Option<Key>)
    requires Matches(p.win, stack, now) && now <= at && Serves(p.win, stack, since, named)
    requires hook.CallingWasm? || hook.Serving? || (hook.CallingHost? && stack != [])
    ensures var q := OnHook(p, hook, at);
            && Serves(q.win, Inside(stack, hook), if Opens(stack, hook) then at else since, Label(stack, hook, named))
            && q.imports == p.imports && !Closes(stack, hook)
  {
    Pushed(stack, InWasm);
    Pushed(stack, InHost);
    hide Count;
  }

  lemma {:induction false} LeaveCharges(
    p: Profile, hook: Hook, stack: seq<Frame>, now: nat, at: nat, since: nat, named: Option<Key>, key: Key)
    requires Matches(p.win, stack, now) && now <= at && Serves(p.win, stack, since, named) && stack != []
    requires hook == if stack[|stack| - 1] == InWasm then ReturningFromWasm else ReturningFromHost
    ensures var q := OnHook(p, hook, at);
            && Serves(q.win, Inside(stack, hook), since, Label(stack, hook, named)) && !Opens(stack, hook)
            && Row(q.imports, key)
               == if Closes(stack, hook) && named == Some(key) then Charged(Row(p.imports, key), 1, Less(at, since))
                  else Row(p.imports, key)
  {
    Popped(stack);
    hide Count;
    assert stack[|stack| - 1] in stack;
  }

  lemma {:induction false} HookCharges(
    p: Profile, hook: Hook, stack: seq<Frame>, now: nat, at: nat, since: nat, named: Option<Key>, key: Key)
    requires Matches(p.win, stack, now) && now <= at && Serves(p.win, stack, since, named)
    requires hook.ReturningFromWasm? ==> stack != [] && stack[|stack| - 1] == InWasm
    requires hook.ReturningFromHost? ==> stack != [] && stack[|stack| - 1] == InHost
    requires hook.CallingHost? ==> stack != []
    ensures var q := OnHook(p, hook, at);
            && Serves(q.win, Inside(stack, hook), if Opens(stack, hook) then at else since, Label(stack, hook, named))
            && Row(q.imports, key)
               == if Closes(stack, hook) && named == Some(key) then Charged(Row(p.imports, key), 1, Less(at, since))
                  else Row(p.imports, key)
  {
    hide OnHook, Matches, Serves, Inside, Opens, Closes, Label, Row;
    if hook.ReturningFromWasm? || hook.ReturningFromHost? {
      LeaveCharges(p, hook, stack, now, at, since, named, key);
    } else {
      EnterCharges(p, hook, stack, now, at, since, named);
    }
  }

  lemma {:induction false} RowsMean(
    p: Profile, hooks: seq<Stamped>, stack: seq<Frame>, now: nat, end: nat, since: nat, named: Option<Key>, key: Key)
    requires Clocked(hooks, now, end) && Nested(hooks, stack)
    requires Matches(p.win, stack, now) && Serves(p.win, stack, since, named)
    ensures var windows := HostWindows(hooks, stack, since, named);
            Row(RunHooks(p, hooks).imports, key)
            == Charged(Row(p.imports, key), CountOf(windows, key), NanosOf(windows, key))
    decreases |hooks|
  {
    hide OnHook, Row, Matches, Serves, Inside, Opens, Closes, Label;
    if hooks != [] {
      var hook, at := hooks[0].hook, hooks[0].at;
      HookMatches(p, hook, stack, now, at);
      HookCharges(p, hook, stack, now, at, since, named, key);
      var from, next := if Opens(stack, hook) then at else since, Label(stack, hook, named);
      RowsMean(OnHook(p, hook, at), hooks[1..], Inside(stack, hook), at, end, from, next, key);
      var rest := HostWindows(hooks[1..], Inside(stack, hook), from, next);
      assert ([HostWindow(named, Less(at, since))] + rest)[1..] == rest;
      assert [] + rest == rest;
    }
  }

  /** The time the open host window has taken. */
  function Taken(stack: seq<Frame>, now: nat, since: nat): nat {
    if InHost in stack then Less(now, since) else 0
  }

  lemma {:induction false} SegmentTaken(stack: seq<Frame>, hook: Hook, now: nat, at: nat, since: nat)
    requires since <= now <= at
    ensures Taken(stack, now, since) + Segment(stack, at - now).host
         == (if Closes(stack, hook) then Less(at, since) else 0)
            + Taken(Inside(stack, hook), at, if Opens(stack, hook) then at else since)
  {
    hide Inside;
  }

  /** The windows together take exactly the time that is the host's. */
  lemma {:induction false} WindowsAddUp(
    hooks: seq<Stamped>, stack: seq<Frame>, now: nat, end: nat, since: nat, named: Option<Key>)
    requires Clocked(hooks, now, end) && Nested(hooks, stack) && since <= now
    ensures AllNanos(HostWindows(hooks, stack, since, named))
         == TimeOf(hooks, stack, now, end).host + Taken(stack, now, since)
    decreases |hooks|
  {
    hide Inside, Label, Taken, Closes, Opens, Segment, AllNanos;
    if hooks == [] {
      NothingOpen(end - now, now, since);
    } else {
      var hook, at := hooks[0].hook, hooks[0].at;
      var from, next := if Opens(stack, hook) then at else since, Label(stack, hook, named);
      SegmentTaken(stack, hook, now, at, since);
      WindowsAddUp(hooks[1..], Inside(stack, hook), at, end, from, next);
      OneMoreWindow(HostWindow(named, Less(at, since)), HostWindows(hooks[1..], Inside(stack, hook), from, next));
    }
  }

  lemma {:induction false} OneMoreWindow(w: HostWindow, rest: seq<HostWindow>)
    ensures AllNanos([w] + rest) == w.nanos + AllNanos(rest)
    ensures [] + rest == rest
  {
    assert ([w] + rest)[1..] == rest;
  }

  lemma {:induction false} NothingOpen(n: nat, now: nat, since: nat)
    ensures Segment([], n).host == 0 && Taken([], now, since) == 0 && AllNanos([]) == 0
  {
  }

  /**
    A call whose windows nest charges every import with the host windows that named it last, each at its
    length, and no other; together with those that named none they make up the host's bucket.
    */
  lemma {:induction false} ImportRowsMeanWhatTheySay(p: Profile, call: Call, key: Key)
    requires p.win == CLOSED && Clocked(call.hooks, call.start, call.end) && Nested(call.hooks, [])
    ensures var windows := HostWindows(call.hooks, [], call.start, None);
            && Row(AfterCall(p, call).imports, key)
               == Charged(Row(p.imports, key), CountOf(windows, key), NanosOf(windows, key))
            && AllNanos(windows) == TimeOf(call.hooks, [], call.start, call.end).host
  {
    hide RunHooks, TimeOf, Nested, HostWindows, Row, Inside;
    RowsMean(p, call.hooks, [], call.start, call.end, call.start, None, key);
    WindowsAddUp(call.hooks, [], call.start, call.end, call.start, None);
  }

  lemma {:induction false} RowGrows(row: Totals, wall: nat, t: Spent, wave: nat)
    requires row.Adds() && t.guest + t.host + t.idle == wall
    ensures row.Add(wall, t.guest, t.host).AddWave(wave)
         == Totals(row.calls + 1, row.wall + wall + wave, row.guest + t.guest, row.host + t.host, row.wave + wave)
    ensures row.Add(wall, t.guest, t.host).AddWave(wave).Marshalling() == row.Marshalling() + t.idle
  {
  }

  function WaveNanos(call: Call): nat {
    match call.wave
    case None => 0
    case Some(nanos) => nanos
  }

  lemma {:induction false} ExportRowAfter(p: Profile, call: Call, func: string)
    requires Clocked(call.hooks, call.start, call.end) && call.start <= call.end
    ensures var ran := RunHooks(p, call.hooks);
            var guest, host := Less(ran.win.wasmNanos, ran.win.hostNanos), ran.win.hostNanos;
            Row(AfterCall(p, call).exports, func)
            == if func == call.func then
                 Row(ran.exports, func).Add(call.end - call.start, guest, host).AddWave(WaveNanos(call))
               else Row(ran.exports, func)
  {
    hide RunHooks;
  }

  /** And it adds to its own export's row what it adds to the total, and to no other's. */
  lemma {:induction false} ExportRowsMeanWhatTheySay(p: Profile, call: Call, func: string)
    requires Balanced(p) && Clocked(call.hooks, call.start, call.end) && Nested(call.hooks, [])
    ensures call.start <= call.end
    ensures var t := TimeOf(call.hooks, [], call.start, call.end);
            var wall, wave := call.end - call.start, WaveNanos(call);
            var before, after := Row(p.exports, func), Row(AfterCall(p, call).exports, func);
            if func == call.func then
              && after == Totals(before.calls + 1, before.wall + wall + wave, before.guest + t.guest,
                                 before.host + t.host, before.wave + wave)
              && after.Marshalling() == before.Marshalling() + t.idle
            else after == before
  {
    hide RowsSum, TimeOf, RunHooks, Nested, AfterCall;
    WindowsMean(p, call.hooks, [], call.start, call.end);
    HooksWithin(p, call.hooks, call.start, call.start, call.end);
    ExportRowAfter(p, call, func);
    assert Row(p.exports, func).Adds();
    hide Row, Totals.Add, Totals.AddWave, Totals.Marshalling;
    RowGrows(Row(p.exports, func), call.end - call.start,
             TimeOf(call.hooks, [], call.start, call.end), WaveNanos(call));
  }

  /**
    A call whose windows nest adds to each bucket exactly the time it is named for, and what it adds to
    the remainder is the time during which no window was open.
    */
  lemma {:induction false} BucketsMeanWhatTheySay(p: Profile, call: Call)
    requires Balanced(p) && Clocked(call.hooks, call.start, call.end) && Nested(call.hooks, [])
    ensures call.start <= call.end
    ensures var t := TimeOf(call.hooks, [], call.start, call.end);
            var q := AfterCall(p, call);
            && q.total.guest == p.total.guest + t.guest
            && q.total.host == p.total.host + t.host
            && q.total.Marshalling() == p.total.Marshalling() + t.idle
            && q.total.calls == p.total.calls + 1
  {
    hide RowsSum, TimeOf, RunHooks, Nested, OnHook;
    WindowsMean(p, call.hooks, [], call.start, call.end);
    HooksWithin(p, call.hooks, call.start, call.start, call.end);
  }
}
