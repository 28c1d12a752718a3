/**
  Concurrent compiles, coalesced.

  Any number of callers run `compile`, each one atomic step at a time under whatever schedule. A step
  is one critical section: a lookup, a claim on the flight table, taking or releasing a flight's lock,
  storing, forgetting. Compiling itself is two steps, its start and its end, and may fail.
  */
module CompileProtocol {
  import opened Wrappers
  import opened CompiledCaches

  type Bytes = seq<int>

  /** Machine code, identified by the bytes it was compiled from. */
  datatype Component = Component(wasm: Bytes)

  type Flight = nat

  /** Where a caller is. From `Recheck` to `Leave` it holds the lock of its flight. */
  datatype Pc =
    | Lookup
    | Claim
    | Wait(flight: Flight)
    | Recheck(flight: Flight)
    | Build(flight: Flight)
    | Building(flight: Flight)
    | Store(flight: Flight)
    | Forget(flight: Flight, built: Option<Component>)
    | Leave(flight: Flight, built: Option<Component>)
    | Done(result: Option<Component>)
  {
    predicate Holds() {
      Recheck? || Build? || Building? || Store? || Forget? || Leave?
    }

    /** Claimed a flight, and has not yet found or forgotten the job. */
    predicate Working() {
      Wait? || Recheck? || Build? || Building? || Store?
    }

    /** Steps left on the longest way out. */
    function Rank(): nat {
      match this
      case Lookup => 9
      case Claim => 8
      case Wait(_) => 7
      case Recheck(_) => 6
      case Build(_) => 5
      case Building(_) => 4
      case Store(_) => 3
      case Forget(_, _) => 2
      case Leave(_, _) => 1
      case Done(_) => 0
    }
  }

  /** The bytes each caller wants compiled, and the key function. */
  datatype Callers = Callers(wasm: seq<Bytes>, hash: Bytes -> string) {

    function Key(i: nat): string
      requires i < |wasm|
    {
      hash(wasm[i])
    }

    /** No two byte strings in play share a key. */
    ghost predicate NoCollisions() {
      forall i, j | 0 <= i < |wasm| && 0 <= j < |wasm| :: Key(i) == Key(j) ==> wasm[i] == wasm[j]
    }
  }

  /** The shared state, and for the statements about it the keys stored, evicted and failed so far. */
  datatype Host = Host(
    pcs: seq<Pc>,
    compiled: Cache<Component>,
    inFlight: map<string, Flight>,
    holder: map<Flight, nat>,
    nextFlight: Flight,
    builds: seq<string>,
    stored: set<string>,
    evicted: set<string>,
    failed: set<string>
  )

  function Start(c: Callers): Host {
    Host(seq(|c.wasm|, _ => Lookup), Empty<Component>(), map[], map[], 0, [], {}, {}, {})
  }

  function CachedAt(h: Host, key: string): Option<Component> {
    if key in h.compiled.byKey then Some(h.compiled.byKey[key]) else None
  }

  /** Caller `i` takes its next step; `ok` decides a build that ends here. `None` when it cannot move. */
  function Step(c: Callers, h: Host, i: nat, ok: bool): Option<Host>
    requires i < |c.wasm| == |h.pcs|
  {
    var key := c.Key(i);
    match h.pcs[i]
    case Lookup =>
      Some(h.(pcs := h.pcs[i := match CachedAt(h, key) case Some(found) => Done(Some(found)) case None => Claim]))
    case Claim =>
      if key in h.inFlight then
        Some(h.(pcs := h.pcs[i := Wait(h.inFlight[key])]))
      else
        Some(h.(
          pcs := h.pcs[i := Wait(h.nextFlight)],
          inFlight := h.inFlight[key := h.nextFlight],
          nextFlight := h.nextFlight + 1))
    case Wait(flight) =>
      if flight in h.holder then None
      else Some(h.(pcs := h.pcs[i := Recheck(flight)], holder := h.holder[flight := i]))
    case Recheck(flight) =>
      Some(h.(pcs := h.pcs[i := match CachedAt(h, key)
                                case Some(found) => Leave(flight, Some(found))
                                case None => Build(flight)]))
    case Build(flight) =>
      Some(h.(pcs := h.pcs[i := Building(flight)], builds := h.builds + [key]))
    case Building(flight) =>
      if ok then Some(h.(pcs := h.pcs[i := Store(flight)]))
      else Some(h.(pcs := h.pcs[i := Forget(flight, None)], failed := h.failed + {key}))
    case Store(flight) =>
      var component := Component(c.wasm[i]);
      var compiled := h.compiled.Insert(key, component);
      Some(h.(
        pcs := h.pcs[i := Forget(flight, Some(component))],
        compiled := compiled,
        stored := h.stored + {key},
        evicted := h.evicted + (h.compiled.byKey.Keys - compiled.byKey.Keys)))
    case Forget(flight, built) =>
      Some(h.(pcs := h.pcs[i := Leave(flight, built)], inFlight := h.inFlight - {key}))
    case Leave(flight, built) =>
      Some(h.(pcs := h.pcs[i := Done(built)], holder := h.holder - {flight}))
    case Done(_) =>
      None
  }

  /** One choice of the scheduler: who moves, and how its build ends if one ends there. */
  type Choice = (nat, bool)

  /** Run a schedule; a choice of a caller that cannot move passes. */
  function Run(c: Callers, h: Host, schedule: seq<Choice>): (after: Host)
    requires |c.wasm| == |h.pcs|
    ensures |after.pcs| == |h.pcs|
    decreases |schedule|
  {
    if schedule == [] then h
    else
      var (i, ok) := schedule[0];
      var next := if i < |h.pcs| && Step(c, h, i, ok).Some? then Step(c, h, i, ok).value else h;
      Run(c, next, schedule[1..])
  }

  // ---------------------------------------------------------------------------------------------
  // Locks
  // ---------------------------------------------------------------------------------------------

  /** A lock's holder is inside that flight, and whoever is inside a flight holds its lock. */
  ghost predicate LocksAgree(pcs: seq<Pc>, holder: map<Flight, nat>) {
    && (forall i | 0 <= i < |pcs| && pcs[i].Holds() :: pcs[i].flight in holder && holder[pcs[i].flight] == i)
    && (forall f | f in holder :: holder[f] < |pcs| && pcs[holder[f]].Holds() && pcs[holder[f]].flight == f)
  }

  lemma {:induction false} MoveLocks(pcs: seq<Pc>, holder: map<Flight, nat>, i: nat, pc: Pc)
    requires LocksAgree(pcs, holder) && i < |pcs|
    requires pc.Holds() == pcs[i].Holds() && (pc.Holds() ==> pc.flight == pcs[i].flight)
    ensures LocksAgree(pcs[i := pc], holder)
  {
  }

  lemma {:induction false} TakeLock(pcs: seq<Pc>, holder: map<Flight, nat>, i: nat, flight: Flight)
    requires LocksAgree(pcs, holder) && i < |pcs| && !pcs[i].Holds() && flight !in holder
    ensures LocksAgree(pcs[i := Recheck(flight)], holder[flight := i])
  {
  }

  lemma {:induction false} DropLock(pcs: seq<Pc>, holder: map<Flight, nat>, i: nat, result: Option<Component>)
    requires LocksAgree(pcs, holder) && i < |pcs| && pcs[i].Leave?
    ensures LocksAgree(pcs[i := Done(result)], holder - {pcs[i].flight})
  {
  }

  // ---------------------------------------------------------------------------------------------
  // Own bytes
  // ---------------------------------------------------------------------------------------------

  /** What leaves a caller is compiled from its own bytes, or nothing, and then a build of its key failed. */
  ghost predicate OwnResult(result: Option<Component>, wasm: Bytes, key: string, failed: set<string>) {
    match result
    case Some(component) => component == Component(wasm)
    case None => key in failed
  }

  ghost predicate OwnPc(pc: Pc, wasm: Bytes, key: string, failed: set<string>) {
    && (pc.Done? ==> OwnResult(pc.result, wasm, key, failed))
    && (pc.Forget? || pc.Leave? ==> OwnResult(pc.built, wasm, key, failed))
  }

  ghost predicate OwnBytes(c: Callers, h: Host)
    requires |c.wasm| == |h.pcs|
  {
    && (forall i | 0 <= i < |h.pcs| :: OwnPc(h.pcs[i], c.wasm[i], c.Key(i), h.failed))
    && (forall i | 0 <= i < |h.pcs| :: c.Key(i) in h.compiled.byKey ==>
          h.compiled.byKey[c.Key(i)] == Component(c.wasm[i]))
  }

  // ---------------------------------------------------------------------------------------------
  // One build per key
  // ---------------------------------------------------------------------------------------------

  function BuildCount(builds: seq<string>, key: string): nat {
    multiset(builds)[key]
  }

  predicate InBuild(pc: Pc) {
    pc.Building? || pc.Store?
  }

  /** A caller that works on a job not yet done is on the flight the table names. */
  ghost predicate OnTheFlight(pc: Pc, key: string, inFlight: map<string, Flight>) {
    && !pc.Forget? && !pc.Leave?
    && (pc.Working() ==> key in inFlight && inFlight[key] == pc.flight)
  }

  ghost predicate Builder(c: Callers, pcs: seq<Pc>, key: string, i: nat)
    requires |c.wasm| == |pcs|
  {
    i < |pcs| && c.Key(i) == key && InBuild(pcs[i])
  }

  /** Before the job is done once, all who work on it share a flight, and at most one has built. */
  ghost predicate NotYetStored(c: Callers, h: Host, key: string)
    requires |c.wasm| == |h.pcs|
  {
    && key !in h.compiled.byKey
    && (forall i | 0 <= i < |h.pcs| && c.Key(i) == key :: OnTheFlight(h.pcs[i], key, h.inFlight))
    && BuildCount(h.builds, key) <= 1
    && (BuildCount(h.builds, key) == 1 <==> exists i: nat :: Builder(c, h.pcs, key, i))
  }

  /** After it, the cache answers: nobody is building and nobody will. */
  ghost predicate OnceStored(c: Callers, h: Host, key: string)
    requires |c.wasm| == |h.pcs|
  {
    && key in h.compiled.byKey
    && BuildCount(h.builds, key) == 1
    && (forall i | 0 <= i < |h.pcs| && c.Key(i) == key :: !h.pcs[i].Build? && !InBuild(h.pcs[i]))
  }

  ghost predicate BuiltOnce(c: Callers, h: Host, key: string)
    requires |c.wasm| == |h.pcs|
  {
    key !in h.failed && key !in h.evicted ==>
      if key in h.stored then OnceStored(c, h, key) else NotYetStored(c, h, key)
  }

  // ---------------------------------------------------------------------------------------------
  // What every step keeps
  // ---------------------------------------------------------------------------------------------

  ghost predicate Inv(c: Callers, h: Host) {
    && |c.wasm| == |h.pcs|
    && h.compiled.Valid()
    && LocksAgree(h.pcs, h.holder)
    && OwnBytes(c, h)
    && forall key :: BuiltOnce(c, h, key)
  }

  lemma {:induction false} StartInv(c: Callers)
    ensures Inv(c, Start(c))
  {
  }

  lemma {:induction false} StepLocks(c: Callers, h: Host, i: nat, ok: bool)
    requires |c.wasm| == |h.pcs| && LocksAgree(h.pcs, h.holder) && i < |h.pcs| && Step(c, h, i, ok).Some?
    ensures var next := Step(c, h, i, ok).value; LocksAgree(next.pcs, next.holder)
  {
    var next := Step(c, h, i, ok).value;
    if h.pcs[i].Wait? {
      TakeLock(h.pcs, h.holder, i, h.pcs[i].flight);
    } else if h.pcs[i].Leave? {
      DropLock(h.pcs, h.holder, i, h.pcs[i].built);
    } else {
      MoveLocks(h.pcs, h.holder, i, next.pcs[i]);
    }
  }

  lemma {:induction false} StepOwnPc(c: Callers, h: Host, i: nat, ok: bool)
    requires |c.wasm| == |h.pcs| && OwnBytes(c, h)
    requires i < |h.pcs| && Step(c, h, i, ok).Some?
    ensures var next := Step(c, h, i, ok).value; OwnPc(next.pcs[i], c.wasm[i], c.Key(i), next.failed)
  {
    hide Cache.Insert, Callers.Key;
    assert OwnPc(h.pcs[i], c.wasm[i], c.Key(i), h.failed);
  }

  lemma {:induction false} StepOwnCache(c: Callers, h: Host, i: nat, ok: bool)
    requires c.NoCollisions() && |c.wasm| == |h.pcs| && h.compiled.Valid() && OwnBytes(c, h)
    requires i < |h.pcs| && Step(c, h, i, ok).Some?
    ensures var compiled := Step(c, h, i, ok).value.compiled;
            && compiled.Valid()
            && (forall j | 0 <= j < |h.pcs| && c.Key(j) in compiled.byKey ::
                  compiled.byKey[c.Key(j)] == Component(c.wasm[j]))
  {
    hide Cache.Insert, Callers.Key;
    if h.pcs[i].Store? {
      InsertKeepsValid(h.compiled, c.Key(i), Component(c.wasm[i]));
    }
  }

  lemma {:induction false} StepOwnBytes(c: Callers, h: Host, i: nat, ok: bool)
    requires c.NoCollisions() && |c.wasm| == |h.pcs| && h.compiled.Valid() && OwnBytes(c, h)
    requires i < |h.pcs| && Step(c, h, i, ok).Some?
    ensures Step(c, h, i, ok).value.compiled.Valid() && OwnBytes(c, Step(c, h, i, ok).value)
  {
    StepOwnPc(c, h, i, ok);
    StepOwnCache(c, h, i, ok);
    var next := Step(c, h, i, ok).value;
    assert next.pcs == h.pcs[i := next.pcs[i]] && h.failed <= next.failed;
    hide Step, Callers.Key, Cache.Valid;
    forall j | 0 <= j < |next.pcs| ensures OwnPc(next.pcs[j], c.wasm[j], c.Key(j), next.failed) {
      assert OwnPc(h.pcs[j], c.wasm[j], c.Key(j), h.failed);
    }
  }

  /** A caller's own key, first job: the lock admits one builder, and its result ends the first phase. */
  lemma {:induction false} StepOwnFirst(c: Callers, h: Host, i: nat, ok: bool)
    requires |c.wasm| == |h.pcs| && h.compiled.Valid() && LocksAgree(h.pcs, h.holder)
    requires i < |h.pcs| && Step(c, h, i, ok).Some?
    requires c.Key(i) !in h.stored && NotYetStored(c, h, c.Key(i))
    requires c.Key(i) !in Step(c, h, i, ok).value.failed
    ensures BuiltOnce(c, Step(c, h, i, ok).value, c.Key(i))
  {
    var next := Step(c, h, i, ok).value;
    var key := c.Key(i);
    assert OnTheFlight(h.pcs[i], key, h.inFlight);
    match h.pcs[i] {
      case Build(flight) =>
        if j: nat :| Builder(c, h.pcs, key, j) {
          assert false;
        }
        assert Builder(c, next.pcs, key, i);
      case Building(flight) =>
        assert Builder(c, h.pcs, key, i);
        assert Builder(c, next.pcs, key, i);
      case Store(flight) =>
        assert Builder(c, h.pcs, key, i);
        InsertKeepsValid(h.compiled, key, Component(c.wasm[i]));
        forall j | 0 <= j < |h.pcs| && c.Key(j) == key ensures !next.pcs[j].Build? && !InBuild(next.pcs[j]) {
          assert OnTheFlight(h.pcs[j], key, h.inFlight);
        }
      case Lookup => OthersBuild(c, h, next, i, key);
      case Claim => OthersBuild(c, h, next, i, key);
      case Wait(_) => OthersBuild(c, h, next, i, key);
      case Recheck(_) => OthersBuild(c, h, next, i, key);
      case _ =>
    }
  }

  /** A step that neither enters nor leaves a build of `key` keeps who is building it. */
  lemma {:induction false} OthersBuild(c: Callers, h: Host, next: Host, i: nat, key: string)
    requires |c.wasm| == |h.pcs| == |next.pcs| && i < |h.pcs| && next.pcs == h.pcs[i := next.pcs[i]]
    requires c.Key(i) == key ==> InBuild(h.pcs[i]) == InBuild(next.pcs[i])
    ensures (exists j: nat :: Builder(c, h.pcs, key, j)) <==> exists j: nat :: Builder(c, next.pcs, key, j)
  {
    if j: nat :| Builder(c, h.pcs, key, j) {
      assert Builder(c, next.pcs, key, j);
    }
    if j: nat :| Builder(c, next.pcs, key, j) {
      assert Builder(c, h.pcs, key, j);
    }
  }

  /** What a step of a caller with another key leaves alone. */
  ghost predicate SameBooks(c: Callers, h: Host, next: Host, i: nat, key: string)
    requires |c.wasm| == |h.pcs| == |next.pcs| && i < |h.pcs|
  {
    && c.Key(i) != key
    && next.pcs == h.pcs[i := next.pcs[i]]
    && (key in next.stored <==> key in h.stored) && h.failed <= next.failed && h.evicted <= next.evicted
    && (key !in next.evicted ==> (key in next.compiled.byKey <==> key in h.compiled.byKey))
    && (key in h.inFlight <==> key in next.inFlight)
    && (key in h.inFlight ==> next.inFlight[key] == h.inFlight[key])
    && BuildCount(next.builds, key) == BuildCount(h.builds, key)
  }

  lemma {:induction false} StoreKeepsBooks(c: Callers, h: Host, i: nat, ok: bool, key: string)
    requires |c.wasm| == |h.pcs| && h.compiled.Valid()
    requires i < |h.pcs| && h.pcs[i].Store? && c.Key(i) != key
    ensures SameBooks(c, h, Step(c, h, i, ok).value, i, key)
  {
    InsertKeepsValid(h.compiled, c.Key(i), Component(c.wasm[i]));
  }

  lemma {:induction false} BuildKeepsBooks(c: Callers, h: Host, i: nat, ok: bool, key: string)
    requires |c.wasm| == |h.pcs| && i < |h.pcs| && h.pcs[i].Build? && c.Key(i) != key
    ensures SameBooks(c, h, Step(c, h, i, ok).value, i, key)
  {
    hide Cache.Insert;
  }

  lemma {:induction false} StepKeepsBooks(c: Callers, h: Host, i: nat, ok: bool, key: string)
    requires |c.wasm| == |h.pcs| && h.compiled.Valid()
    requires i < |h.pcs| && Step(c, h, i, ok).Some? && c.Key(i) != key
    ensures SameBooks(c, h, Step(c, h, i, ok).value, i, key)
  {
    if h.pcs[i].Store? {
      StoreKeepsBooks(c, h, i, ok, key);
    } else if h.pcs[i].Build? {
      BuildKeepsBooks(c, h, i, ok, key);
    } else {
      hide Cache.Insert, Callers.Key, BuildCount;
      var next := Step(c, h, i, ok).value;
      assert next.pcs == h.pcs[i := next.pcs[i]];
      assert next.compiled == h.compiled && next.builds == h.builds;
    }
  }

  /** A step on another key keeps this one's invariant. */
  lemma {:induction false} StepOther(c: Callers, h: Host, next: Host, i: nat, key: string)
    requires |c.wasm| == |h.pcs| == |next.pcs| && i < |h.pcs|
    requires SameBooks(c, h, next, i, key) && BuiltOnce(c, h, key)
    ensures BuiltOnce(c, next, key)
  {
    OthersBuild(c, h, next, i, key);
  }

  /** A caller's own key, after the first job. */
  lemma {:induction false} StepOwnLater(c: Callers, h: Host, i: nat, ok: bool)
    requires |c.wasm| == |h.pcs| && i < |h.pcs| && Step(c, h, i, ok).Some?
    requires c.Key(i) in h.stored && OnceStored(c, h, c.Key(i))
    ensures OnceStored(c, Step(c, h, i, ok).value, c.Key(i))
  {
  }

  lemma {:induction false} StepInv(c: Callers, h: Host, i: nat, ok: bool)
    requires c.NoCollisions() && Inv(c, h) && i < |h.pcs| && Step(c, h, i, ok).Some?
    ensures Inv(c, Step(c, h, i, ok).value)
  {
    var next := Step(c, h, i, ok).value;
    StepLocks(c, h, i, ok);
    StepOwnBytes(c, h, i, ok);
    forall key ensures BuiltOnce(c, next, key) {
      assert BuiltOnce(c, h, key);
      if key !in next.failed && key !in next.evicted {
        if key != c.Key(i) {
          StepKeepsBooks(c, h, i, ok, key);
          StepOther(c, h, next, i, key);
        } else if key in h.stored {
          StepOwnLater(c, h, i, ok);
        } else {
          StepOwnFirst(c, h, i, ok);
        }
      }
    }
  }

  // ---------------------------------------------------------------------------------------------
  // Every schedule
  // ---------------------------------------------------------------------------------------------

  lemma {:induction false} RunInv(c: Callers, h: Host, schedule: seq<Choice>)
    requires c.NoCollisions() && Inv(c, h)
    ensures Inv(c, Run(c, h, schedule))
    decreases |schedule|
  {
    if schedule != [] {
      var (i, ok) := schedule[0];
      if i < |h.pcs| && Step(c, h, i, ok).Some? {
        StepInv(c, h, i, ok);
        RunInv(c, Step(c, h, i, ok).value, schedule[1..]);
      } else {
        RunInv(c, h, schedule[1..]);
      }
    }
  }

  /** A caller that is done has the component for its own bytes, or a build of its key failed. */
  lemma {:induction false} EveryCallerGetsItsOwn(c: Callers, schedule: seq<Choice>, i: nat)
    requires c.NoCollisions() && i < |c.wasm|
    requires Run(c, Start(c), schedule).pcs[i].Done?
    ensures var h := Run(c, Start(c), schedule);
            match h.pcs[i].result
            case Some(component) => component == Component(c.wasm[i])
            case None => c.Key(i) in h.failed
  {
    StartInv(c);
    RunInv(c, Start(c), schedule);
    var h := Run(c, Start(c), schedule);
    assert OwnPc(h.pcs[i], c.wasm[i], c.Key(i), h.failed);
  }

  /** Coalescing: a key whose builds never failed and that was never evicted is built at most once. */
  lemma {:induction false} AtMostOneBuild(c: Callers, schedule: seq<Choice>, key: string)
    requires c.NoCollisions()
    requires var h := Run(c, Start(c), schedule); key !in h.failed && key !in h.evicted
    ensures var h := Run(c, Start(c), schedule);
            && BuildCount(h.builds, key) <= 1
            && (forall i | 0 <= i < |c.wasm| && c.Key(i) == key && h.pcs[i].Done? :: BuildCount(h.builds, key) == 1)
  {
    var h := Run(c, Start(c), schedule);
    StartInv(c);
    RunInv(c, Start(c), schedule);
    assert BuiltOnce(c, h, key);
    forall i | 0 <= i < |c.wasm| && c.Key(i) == key && h.pcs[i].Done? ensures BuildCount(h.builds, key) == 1 {
      DoneMeansStored(c, Start(c), schedule, i);
    }
  }

  ghost predicate SucceededStored(pc: Pc, key: string, stored: set<string>) {
    && (pc.Done? && pc.result.Some? ==> key in stored)
    && ((pc.Forget? || pc.Leave?) && pc.built.Some? ==> key in stored)
  }

  /** A successful caller's key has been stored. */
  ghost predicate SuccessStored(c: Callers, h: Host)
    requires |c.wasm| == |h.pcs|
  {
    && (forall k | k in h.compiled.byKey :: k in h.stored)
    && (forall i | 0 <= i < |h.pcs| :: SucceededStored(h.pcs[i], c.Key(i), h.stored))
  }

  lemma {:induction false} StepSuccessStored(c: Callers, h: Host, i: nat, ok: bool)
    requires |c.wasm| == |h.pcs| && h.compiled.Valid() && SuccessStored(c, h)
    requires i < |h.pcs| && Step(c, h, i, ok).Some?
    ensures SuccessStored(c, Step(c, h, i, ok).value)
  {
    hide Cache.Insert, Cache.Evict, Callers.Key;
    var next := Step(c, h, i, ok).value;
    if h.pcs[i].Store? {
      InsertKeepsValid(h.compiled, c.Key(i), Component(c.wasm[i]));
    }
    assert SucceededStored(h.pcs[i], c.Key(i), h.stored);
    assert next.pcs == h.pcs[i := next.pcs[i]] && h.stored <= next.stored;
    assert SucceededStored(next.pcs[i], c.Key(i), next.stored);
    assert forall k | k in next.compiled.byKey :: k in next.stored;
    hide Step, Cache.Valid;
    forall j | 0 <= j < |next.pcs| ensures SucceededStored(next.pcs[j], c.Key(j), next.stored) {
      assert SucceededStored(h.pcs[j], c.Key(j), h.stored);
    }
  }

  lemma {:induction false} RunSuccessStored(c: Callers, h: Host, schedule: seq<Choice>)
    requires c.NoCollisions() && Inv(c, h) && SuccessStored(c, h)
    ensures SuccessStored(c, Run(c, h, schedule))
    decreases |schedule|
  {
    if schedule != [] {
      var (i, ok) := schedule[0];
      if i < |h.pcs| && Step(c, h, i, ok).Some? {
        StepInv(c, h, i, ok);
        StepSuccessStored(c, h, i, ok);
        RunSuccessStored(c, Step(c, h, i, ok).value, schedule[1..]);
      } else {
        RunSuccessStored(c, h, schedule[1..]);
      }
    }
  }

  lemma {:induction false} DoneMeansStored(c: Callers, h: Host, schedule: seq<Choice>, i: nat)
    requires c.NoCollisions() && h == Start(c) && i < |c.wasm|
    requires Run(c, h, schedule).pcs[i].Done?
    ensures var after := Run(c, h, schedule);
            c.Key(i) !in after.failed ==> c.Key(i) in after.stored
  {
    StartInv(c);
    RunSuccessStored(c, h, schedule);
    EveryCallerGetsItsOwn(c, schedule, i);
  }

  // ---------------------------------------------------------------------------------------------
  // Progress
  // ---------------------------------------------------------------------------------------------

  predicate AllDone(h: Host) {
    forall i | 0 <= i < |h.pcs| :: h.pcs[i].Done?
  }

  function Remaining(pcs: seq<Pc>): nat {
    if pcs == [] then 0 else pcs[0].Rank() + Remaining(pcs[1..])
  }

  lemma {:induction false} RemainingAfter(pcs: seq<Pc>, i: nat, pc: Pc)
    requires i < |pcs|
    ensures Remaining(pcs[i := pc]) == Remaining(pcs) - pcs[i].Rank() + pc.Rank()
  {
    if i > 0 {
      RemainingAfter(pcs[1..], i - 1, pc);
      assert pcs[i := pc][1..] == pcs[1..][i - 1 := pc];
    } else {
      assert pcs[i := pc][1..] == pcs[1..];
    }
  }

  /** Every step brings some caller closer to its end, so no run has more than nine steps a caller. */
  lemma {:induction false} StepsRunOut(c: Callers, h: Host, i: nat, ok: bool)
    requires i < |c.wasm| == |h.pcs| && Step(c, h, i, ok).Some?
    ensures Remaining(Step(c, h, i, ok).value.pcs) < Remaining(h.pcs)
  {
    hide Cache.Insert, Remaining;
    RemainingAfter(h.pcs, i, Step(c, h, i, ok).value.pcs[i]);
  }

  /** No deadlock: while anybody is not done, somebody can move. */
  lemma {:induction false} SomebodyCanMove(c: Callers, h: Host, ok: bool) returns (j: nat)
    requires |c.wasm| == |h.pcs| && LocksAgree(h.pcs, h.holder) && !AllDone(h)
    ensures j < |h.pcs| && Step(c, h, j, ok).Some?
  {
    var i :| 0 <= i < |h.pcs| && !h.pcs[i].Done?;
    if h.pcs[i].Wait? && h.pcs[i].flight in h.holder {
      j := h.holder[h.pcs[i].flight];
    } else {
      j := i;
    }
  }

  lemma {:induction false} CanFinish(c: Callers, h: Host, ok: bool) returns (schedule: seq<Choice>)
    requires c.NoCollisions() && Inv(c, h)
    ensures AllDone(Run(c, h, schedule))
    decreases Remaining(h.pcs)
  {
    if AllDone(h) {
      schedule := [];
    } else {
      var j := SomebodyCanMove(c, h, ok);
      StepInv(c, h, j, ok);
      StepsRunOut(c, h, j, ok);
      var rest := CanFinish(c, Step(c, h, j, ok).value, ok);
      schedule := [(j, ok)] + rest;
      assert schedule[1..] == rest;
    }
  }

  /** From wherever a schedule has led, everybody can still finish, whatever becomes of the builds. */
  lemma {:induction false} NeverStuck(c: Callers, schedule: seq<Choice>, ok: bool)
    requires c.NoCollisions()
    ensures exists rest: seq<Choice> :: AllDone(Run(c, Run(c, Start(c), schedule), rest))
  {
    StartInv(c);
    RunInv(c, Start(c), schedule);
    var rest := CanFinish(c, Run(c, Start(c), schedule), ok);
  }
}
