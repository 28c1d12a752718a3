/**
  `compile` as one caller runs it: the host's tables updated in place.

  With nobody else about, it does to them what the protocol's steps do, taken one after another.
  */
module Compiling {
  import opened Wrappers
  import opened CompiledCaches
  import opened CompileProtocol

  /** The tables the callers share, and the build counter. */
  datatype Tables = Tables(compiled: Cache<Component>, inFlight: map<string, Flight>, nextFlight: Flight, compiles: nat)

  function Compiled(t: Tables, key: string, wasm: Bytes, ok: bool): (Tables, Option<Component>) {
    if key in t.compiled.byKey then (t, Some(t.compiled.byKey[key]))
    else
      var component := Component(wasm);
      (Tables(if ok then t.compiled.Insert(key, component) else t.compiled,
              t.inFlight - {key},
              if key in t.inFlight then t.nextFlight else t.nextFlight + 1,
              t.compiles + 1),
       if ok then Some(component) else None)
  }

  class Compiler {
    const hash: Bytes -> string
    const compiled: CompiledCache<Component>
    var inFlight: map<string, Flight>
    var nextFlight: Flight
    var compiles: nat

    constructor (hash: Bytes -> string)
      ensures Valid() && fresh(compiled) && this.hash == hash && Now() == Tables(Empty(), map[], 0, 0)
    {
      this.hash := hash;
      compiled := new CompiledCache<Component>();
      inFlight, nextFlight, compiles := map[], 0, 0;
    }

    ghost predicate Valid()
      reads this, compiled
    {
      compiled.Valid()
    }

    function Now(): Tables
      reads this, compiled
    {
      Tables(compiled.Contents(), inFlight, nextFlight, compiles)
    }

    /** `ok` is how a build that is needed turns out. */
    method Compile(wasm: Bytes, ok: bool) returns (built: Option<Component>)
      requires Valid()
      modifies this, compiled
      ensures Valid() && (Now(), built) == Compiled(old(Now()), hash(wasm), wasm, ok)
    {
      var key := hash(wasm);
      var found := compiled.Get(key);
      if found.Some? {
        return found;
      }
      if key !in inFlight {
        inFlight, nextFlight := inFlight[key := nextFlight], nextFlight + 1;
      }
      found := compiled.Get(key);
      if found.Some? {
        return found;
      }
      compiles := compiles + 1;
      built := if ok then Some(Component(wasm)) else None;
      if ok {
        compiled.Insert(key, Component(wasm));
      }
      inFlight := inFlight - {key};
      assert inFlight == old(inFlight) - {key};
    }
  }

  // ---------------------------------------------------------------------------------------------
  // One caller under the protocol
  // ---------------------------------------------------------------------------------------------

  function Alone(wasm: Bytes, hash: Bytes -> string): Callers {
    Callers([wasm], hash)
  }

  /** The step's outcome, field by field. */
  ghost predicate StepsTo(c: Callers, h: Host, i: nat, ok: bool, next: Host) {
    && i < |c.wasm| == |h.pcs|
    && Step(c, h, i, ok).Some?
    && var got := Step(c, h, i, ok).value;
    && got.pcs == next.pcs && got.compiled == next.compiled && got.inFlight == next.inFlight
    && got.holder == next.holder && got.nextFlight == next.nextFlight && got.builds == next.builds
    && got.stored == next.stored && got.evicted == next.evicted && got.failed == next.failed
  }

  lemma {:induction false} RunFirst(c: Callers, h: Host, i: nat, ok: bool, next: Host, rest: seq<Choice>)
    requires StepsTo(c, h, i, ok, next)
    ensures Run(c, h, [(i, ok)] + rest) == Run(c, next, rest)
  {
    var schedule := [(i, ok)] + rest;
    assert schedule[1..] == rest;
  }

  /** A lone caller that hits is done after one step. */
  lemma {:induction false} AloneHits(wasm: Bytes, hash: Bytes -> string, h: Host, ok: bool)
    requires h.pcs == [Lookup] && hash(wasm) in h.compiled.byKey
    ensures Run(Alone(wasm, hash), h, [(0, ok)]) == h.(pcs := [Done(Some(h.compiled.byKey[hash(wasm)]))])
  {
    var c := Alone(wasm, hash);
    var next := h.(pcs := [Done(Some(h.compiled.byKey[hash(wasm)]))]);
    RunFirst(c, h, 0, ok, next, []);
    assert [(0, ok)] + [] == [(0, ok)];
  }

  /** A lone caller that misses claims its flight, takes the lock and misses again: four steps. */
  lemma {:induction false} AloneClaims(
    wasm: Bytes, hash: Bytes -> string, h: Host, flight: Flight, ok: bool, rest: seq<Choice>)
    requires h.pcs == [Lookup] && h.holder == map[] && hash(wasm) !in h.compiled.byKey
    requires flight == if hash(wasm) in h.inFlight then h.inFlight[hash(wasm)] else h.nextFlight
    ensures Run(Alone(wasm, hash), h, [(0, ok)] + ([(0, ok)] + ([(0, ok)] + ([(0, ok)] + rest))))
         == Run(Alone(wasm, hash), Claimed(h, hash(wasm), flight), rest)
  {
    hide Run, Cache.Insert;
    var c, key := Alone(wasm, hash), hash(wasm);
    var s1 := h.(pcs := [Claim]);
    var s2 := s1.(
      pcs := [Wait(flight)], inFlight := h.inFlight[key := flight],
      nextFlight := if key in h.inFlight then h.nextFlight else h.nextFlight + 1);
    var s3 := s2.(pcs := [Recheck(flight)], holder := map[flight := 0]);
    assert key in h.inFlight ==> h.inFlight[key := flight] == h.inFlight;
    RunFirst(c, s3, 0, ok, Claimed(h, key, flight), rest);
    RunFirst(c, s2, 0, ok, s3, [(0, ok)] + rest);
    RunFirst(c, s1, 0, ok, s2, [(0, ok)] + ([(0, ok)] + rest));
    RunFirst(c, h, 0, ok, s1, [(0, ok)] + ([(0, ok)] + ([(0, ok)] + rest)));
  }

  /** About to build, holding the lock of its flight. */
  function Claimed(h: Host, key: string, flight: Flight): Host {
    h.(pcs := [Build(flight)], inFlight := h.inFlight[key := flight], holder := map[flight := 0],
       nextFlight := if key in h.inFlight then h.nextFlight else h.nextFlight + 1)
  }

  /** The steps after the second miss: build, store what was built, forget the flight, let go of the lock. */
  lemma {:induction false} AloneBuilds(wasm: Bytes, hash: Bytes -> string, h: Host, flight: Flight, ok: bool)
    returns (schedule: seq<Choice>, last: Host)
    requires h.pcs == [Build(flight)] && h.holder == map[flight := 0]
    ensures Run(Alone(wasm, hash), h, schedule) == last
    ensures last.pcs == [Done(if ok then Some(Component(wasm)) else None)]
    ensures last.compiled == if ok then h.compiled.Insert(hash(wasm), Component(wasm)) else h.compiled
    ensures last.inFlight == h.inFlight - {hash(wasm)} && last.holder == map[] && last.nextFlight == h.nextFlight
    ensures last.builds == h.builds + [hash(wasm)]
  {
    hide Cache.Insert, Run;
    var c, key, component := Alone(wasm, hash), hash(wasm), Component(wasm);
    var s1 := h.(pcs := [Building(flight)], builds := h.builds + [key]);
    var s2, s3: Host;
    if ok {
      s2 := s1.(pcs := [Store(flight)]);
      s3 := Step(c, s2, 0, ok).value;
    } else {
      s2 := s1;
      s3 := s1.(pcs := [Forget(flight, None)], failed := h.failed + {key});
    }
    var built := if ok then Some(component) else None;
    assert s3.pcs == [Forget(flight, built)];
    var s4 := s3.(pcs := [Leave(flight, built)], inFlight := h.inFlight - {key});
    last := s4.(pcs := [Done(built)], holder := map[]);
    assert map[flight := 0] - {flight} == map[];
    RunNothing(c, last);
    var r4 := [(0, ok)] + [];  RunFirst(c, s4, 0, ok, last, []);
    var r3 := [(0, ok)] + r4;  RunFirst(c, s3, 0, ok, s4, r4);
    var r2 := if ok then [(0, ok)] + r3 else r3;
    if ok {
      RunFirst(c, s2, 0, ok, s3, r3);
      schedule := [(0, ok)] + ([(0, ok)] + r2);
      RunFirst(c, s1, 0, ok, s2, r2);
      RunFirst(c, h, 0, ok, s1, [(0, ok)] + r2);
    } else {
      schedule := [(0, ok)] + ([(0, ok)] + r2);
      RunFirst(c, s1, 0, ok, s3, r2);
      RunFirst(c, h, 0, ok, s1, [(0, ok)] + r2);
    }
  }

  lemma {:induction false} RunNothing(c: Callers, h: Host)
    requires |c.wasm| == |h.pcs|
    ensures Run(c, h, []) == h
  {
  }

  predicate Sees(h: Host, t: Tables) {
    && h.compiled == t.compiled && h.inFlight == t.inFlight && h.nextFlight == t.nextFlight
    && |h.builds| == t.compiles && h.holder == map[]
  }

  /** The method is the protocol with one caller: the same tables, the same builds, the same component. */
  lemma {:induction false} CompileIsTheProtocol(wasm: Bytes, hash: Bytes -> string, h: Host, t: Tables, ok: bool)
    returns (schedule: seq<Choice>)
    requires h.pcs == [Lookup] && Sees(h, t)
    ensures var last := Run(Alone(wasm, hash), h, schedule);
            var (after, built) := Compiled(t, hash(wasm), wasm, ok);
            Sees(last, after) && last.pcs == [Done(built)]
  {
    hide Cache.Insert, Run;
    var c, key := Alone(wasm, hash), hash(wasm);
    if key in h.compiled.byKey {
      schedule := [(0, ok)];
      AloneHits(wasm, hash, h, ok);
    } else {
      var flight := if key in h.inFlight then h.inFlight[key] else h.nextFlight;
      var rest, last := AloneBuilds(wasm, hash, Claimed(h, key, flight), flight, ok);
      schedule := [(0, ok)] + ([(0, ok)] + ([(0, ok)] + ([(0, ok)] + rest)));
      AloneClaims(wasm, hash, h, flight, ok, rest);
      assert h.inFlight[key := flight] - {key} == h.inFlight - {key};
    }
  }
}
