/**
  Where a plugin's time goes, observed at the boundary between guest and host.

  The clock is a parameter, in nanoseconds. The buckets conserve time: whatever hooks fire, guest, host,
  WAVE conversion and marshalling add up to wall time; and for calls whose windows nest, each bucket is
  exactly the time it is named for, marshalling the time no window was open.
  */
module Profiles {
  import opened Wrappers

  type Key = (string, string)

  datatype Totals = Totals(calls: nat, wall: nat, guest: nat, host: nat, wave: nat) {

    function Add(w: nat, g: nat, h: nat): Totals {
      Totals(calls + 1, wall + w, guest + g, host + h, wave)
    }

    function AddWave(n: nat): Totals {
      this.(wall := wall + n, wave := wave + n)
    }

    function Marshalling(): nat {
      Less(Less(Less(wall, guest), host), wave)
    }

    /** The measured buckets fit the wall time, so the remainder makes the sum exact. */
    predicate Adds() {
      guest + host + wave <= wall
    }
  }

  const NONE := Totals(0, 0, 0, 0, 0)

  /** Subtraction that stops at zero. */
  function Less(a: nat, b: nat): nat {
    if b <= a then a - b else 0
  }

  datatype Hook = CallingWasm | ReturningFromWasm | CallingHost | ReturningFromHost | Serving(key: Key)

  /** The windows of the call in flight. */
  datatype Windows = Windows(
    wasmDepth: nat, wasmSince: Option<nat>, wasmNanos: nat,
    hostDepth: nat, hostSince: Option<nat>, hostNanos: nat,
    serving: Option<Key>)

  const CLOSED := Windows(0, None, 0, 0, None, 0, None)

  datatype Profile = Profile(win: Windows, total: Totals, exports: map<string, Totals>, imports: map<Key, Totals>)

  function Row<K>(rows: map<K, Totals>, k: K): Totals {
    if k in rows then rows[k] else NONE
  }

  function Elapsed(since: nat, now: nat): nat {
    Less(now, since)
  }

  /** One transition at time `now`. */
  function OnHook(p: Profile, hook: Hook, now: nat): Profile {
    var w := p.win;
    match hook
    case CallingWasm =>
      p.(win := w.(wasmSince := if w.wasmDepth == 0 then Some(now) else w.wasmSince, wasmDepth := w.wasmDepth + 1))
    case ReturningFromWasm =>
      var depth := Less(w.wasmDepth, 1);
      if depth == 0 && w.wasmSince.Some? then
        p.(win := w.(wasmDepth := 0, wasmSince := None, wasmNanos := w.wasmNanos + Elapsed(w.wasmSince.value, now)))
      else p.(win := w.(wasmDepth := depth))
    case CallingHost =>
      if w.hostDepth == 0 then p.(win := w.(hostSince := Some(now), serving := None, hostDepth := 1))
      else p.(win := w.(hostDepth := w.hostDepth + 1))
    case ReturningFromHost =>
      var depth := Less(w.hostDepth, 1);
      if depth == 0 && w.hostSince.Some? then
        var spent := Elapsed(w.hostSince.value, now);
        p.(win := w.(hostDepth := 0, hostSince := None, hostNanos := w.hostNanos + spent, serving := None),
           imports := match w.serving
                      case None => p.imports
                      case Some(key) => p.imports[key := Row(p.imports, key).Add(spent, 0, spent)])
      else p.(win := w.(hostDepth := depth))
    case Serving(key) =>
      p.(win := w.(serving := Some(key)))
  }

  /** A call's time added to the total and to its export's row; its windows closed. */
  function FinishCall(p: Profile, func: string, wall: nat): Profile {
    var host := p.win.hostNanos;
    var guest := Less(p.win.wasmNanos, host);
    Profile(CLOSED, p.total.Add(wall, guest, host),
            p.exports[func := Row(p.exports, func).Add(wall, guest, host)], p.imports)
  }

  function AddWaveTo(p: Profile, func: string, nanos: nat): Profile {
    p.(total := p.total.AddWave(nanos),
       exports := if func in p.exports then p.exports[func := p.exports[func].AddWave(nanos)] else p.exports)
  }

  // ---------------------------------------------------------------------------------------------
  // In place
  // ---------------------------------------------------------------------------------------------

  class ProfileState {
    var wasmDepth: nat
    var wasmSince: Option<nat>
    var wasmNanos: nat
    var hostDepth: nat
    var hostSince: Option<nat>
    var hostNanos: nat
    var serving: Option<Key>
    var total: Totals
    var exports: map<string, Totals>
    var imports: map<Key, Totals>

    constructor ()
      ensures Now() == Profile(CLOSED, NONE, map[], map[])
    {
      wasmDepth, wasmSince, wasmNanos := 0, None, 0;
      hostDepth, hostSince, hostNanos := 0, None, 0;
      serving, total, exports, imports := None, NONE, map[], map[];
    }

    function Now(): Profile
      reads this
    {
      var win := Windows(wasmDepth, wasmSince, wasmNanos, hostDepth, hostSince, hostNanos, serving);
      Profile(win, total, exports, imports)
    }

    method OnCallHook(hook: Hook, now: nat)
      modifies this
      ensures Now() == OnHook(old(Now()), hook, now)
    {
      match hook {
        case CallingWasm =>
          if wasmDepth == 0 {
            wasmSince := Some(now);
          }
          wasmDepth := wasmDepth + 1;
        case ReturningFromWasm =>
          wasmDepth := if wasmDepth > 0 then wasmDepth - 1 else 0;
          if wasmDepth == 0 && wasmSince.Some? {
            wasmNanos := wasmNanos + Elapsed(wasmSince.value, now);
            wasmSince := None;
          }
        case CallingHost =>
          if hostDepth == 0 {
            hostSince := Some(now);
            serving := None;
          }
          hostDepth := hostDepth + 1;
        case ReturningFromHost =>
          hostDepth := if hostDepth > 0 then hostDepth - 1 else 0;
          if hostDepth == 0 && hostSince.Some? {
            var spent := Elapsed(hostSince.value, now);
            hostNanos := hostNanos + spent;
            hostSince := None;
            if serving.Some? {
              imports := imports[serving.value := Row(imports, serving.value).Add(spent, 0, spent)];
              serving := None;
            }
          }
        case Serving(key) =>
          serving := Some(key);
      }
    }

    method Finish(func: string, wall: nat)
      modifies this
      ensures Now() == FinishCall(old(Now()), func, wall)
    {
      var host := hostNanos;
      var guest := if host <= wasmNanos then wasmNanos - host else 0;
      total := total.Add(wall, guest, host);
      exports := exports[func := Row(exports, func).Add(wall, guest, host)];
      ResetCall();
    }

    method ResetCall()
      modifies this
      ensures Now() == old(Now()).(win := CLOSED)
    {
      wasmDepth, wasmSince, wasmNanos := 0, None, 0;
      hostDepth, hostSince, hostNanos := 0, None, 0;
      serving := None;
    }

    method AddWave(func: string, nanos: nat)
      modifies this
      ensures Now() == AddWaveTo(old(Now()), func, nanos)
    {
      total := total.AddWave(nanos);
      if func in exports {
        exports := exports[func := exports[func].AddWave(nanos)];
      }
    }
  }
}
