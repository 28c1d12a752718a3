/**
  The life of plugins under one host: loads, calls, and reloads that replace a running plugin or leave
  it as it was.

  What the guest and the toolchain do is not constrained: how a build, a call or a state hook turns
  out is part of the step. The functions say what each operation does to the state and the audit
  trail; the classes do it in place.
  */
module Lifecycle {
  import opened Wrappers
  import opened Imports

  type Bytes = seq<int>

  datatype Kind = Load | Reload

  /** What a host was built with, and the parts of the world it relies on. */
  datatype Policy = Policy(
    keys: seq<string>,
    permissions: Permissions,
    provided: set<string>,
    fuel: Option<nat>,
    auditing: bool,
    verify: (Bytes, Bytes) -> bool,
    importsOf: Bytes -> seq<ComponentImport>,
    sha256: Bytes -> string
  )

  datatype Failure =
    | NoSignature
    | SignatureInvalid
    | CompileFailed
    | NotGranted(imports: seq<string>)
    | SubstitutionFailed
    | InstantiationFailed
    | NoSuchExport
    | BadArguments
    | CannotArm
    | CallFailed
    | BadHook
    | StateTypesDiffer

  datatype AuditEvent =
    | ImportDecided(plugin: string, decision: Decision)
    | Loaded(plugin: string, sha256: string, imports: nat)
    | LoadedUnverified(plugin: string, sha256: string)
    | LoadRefused(plugin: string, sha256: string, culprit: Option<Decision>, reason: Failure)
    | Reloaded(plugin: string, sha256: string, reloads: nat)
    | ReloadRefused(plugin: string, sha256: string, culprit: Option<Decision>, reason: Failure)
  {
    predicate IsVerdict() {
      Loaded? || LoadRefused? || Reloaded? || ReloadRefused?
    }
  }

  datatype Counters = Counters(calls: nat, fuelConsumed: nat, logMessages: nat, logBytes: nat, reloads: nat)

  const ZERO := Counters(0, 0, 0, 0, 0)

  /** A plugin as it runs: its identity, its code, what that was granted, and its totals. */
  datatype Running = Running(
    name: string,
    wasm: Bytes,
    signature: Option<Bytes>,
    sha256: string,
    decisions: seq<Decision>,
    counters: Counters,
    peak: nat
  )

  // ---------------------------------------------------------------------------------------------
  // What happens outside
  // ---------------------------------------------------------------------------------------------

  /** How compiling, expanding the manifest and instantiating turn out; `grewTo` is memory granted on the way. */
  datatype Building = Building(compiles: bool, expands: bool, instantiates: bool, grewTo: nat)

  /** How one call turns out, from looking the export up to returning. */
  datatype Calling = Calling(
    exported: bool, fits: bool, arms: bool, fuelLeft: nat, messages: nat, bytes: nat, grewTo: nat, succeeds: bool)

  /** `save-state` and `restore-state`, as an instance exports them. */
  datatype Hook = NoHook | WrongShape | Hook(stateType: string, calling: Calling)

  // ---------------------------------------------------------------------------------------------
  // Building
  // ---------------------------------------------------------------------------------------------

  function CheckSignature(policy: Policy, wasm: Bytes, signature: Option<Bytes>): Result<(), Failure> {
    if policy.keys == [] then Ok(())
    else
      match signature
      case None => Err(NoSignature)
      case Some(sig) => if policy.verify(wasm, sig) then Ok(()) else Err(SignatureInvalid)
  }

  function Refused(kind: Kind, name: string, sha256: string, culprit: Option<Decision>, reason: Failure): AuditEvent {
    match kind
    case Load => LoadRefused(name, sha256, culprit, reason)
    case Reload => ReloadRefused(name, sha256, culprit, reason)
  }

  function Decided(name: string, decisions: seq<Decision>): (events: seq<AuditEvent>)
    ensures |events| == |decisions|
  {
    seq(|decisions|, i requires 0 <= i < |decisions| => ImportDecided(name, decisions[i]))
  }

  function Denied(decisions: seq<Decision>): (denied: seq<Decision>)
    ensures denied == [] <==> IsSatisfied(decisions)
  {
    if decisions == [] then []
    else
      assert IsSatisfied(decisions) <==> decisions[0].granted && IsSatisfied(decisions[1..]) by {
        assert decisions == [decisions[0]] + decisions[1..];
      }
      (if decisions[0].granted then [] else [decisions[0]]) + Denied(decisions[1..])
  }

  function Names(decisions: seq<Decision>): seq<string> {
    seq(|decisions|, i requires 0 <= i < |decisions| => decisions[i].name)
  }

  /** The digest, computed only when somebody listens. */
  function Digest(policy: Policy, wasm: Bytes): string {
    if policy.auditing then policy.sha256(wasm) else ""
  }

  function Fresh(policy: Policy, name: string, wasm: Bytes, signature: Option<Bytes>, b: Building): Running {
    Running(name, wasm, signature, Digest(policy, wasm),
            Check(policy.importsOf(wasm), policy.permissions, policy.provided), ZERO, b.grewTo)
  }

  /** From bytes to a running plugin, and everything said about it on the way. */
  function Instantiate(policy: Policy, name: string, wasm: Bytes, kind: Kind, signature: Option<Bytes>, b: Building)
    : (Result<Running, Failure>, seq<AuditEvent>)
  {
    var sha := Digest(policy, wasm);
    match CheckSignature(policy, wasm, signature)
    case Err(e) => (Err(e), [Refused(kind, name, sha, None, e)])
    case Ok(_) =>
      if !b.compiles then (Err(CompileFailed), [Refused(kind, name, sha, None, CompileFailed)])
      else
        var decisions := Check(policy.importsOf(wasm), policy.permissions, policy.provided);
        var said := Decided(name, decisions);
        if !IsSatisfied(decisions) then
          var e := NotGranted(Names(Denied(decisions)));
          (Err(e), said + [Refused(kind, name, sha, Some(Denied(decisions)[0]), e)])
        else if !b.expands then (Err(SubstitutionFailed), said + [Refused(kind, name, sha, None, SubstitutionFailed)])
        else if !b.instantiates then
          (Err(InstantiationFailed), said + [Refused(kind, name, sha, None, InstantiationFailed)])
        else
          (Ok(Fresh(policy, name, wasm, signature, b)),
           said
           + (if kind.Load? then [Loaded(name, sha, |decisions|)] else [])
           + (if policy.keys == [] then [LoadedUnverified(name, sha)] else []))
  }

  lemma {:induction false} BuiltNamed(
    policy: Policy, name: string, wasm: Bytes, kind: Kind, signature: Option<Bytes>, b: Building)
    ensures var built := Instantiate(policy, name, wasm, kind, signature, b).0;
            built.Ok? ==> built.value.name == name
  {
  }

  function Heard(policy: Policy, events: seq<AuditEvent>): seq<AuditEvent> {
    if policy.auditing then events else []
  }

  lemma {:induction false} HeardConcat(policy: Policy, a: seq<AuditEvent>, b: seq<AuditEvent>)
    ensures Heard(policy, a + b) == Heard(policy, a) + Heard(policy, b)
  {
  }

  // ---------------------------------------------------------------------------------------------
  // Calling
  // ---------------------------------------------------------------------------------------------

  function Max(a: nat, b: nat): nat {
    if a <= b then b else a
  }

  function Burned(fuel: Option<nat>, left: nat): nat {
    match fuel
    case None => 0
    case Some(budget) => if left <= budget then budget - left else 0
  }

  function AfterSettling(policy: Policy, counters: Counters, c: Calling): Counters {
    counters.(
      calls := counters.calls + 1,
      fuelConsumed := counters.fuelConsumed + Burned(policy.fuel, c.fuelLeft),
      logMessages := counters.logMessages + c.messages,
      logBytes := counters.logBytes + c.bytes)
  }

  /** One call: an error before the guest is entered leaves the totals alone, any other settles them. */
  function AfterCall(policy: Policy, r: Running, c: Calling): (Running, Result<(), Failure>) {
    if !c.exported then (r, Err(NoSuchExport))
    else if !c.fits then (r, Err(BadArguments))
    else if !c.arms then (r, Err(CannotArm))
    else
      (r.(counters := AfterSettling(policy, r.counters, c), peak := Max(r.peak, c.grewTo)),
       if c.succeeds then Ok(()) else Err(CallFailed))
  }

  // ---------------------------------------------------------------------------------------------
  // Reloading
  // ---------------------------------------------------------------------------------------------

  /** Call the hook that gives up the state: the type of what it gave, if there is a hook. */
  function AfterSave(policy: Policy, r: Running, hook: Hook): (Running, Result<Option<string>, Failure>) {
    match hook
    case NoHook => (r, Ok(None))
    case WrongShape => (r, Err(BadHook))
    case Hook(stateType, calling) =>
      var (r', outcome) := AfterCall(policy, r, calling);
      (r', match outcome case Ok(_) => Ok(Some(stateType)) case Err(e) => Err(e))
  }

  /** Hand the saved state over: refused when it is of another type, a call of the hook otherwise. */
  function AfterRestore(policy: Policy, r: Running, saved: string, hook: Hook): (Running, Result<bool, Failure>) {
    match hook
    case NoHook => (r, Ok(false))
    case WrongShape => (r, Err(BadHook))
    case Hook(stateType, calling) =>
      if stateType != saved then (r, Err(StateTypesDiffer))
      else
        var (r', outcome) := AfterCall(policy, r, calling);
        (r', match outcome case Ok(_) => Ok(true) case Err(e) => Err(e))
  }

  /** What the replacement goes on with: totals added up, one reload more, the higher peak. */
  function TakingOver(replacement: Running, previous: Running): Running {
    replacement.(
      counters := Counters(
        replacement.counters.calls + previous.counters.calls,
        replacement.counters.fuelConsumed + previous.counters.fuelConsumed,
        replacement.counters.logMessages + previous.counters.logMessages,
        replacement.counters.logBytes + previous.counters.logBytes,
        previous.counters.reloads + 1),
      peak := Max(replacement.peak, previous.peak))
  }

  datatype Report = Report(stateSaved: bool, stateRestored: bool, reloads: nat)

  /** What a reload is attempted with, and how everything outside turns out. */
  datatype Reloading = Reloading(wasm: Bytes, signature: Option<Bytes>, building: Building, save: Hook, restore: Hook)

  function AfterReload(policy: Policy, r: Running, x: Reloading): (Running, Result<Report, Failure>, seq<AuditEvent>) {
    var (built, said) := Instantiate(policy, r.name, x.wasm, Reload, x.signature, x.building);
    match built
    case Err(e) => (r, Err(e), said)
    case Ok(replacement) =>
      var (old', saved) := AfterSave(policy, r, x.save);
      match saved
      case Err(e) => (old', Err(e), said + [ReloadRefused(r.name, replacement.sha256, None, e)])
      case Ok(state) =>
        var (replacement', restored) :=
          if state.None? then (replacement, Ok(false)) else AfterRestore(policy, replacement, state.value, x.restore);
        match restored
        case Err(e) => (old', Err(e), said + [ReloadRefused(r.name, replacement.sha256, None, e)])
        case Ok(wasRestored) =>
          var next := TakingOver(replacement', old');
          (next, Ok(Report(state.Some?, wasRestored, next.counters.reloads)),
           said + [Reloaded(r.name, replacement.sha256, next.counters.reloads)])
  }

  // ---------------------------------------------------------------------------------------------
  // In place
  // ---------------------------------------------------------------------------------------------

  class Host {
    const policy: Policy
    var trail: seq<AuditEvent>

    constructor (policy: Policy)
      ensures this.policy == policy && trail == []
    {
      this.policy := policy;
      trail := [];
    }

    method OnEvent(event: AuditEvent)
      modifies this
      ensures trail == old(trail) + Heard(policy, [event])
    {
      if policy.auditing {
        trail := trail + [event];
      }
    }

    method Refuse(kind: Kind, name: string, sha256: string, culprit: Option<Decision>, reason: Failure)
      modifies this
      ensures trail == old(trail) + Heard(policy, [Refused(kind, name, sha256, culprit, reason)])
    {
      OnEvent(Refused(kind, name, sha256, culprit, reason));
    }

    method SayDecisions(name: string, decisions: seq<Decision>)
      modifies this
      ensures trail == old(trail) + Heard(policy, Decided(name, decisions))
    {
      for i := 0 to |decisions|
        invariant trail == old(trail) + Heard(policy, Decided(name, decisions[..i]))
      {
        OnEvent(ImportDecided(name, decisions[i]));
        assert Decided(name, decisions[..i + 1]) == Decided(name, decisions[..i]) + [ImportDecided(name, decisions[i])];
      }
      assert decisions[..|decisions|] == decisions;
    }

    /** Build a plugin from bytes, and say every decision on the way. */
    method InstantiatePlugin(name: string, wasm: Bytes, kind: Kind, signature: Option<Bytes>, b: Building)
      returns (r: Result<Plugin, Failure>)
      modifies this
      ensures var (built, said) := Instantiate(policy, name, wasm, kind, signature, b);
              && trail == old(trail) + Heard(policy, said)
              && (built.Err? ==> r == Err(built.error))
              && (built.Ok? ==> r.Ok? && fresh(r.value) && r.value.host == this && r.value.Now() == built.value)
    {
      hide CheckSignature, Check, IsSatisfied, Names, Denied, Digest;
      var sha := Digest(policy, wasm);
      var checked := CheckSignature(policy, wasm, signature);
      if checked.Err? {
        Refuse(kind, name, sha, None, checked.error);
        return Err(checked.error);
      }
      if !b.compiles {
        Refuse(kind, name, sha, None, CompileFailed);
        return Err(CompileFailed);
      }
      var decisions := Check(policy.importsOf(wasm), policy.permissions, policy.provided);
      SayDecisions(name, decisions);
      var denied := Denied(decisions);
      if denied != [] {
        var e := NotGranted(Names(denied));
        Refuse(kind, name, sha, Some(denied[0]), e);
        return Err(e);
      }
      if !b.expands {
        Refuse(kind, name, sha, None, SubstitutionFailed);
        return Err(SubstitutionFailed);
      }
      if !b.instantiates {
        Refuse(kind, name, sha, None, InstantiationFailed);
        return Err(InstantiationFailed);
      }
      var plugin := new Plugin(this, name, wasm, signature, sha, decisions, b.grewTo);
      if kind.Load? {
        OnEvent(Loaded(name, sha, |decisions|));
      }
      if policy.keys == [] {
        OnEvent(LoadedUnverified(name, sha));
      }
      r := Ok(plugin);
    }
  }

  class Plugin {
    const host: Host
    const name: string
    var wasm: Bytes
    ghost var signature: Option<Bytes>
    var sha256: string
    var decisions: seq<Decision>
    var counters: Counters
    var peak: nat

    constructor (
      host: Host, name: string, wasm: Bytes, ghost signature: Option<Bytes>, sha256: string, decisions: seq<Decision>,
      peak: nat)
      ensures this.host == host && Now() == Running(name, wasm, signature, sha256, decisions, ZERO, peak)
    {
      this.host, this.name, this.wasm, this.signature := host, name, wasm, signature;
      this.sha256, this.decisions, this.counters, this.peak := sha256, decisions, ZERO, peak;
    }

    ghost function Now(): Running
      reads this
    {
      Running(name, wasm, signature, sha256, decisions, counters, peak)
    }

    method Settle(c: Calling)
      modifies this`counters
      ensures counters == AfterSettling(host.policy, old(counters), c)
    {
      counters := counters.(
        calls := counters.calls + 1,
        fuelConsumed := counters.fuelConsumed + Burned(host.policy.fuel, c.fuelLeft),
        logMessages := counters.logMessages + c.messages,
        logBytes := counters.logBytes + c.bytes);
    }

    method Call(c: Calling) returns (r: Result<(), Failure>)
      modifies this`counters, this`peak
      ensures (Now(), r) == AfterCall(host.policy, old(Now()), c)
    {
      if !c.exported {
        return Err(NoSuchExport);
      }
      if !c.fits {
        return Err(BadArguments);
      }
      if !c.arms {
        return Err(CannotArm);
      }
      if peak < c.grewTo {
        peak := c.grewTo;
      }
      Settle(c);
      r := if c.succeeds then Ok(()) else Err(CallFailed);
    }

    method SaveState(hook: Hook) returns (saved: Result<Option<string>, Failure>)
      modifies this`counters, this`peak
      ensures (Now(), saved) == AfterSave(host.policy, old(Now()), hook)
    {
      match hook {
        case NoHook => saved := Ok(None);
        case WrongShape => saved := Err(BadHook);
        case Hook(stateType, calling) =>
          var outcome := Call(calling);
          saved := if outcome.Ok? then Ok(Some(stateType)) else Err(outcome.error);
      }
    }

    method RestoreState(saved: string, hook: Hook) returns (restored: Result<bool, Failure>)
      modifies this`counters, this`peak
      ensures (Now(), restored) == AfterRestore(host.policy, old(Now()), saved, hook)
    {
      match hook {
        case NoHook => restored := Ok(false);
        case WrongShape => restored := Err(BadHook);
        case Hook(stateType, calling) =>
          if stateType != saved {
            return Err(StateTypesDiffer);
          }
          var outcome := Call(calling);
          restored := if outcome.Ok? then Ok(true) else Err(outcome.error);
      }
    }

    method Inherit(previous: Plugin)
      requires previous != this
      modifies this`counters, this`peak
      ensures Now() == TakingOver(old(Now()), previous.Now())
    {
      counters := Counters(
        counters.calls + previous.counters.calls,
        counters.fuelConsumed + previous.counters.fuelConsumed,
        counters.logMessages + previous.counters.logMessages,
        counters.logBytes + previous.counters.logBytes,
        previous.counters.reloads + 1);
      if peak < previous.peak {
        peak := previous.peak;
      }
    }

    /** Replace the code, or report why not and stay. */
    method ReloadWith(x: Reloading) returns (r: Result<Report, Failure>)
      modifies this, host
      ensures var (now, outcome, said) := AfterReload(host.policy, old(Now()), x);
              && Now() == now && r == outcome
              && host.trail == old(host.trail) + Heard(host.policy, said)
    {
      hide Instantiate, AfterSave, AfterRestore, Heard;
      ghost var (expected, said) := Instantiate(host.policy, name, x.wasm, Reload, x.signature, x.building);
      BuiltNamed(host.policy, name, x.wasm, Reload, x.signature, x.building);
      var built := host.InstantiatePlugin(name, x.wasm, Reload, x.signature, x.building);
      if built.Err? {
        assert expected == Err(built.error);
        return Err(built.error);
      }
      var next := built.value;
      var saved := SaveState(x.save);
      if saved.Err? {
        host.OnEvent(ReloadRefused(name, next.sha256, None, saved.error));
        HeardConcat(host.policy, said, [ReloadRefused(name, next.sha256, None, saved.error)]);
        return Err(saved.error);
      }
      var restored: Result<bool, Failure> := Ok(false);
      if saved.value.Some? {
        restored := next.RestoreState(saved.value.value, x.restore);
      }
      if restored.Err? {
        host.OnEvent(ReloadRefused(name, next.sha256, None, restored.error));
        HeardConcat(host.policy, said, [ReloadRefused(name, next.sha256, None, restored.error)]);
        return Err(restored.error);
      }
      next.Inherit(this);
      wasm, signature, sha256, decisions := next.wasm, next.signature, next.sha256, next.decisions;
      counters, peak := next.counters, next.peak;
      host.OnEvent(Reloaded(name, sha256, counters.reloads));
      HeardConcat(host.policy, said, [Reloaded(name, sha256, counters.reloads)]);
      r := Ok(Report(saved.value.Some?, restored.value, counters.reloads));
    }
  }
}
