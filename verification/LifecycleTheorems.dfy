/** What every run of loads, calls and reloads keeps, whatever fails along the way. */
module LifecycleTheorems {
  import opened Wrappers
  import opened Imports
  import opened Lifecycle

  // ---------------------------------------------------------------------------------------------
  // Runs
  // ---------------------------------------------------------------------------------------------

  /** The plugins loaded so far, and the audit trail. */
  datatype World = World(plugins: seq<Running>, trail: seq<AuditEvent>)

  datatype Op =
    | LoadOp(name: string, wasm: Bytes, signature: Option<Bytes>, building: Building)
    | CallOp(i: nat, calling: Calling)
    | ReloadOp(i: nat, reloading: Reloading)

  predicate Applies(w: World, op: Op) {
    op.LoadOp? || op.i < |w.plugins|
  }

  function Step(policy: Policy, w: World, op: Op): (after: World)
    requires Applies(w, op)
    ensures |w.plugins| <= |after.plugins|
  {
    match op
    case LoadOp(name, wasm, signature, building) =>
      var (built, said) := Instantiate(policy, name, wasm, Load, signature, building);
      World(w.plugins + (if built.Ok? then [built.value] else []), w.trail + Heard(policy, said))
    case CallOp(i, calling) =>
      w.(plugins := w.plugins[i := AfterCall(policy, w.plugins[i], calling).0])
    case ReloadOp(i, reloading) =>
      var (after, _, said) := AfterReload(policy, w.plugins[i], reloading);
      World(w.plugins[i := after], w.trail + Heard(policy, said))
  }

  /** An operation on a plugin not yet loaded passes. */
  function Run(policy: Policy, w: World, ops: seq<Op>): (after: World)
    ensures |w.plugins| <= |after.plugins|
    decreases |ops|
  {
    if ops == [] then w
    else Run(policy, if Applies(w, ops[0]) then Step(policy, w, ops[0]) else w, ops[1..])
  }

  const NOBODY := World([], [])

  // ---------------------------------------------------------------------------------------------
  // What runs has been granted and verified
  // ---------------------------------------------------------------------------------------------

  /** A signature was asked for only where keys are configured, and then verified. */
  predicate Trusted(policy: Policy, wasm: Bytes, signature: Option<Bytes>) {
    policy.keys == [] || (signature.Some? && policy.verify(wasm, signature.value))
  }

  predicate AllAllowed(policy: Policy, wasm: Bytes) {
    var imports := policy.importsOf(wasm);
    forall i | 0 <= i < |imports| :: Allowed(imports[i], policy.permissions, policy.provided)
  }

  /**
    Every import of the code running now is one the manifest lets in by its name, and its bytes verify
    wherever keys are configured.
    */
  predicate Vouched(policy: Policy, r: Running) {
    && r.decisions == Check(policy.importsOf(r.wasm), policy.permissions, policy.provided)
    && AllAllowed(policy, r.wasm)
    && Trusted(policy, r.wasm, r.signature)
    && r.sha256 == Digest(policy, r.wasm)
  }

  lemma {:induction false} BuiltVouched(
    policy: Policy, name: string, wasm: Bytes, kind: Kind, signature: Option<Bytes>, b: Building)
    ensures var built := Instantiate(policy, name, wasm, kind, signature, b).0;
            built.Ok? ==>
              && Vouched(policy, built.value)
              && built.value.name == name && built.value.wasm == wasm && built.value.counters == ZERO
  {
    SatisfiedByName(policy.importsOf(wasm), policy.permissions, policy.provided);
    hide Check, Allowed, Digest;
  }

  /**
    What a build takes, exactly, and what fails first: bytes that do not verify are not even compiled. Code
    nobody vouched for is said to be, whenever it gets to run.
    */
  lemma {:induction false} BuildsExactly(
    policy: Policy, name: string, wasm: Bytes, kind: Kind, signature: Option<Bytes>, b: Building)
    ensures var (built, said) := Instantiate(policy, name, wasm, kind, signature, b);
            && (built.Ok? <==>
                  && Trusted(policy, wasm, signature) && b.compiles
                  && AllAllowed(policy, wasm) && b.expands && b.instantiates)
            && (!Trusted(policy, wasm, signature) ==>
                  built == Err(if signature.None? then NoSignature else SignatureInvalid))
            && (Trusted(policy, wasm, signature) && !b.compiles ==> built == Err(CompileFailed))
            && (built.Err? && built.error.SubstitutionFailed? ==> AllAllowed(policy, wasm) && !b.expands)
            && (built.Err? && built.error.InstantiationFailed? ==> AllAllowed(policy, wasm) && b.expands)
            && (LoadedUnverified(name, Digest(policy, wasm)) in said <==> built.Ok? && policy.keys == [])
  {
    SatisfiedByName(policy.importsOf(wasm), policy.permissions, policy.provided);
    hide Check, Allowed, Digest, Denied, Names;
  }

  /** Some import of the code has the name and is not let in. */
  predicate Culpable(policy: Policy, wasm: Bytes, name: string) {
    var imports := policy.importsOf(wasm);
    exists i | 0 <= i < |imports| ::
      imports[i].name == name && !Allowed(imports[i], policy.permissions, policy.provided)
  }

  lemma {:induction false} DeniedNames(decisions: seq<Decision>, name: string)
    ensures name in Names(Denied(decisions)) <==>
              exists i | 0 <= i < |decisions| :: decisions[i].name == name && !decisions[i].granted
  {
    if decisions != [] {
      var rest := decisions[1..];
      DeniedNames(rest, name);
      assert decisions == [decisions[0]] + rest;
      if decisions[0].granted {
        assert Denied(decisions) == Denied(rest);
      } else {
        assert Names(Denied(decisions)) == [decisions[0].name] + Names(Denied(rest));
      }
    }
  }

  lemma {:induction false} FirstDenied(decisions: seq<Decision>) returns (k: nat)
    requires Denied(decisions) != []
    ensures k < |decisions| && Denied(decisions)[0] == decisions[k] && !decisions[k].granted
    ensures forall j | 0 <= j < k :: decisions[j].granted
  {
    if decisions[0].granted {
      var rest := FirstDenied(decisions[1..]);
      k := rest + 1;
      assert forall j | 1 <= j <= k :: decisions[j] == decisions[1..][j - 1];
    } else {
      k := 0;
    }
  }

  lemma {:induction false} CulpableNames(policy: Policy, wasm: Bytes, name: string)
    ensures name in Names(Denied(Check(policy.importsOf(wasm), policy.permissions, policy.provided))) <==>
              Culpable(policy, wasm, name)
  {
    hide Allowed, Decide;
    var imports := policy.importsOf(wasm);
    var decisions := Check(imports, policy.permissions, policy.provided);
    DeniedNames(decisions, name);
    forall i | 0 <= i < |imports|
      ensures decisions[i].granted <==> Allowed(imports[i], policy.permissions, policy.provided)
      ensures decisions[i].name == imports[i].name
    {
      DecidedByName(imports[i], policy.permissions, policy.provided);
    }
  }

  /** Imports not let in, and nothing else, refuse code that verifies and compiles; it names all of them. */
  lemma {:induction false} RefusedByName(
    policy: Policy, name: string, wasm: Bytes, kind: Kind, signature: Option<Bytes>, b: Building)
    requires b.compiles && Trusted(policy, wasm, signature)
    ensures var built := Instantiate(policy, name, wasm, kind, signature, b).0;
            && (built.Err? && built.error.NotGranted? <==> !AllAllowed(policy, wasm))
            && (built.Err? && built.error.NotGranted? ==>
                  forall n :: n in built.error.imports <==> Culpable(policy, wasm, n))
  {
    hide Check, Allowed, Digest, Denied, Names, Culpable;
    SatisfiedByName(policy.importsOf(wasm), policy.permissions, policy.provided);
    forall n: string
      ensures n in Names(Denied(Check(policy.importsOf(wasm), policy.permissions, policy.provided))) <==>
                Culpable(policy, wasm, n)
    {
      CulpableNames(policy, wasm, n);
    }
  }

  /** The call got past the host's own checks, into the guest. */
  predicate Entered(c: Calling) {
    c.exported && c.fits && c.arms
  }

  /** A call keeps the code and raises the totals, trapped or not; one that is not entered keeps everything. */
  lemma {:induction false} CallKeepsCode(policy: Policy, r: Running, c: Calling)
    ensures var after := AfterCall(policy, r, c).0;
            after == r.(counters := after.counters, peak := after.peak) && Grows(r, after)
            && after.counters.reloads == r.counters.reloads
            && (!Entered(c) ==> after == r && AfterCall(policy, r, c).1.Err?)
            && after.counters.calls == r.counters.calls + if Entered(c) then 1 else 0
  {
  }

  /** The totals and the high-water mark of a plugin only ever rise. */
  predicate Grows(before: Running, after: Running) {
    && before.counters.calls <= after.counters.calls
    && before.counters.fuelConsumed <= after.counters.fuelConsumed
    && before.counters.logMessages <= after.counters.logMessages
    && before.counters.logBytes <= after.counters.logBytes
    && before.counters.reloads <= after.counters.reloads
    && before.peak <= after.peak
  }

  lemma {:induction false} HooksKeepCode(policy: Policy, r: Running, hook: Hook, saved: string)
    ensures var after := AfterSave(policy, r, hook).0;
            after == r.(counters := after.counters, peak := after.peak) && Grows(r, after)
            && after.counters.reloads == r.counters.reloads
    ensures var after := AfterRestore(policy, r, saved, hook).0;
            after == r.(counters := after.counters, peak := after.peak) && Grows(r, after)
            && after.counters.reloads == r.counters.reloads
  {
    hide AfterCall, Grows;
    GrowsItself(r);
    if hook.Hook? {
      CallKeepsCode(policy, r, hook.calling);
    }
  }

  lemma {:induction false} GrowsItself(r: Running)
    ensures Grows(r, r)
  {
  }

  lemma {:induction false} TakeoverGrows(replacement: Running, previous: Running)
    ensures var next := TakingOver(replacement, previous);
            && Grows(previous, next) && next.counters.reloads == previous.counters.reloads + 1
            && next == replacement.(counters := next.counters, peak := next.peak)
  {
  }

  /**
    A reload either runs the new bytes, checked as a load would have checked them, one reload further
    on; or leaves the plugin the code, the grants and the reload count it had.
    */
  lemma {:induction false} ReloadReplacesOrKeeps(policy: Policy, r: Running, x: Reloading)
    ensures var (after, outcome, _) := AfterReload(policy, r, x);
            && after.name == r.name && Grows(r, after)
            && match outcome
               case Ok(report) =>
                 && after.wasm == x.wasm && Vouched(policy, after)
                 && after.counters.reloads == r.counters.reloads + 1 == report.reloads
               case Err(_) =>
                 && after == r.(counters := after.counters, peak := after.peak)
                 && after.counters.reloads == r.counters.reloads
  {
    hide Instantiate, AfterSave, AfterRestore, TakingOver, Vouched, Grows;
    GrowsItself(r);
    BuiltVouched(policy, r.name, x.wasm, Reload, x.signature, x.building);
    var built := Instantiate(policy, r.name, x.wasm, Reload, x.signature, x.building).0;
    if built.Ok? {
      HooksKeepCode(policy, r, x.save, "");
      var (old', saved) := AfterSave(policy, r, x.save);
      if saved.Ok? {
        var state := if saved.value.Some? then saved.value.value else "";
        HooksKeepCode(policy, built.value, x.restore, state);
        var restored := AfterRestore(policy, built.value, state, x.restore).0;
        var replacement := if saved.value.Some? then restored else built.value;
        TakeoverGrows(replacement, old');
        TotalsDoNotVouch(policy, built.value, TakingOver(replacement, old'));
        GrowsOn(r, old', TakingOver(replacement, old'));
      }
    }
  }

  lemma {:induction false} TotalsDoNotVouch(policy: Policy, a: Running, b: Running)
    requires Vouched(policy, a) && b == a.(counters := b.counters, peak := b.peak)
    ensures Vouched(policy, b)
  {
    hide Check, Digest, IsSatisfied;
  }

  lemma {:induction false} GrowsOn(a: Running, b: Running, c: Running)
    requires Grows(a, b) && Grows(b, c)
    ensures Grows(a, c)
  {
  }

  /** A replacement that cannot even be built leaves everything as it was, totals included. */
  lemma {:induction false} RefusedReplacementTouchesNothing(policy: Policy, r: Running, x: Reloading)
    requires Instantiate(policy, r.name, x.wasm, Reload, x.signature, x.building).0.Err?
    ensures AfterReload(policy, r, x).0 == r
  {
  }

  /** The state hooks are ordinary calls: a reload that succeeds adds exactly the ones it made. */
  lemma {:induction false} ReloadCountsItsCalls(policy: Policy, r: Running, x: Reloading)
    requires AfterReload(policy, r, x).1.Ok?
    ensures var (after, outcome, _) := AfterReload(policy, r, x);
            && after.counters.calls
               == r.counters.calls
                  + (if outcome.value.stateSaved then 1 else 0) + (if outcome.value.stateRestored then 1 else 0)
            && (outcome.value.stateSaved <==> x.save.Hook?)
            && (outcome.value.stateRestored <==> x.save.Hook? && x.restore.Hook?)
            && (outcome.value.stateRestored ==> x.save.stateType == x.restore.stateType)
  {
    hide Instantiate;
    BuiltVouched(policy, r.name, x.wasm, Reload, x.signature, x.building);
  }

  /** The hook is there, is entered, and returns. */
  predicate Answers(h: Hook) {
    h.Hook? && Entered(h.calling) && h.calling.succeeds
  }

  /**
    A reload succeeds exactly when the replacement can be built, the outgoing code gives its state up or
    has no hook to, and the replacement takes a state of that very type or has no hook for one.
    */
  lemma {:induction false} ReloadSucceedsExactly(policy: Policy, r: Running, x: Reloading)
    ensures AfterReload(policy, r, x).1.Ok? <==>
              && Instantiate(policy, r.name, x.wasm, Reload, x.signature, x.building).0.Ok?
              && (x.save.NoHook?
                  || (Answers(x.save)
                      && (x.restore.NoHook?
                          || (Answers(x.restore) && x.restore.stateType == x.save.stateType))))
  {
    hide Instantiate;
  }

  /** A state of another type never reaches the replacement's hook: the reload fails with that reason. */
  lemma {:induction false} OtherTypesStayOut(policy: Policy, r: Running, x: Reloading)
    requires Instantiate(policy, r.name, x.wasm, Reload, x.signature, x.building).0.Ok?
    requires Answers(x.save) && x.restore.Hook? && x.restore.stateType != x.save.stateType
    ensures AfterReload(policy, r, x).1 == Err(StateTypesDiffer)
    ensures AfterReload(policy, r, x).0 == AfterCall(policy, r, x.save.calling).0
  {
    hide Instantiate;
  }

  // ---------------------------------------------------------------------------------------------
  // What it adds up to
  // ---------------------------------------------------------------------------------------------

  /** Calls made, fuel burned, messages logged and their bytes; and the most memory granted. */
  datatype Cost = Cost(calls: nat, fuel: nat, messages: nat, bytes: nat, peak: nat)

  const FREE := Cost(0, 0, 0, 0, 0)

  function Plus(a: Cost, b: Cost): Cost {
    Cost(a.calls + b.calls, a.fuel + b.fuel, a.messages + b.messages, a.bytes + b.bytes, Max(a.peak, b.peak))
  }

  function Totals(r: Running): Cost {
    Cost(r.counters.calls, r.counters.fuelConsumed, r.counters.logMessages, r.counters.logBytes, r.peak)
  }

  /** A call that is entered costs what of the budget is gone after it, if there is one; any other is free. */
  function CallCost(policy: Policy, c: Calling): (cost: Cost)
    ensures policy.fuel.Some? && Entered(c) ==> cost.fuel + c.fuelLeft == Max(policy.fuel.value, c.fuelLeft)
  {
    if !Entered(c) then FREE else Cost(1, Burned(policy.fuel, c.fuelLeft), c.messages, c.bytes, c.grewTo)
  }

  function HookCost(policy: Policy, h: Hook): Cost {
    if h.Hook? then CallCost(policy, h.calling) else FREE
  }

  /**
    A reload costs the outgoing code its hook's call, whether or not it comes through. The replacement's
    own start and hook count once it takes over.
    */
  function ReloadCost(policy: Policy, r: Running, x: Reloading): Cost {
    if Instantiate(policy, r.name, x.wasm, Reload, x.signature, x.building).0.Err? then FREE
    else if AfterReload(policy, r, x).1.Err? then HookCost(policy, x.save)
    else
      Plus(Plus(HookCost(policy, x.save), if x.save.Hook? then HookCost(policy, x.restore) else FREE),
           FREE.(peak := x.building.grewTo))
  }

  lemma {:induction false} CallAddsUp(policy: Policy, r: Running, c: Calling)
    ensures Totals(AfterCall(policy, r, c).0) == Plus(Totals(r), CallCost(policy, c))
  {
  }

  lemma {:induction false} HooksAddUp(policy: Policy, r: Running, hook: Hook, saved: string)
    ensures Totals(AfterSave(policy, r, hook).0) == Plus(Totals(r), HookCost(policy, hook))
    ensures AfterRestore(policy, r, saved, hook).1.Ok? ==>
              Totals(AfterRestore(policy, r, saved, hook).0) == Plus(Totals(r), HookCost(policy, hook))
  {
    hide AfterCall;
    if hook.Hook? {
      CallAddsUp(policy, r, hook.calling);
    }
  }

  lemma {:induction false} TakeoverAddsUp(replacement: Running, previous: Running)
    ensures Totals(TakingOver(replacement, previous)) == Plus(Totals(previous), Totals(replacement))
  {
  }

  lemma {:induction false} BuiltTotals(
    policy: Policy, name: string, wasm: Bytes, kind: Kind, signature: Option<Bytes>, b: Building)
    ensures var built := Instantiate(policy, name, wasm, kind, signature, b).0;
            built.Ok? ==> Totals(built.value) == FREE.(peak := b.grewTo)
  {
  }

  lemma {:induction false} ReloadAddsUp(policy: Policy, r: Running, x: Reloading)
    ensures Totals(AfterReload(policy, r, x).0) == Plus(Totals(r), ReloadCost(policy, r, x))
  {
    hide Instantiate, AfterSave, AfterRestore, TakingOver, HookCost, Totals;
    BuiltTotals(policy, r.name, x.wasm, Reload, x.signature, x.building);
    var built := Instantiate(policy, r.name, x.wasm, Reload, x.signature, x.building).0;
    if built.Ok? {
      HooksAddUp(policy, r, x.save, "");
      var (old', saved) := AfterSave(policy, r, x.save);
      if saved.Ok? {
        SavesByHook(policy, r, x.save);
        var state := if saved.value.Some? then saved.value.value else "";
        HooksAddUp(policy, built.value, x.restore, state);
        var restored := AfterRestore(policy, built.value, state, x.restore).0;
        TakeoverAddsUp(if saved.value.Some? then restored else built.value, old');
      }
    }
  }

  lemma {:induction false} SavesByHook(policy: Policy, r: Running, hook: Hook)
    ensures var saved := AfterSave(policy, r, hook).1; saved.Ok? ==> (saved.value.Some? <==> hook.Hook?)
  {
  }

  ghost predicate AllVouched(policy: Policy, w: World) {
    forall i | 0 <= i < |w.plugins| :: Vouched(policy, w.plugins[i])
  }

  lemma {:induction false} StepVouched(policy: Policy, w: World, op: Op)
    requires Applies(w, op) && AllVouched(policy, w)
    ensures AllVouched(policy, Step(policy, w, op))
  {
    hide Instantiate, AfterCall, AfterReload, Vouched, Heard;
    match op {
      case LoadOp(name, wasm, signature, building) => BuiltVouched(policy, name, wasm, Load, signature, building);
      case CallOp(i, calling) =>
        CallKeepsCode(policy, w.plugins[i], calling);
        TotalsDoNotVouch(policy, w.plugins[i], AfterCall(policy, w.plugins[i], calling).0);
      case ReloadOp(i, reloading) =>
        ReloadReplacesOrKeeps(policy, w.plugins[i], reloading);
        var (after, outcome, _) := AfterReload(policy, w.plugins[i], reloading);
        if outcome.Err? {
          TotalsDoNotVouch(policy, w.plugins[i], after);
        }
    }
  }

  /** In every run, every plugin runs granted imports and, where keys are configured, verified bytes. */
  lemma {:induction false} RunVouched(policy: Policy, w: World, ops: seq<Op>)
    requires AllVouched(policy, w)
    ensures AllVouched(policy, Run(policy, w, ops))
    decreases |ops|
  {
    hide Step;
    if ops != [] {
      if Applies(w, ops[0]) {
        StepVouched(policy, w, ops[0]);
        RunVouched(policy, Step(policy, w, ops[0]), ops[1..]);
      } else {
        RunVouched(policy, w, ops[1..]);
      }
    }
  }

  // ---------------------------------------------------------------------------------------------
  // Totals over a run
  // ---------------------------------------------------------------------------------------------

  /** Reloads of plugin `i` that succeed in a run. */
  function Successes(policy: Policy, w: World, ops: seq<Op>, i: nat): nat
    requires i < |w.plugins|
    decreases |ops|
  {
    if ops == [] then 0
    else if !Applies(w, ops[0]) then Successes(policy, w, ops[1..], i)
    else
      (if ops[0].ReloadOp? && ops[0].i == i && AfterReload(policy, w.plugins[i], ops[0].reloading).1.Ok? then 1 else 0)
      + Successes(policy, Step(policy, w, ops[0]), ops[1..], i)
  }

  lemma {:induction false} StepTotals(policy: Policy, w: World, op: Op, i: nat)
    requires Applies(w, op) && i < |w.plugins|
    ensures var after := Step(policy, w, op).plugins[i];
            && after.name == w.plugins[i].name && Grows(w.plugins[i], after)
            && after.counters.reloads == w.plugins[i].counters.reloads
               + (if op.ReloadOp? && op.i == i && AfterReload(policy, w.plugins[i], op.reloading).1.Ok? then 1 else 0)
  {
    hide Instantiate, AfterCall, AfterReload, Grows, Vouched;
    GrowsItself(w.plugins[i]);
    match op {
      case LoadOp(_, _, _, _) =>
      case CallOp(j, calling) => CallKeepsCode(policy, w.plugins[j], calling);
      case ReloadOp(j, reloading) => ReloadReplacesOrKeeps(policy, w.plugins[j], reloading);
    }
  }

  /** Over a run a plugin keeps its name, its totals never fall, and `reloads` counts exactly the successes. */
  lemma {:induction false} RunTotals(policy: Policy, w: World, ops: seq<Op>, i: nat)
    requires i < |w.plugins|
    ensures var after := Run(policy, w, ops).plugins[i];
            && after.name == w.plugins[i].name && Grows(w.plugins[i], after)
            && after.counters.reloads == w.plugins[i].counters.reloads + Successes(policy, w, ops, i)
    decreases |ops|
  {
    hide Step, AfterReload, Grows;
    if ops == [] {
      GrowsItself(w.plugins[i]);
    } else if Applies(w, ops[0]) {
      var next := Step(policy, w, ops[0]);
      StepTotals(policy, w, ops[0], i);
      RunTotals(policy, next, ops[1..], i);
      GrowsOn(w.plugins[i], next.plugins[i], Run(policy, next, ops[1..]).plugins[i]);
    } else {
      RunTotals(policy, w, ops[1..], i);
    }
  }

  /** What an operation costs plugin `i`. */
  function OpCost(policy: Policy, w: World, op: Op, i: nat): Cost
    requires Applies(w, op) && i < |w.plugins|
  {
    match op
    case LoadOp(_, _, _, _) => FREE
    case CallOp(j, calling) => if j == i then CallCost(policy, calling) else FREE
    case ReloadOp(j, reloading) => if j == i then ReloadCost(policy, w.plugins[i], reloading) else FREE
  }

  function RunCost(policy: Policy, w: World, ops: seq<Op>, i: nat): Cost
    requires i < |w.plugins|
    decreases |ops|
  {
    if ops == [] then FREE
    else if !Applies(w, ops[0]) then RunCost(policy, w, ops[1..], i)
    else Plus(OpCost(policy, w, ops[0], i), RunCost(policy, Step(policy, w, ops[0]), ops[1..], i))
  }

  lemma {:induction false} StepAddsUp(policy: Policy, w: World, op: Op, i: nat)
    requires Applies(w, op) && i < |w.plugins|
    ensures Totals(Step(policy, w, op).plugins[i]) == Plus(Totals(w.plugins[i]), OpCost(policy, w, op, i))
  {
    hide Instantiate, AfterCall, AfterReload, CallCost, ReloadCost;
    match op {
      case LoadOp(_, _, _, _) =>
      case CallOp(j, calling) => CallAddsUp(policy, w.plugins[j], calling);
      case ReloadOp(j, reloading) => ReloadAddsUp(policy, w.plugins[j], reloading);
    }
  }

  lemma {:induction false} PlusPlus(a: Cost, b: Cost, c: Cost)
    ensures Plus(a, Plus(b, c)) == Plus(Plus(a, b), c) && Plus(a, FREE) == a
  {
  }

  /** Nothing is lost and nothing counted twice: a plugin's totals are what its calls and hooks have cost. */
  lemma {:induction false} RunAddsUp(policy: Policy, w: World, ops: seq<Op>, i: nat)
    requires i < |w.plugins|
    ensures Totals(Run(policy, w, ops).plugins[i]) == Plus(Totals(w.plugins[i]), RunCost(policy, w, ops, i))
    decreases |ops|
  {
    hide Step, OpCost, Totals, Plus;
    if ops == [] {
      PlusPlus(Totals(w.plugins[i]), FREE, FREE);
    } else if Applies(w, ops[0]) {
      var next := Step(policy, w, ops[0]);
      StepAddsUp(policy, w, ops[0], i);
      RunAddsUp(policy, next, ops[1..], i);
      PlusPlus(Totals(w.plugins[i]), OpCost(policy, w, ops[0], i), RunCost(policy, next, ops[1..], i));
    } else {
      RunAddsUp(policy, w, ops[1..], i);
    }
  }

  // ---------------------------------------------------------------------------------------------
  // The audit trail
  // ---------------------------------------------------------------------------------------------

  function Verdicts(events: seq<AuditEvent>): seq<AuditEvent> {
    if events == [] then []
    else (if events[0].IsVerdict() then [events[0]] else []) + Verdicts(events[1..])
  }

  lemma {:induction false} VerdictsConcat(a: seq<AuditEvent>, b: seq<AuditEvent>)
    ensures Verdicts(a + b) == Verdicts(a) + Verdicts(b)
  {
    if a == [] {
      assert a + b == b;
    } else {
      assert (a + b)[1..] == a[1..] + b;
      VerdictsConcat(a[1..], b);
    }
  }

  lemma {:induction false} DecisionsAreNoVerdicts(name: string, decisions: seq<Decision>)
    ensures Verdicts(Decided(name, decisions)) == []
  {
    if decisions != [] {
      assert Decided(name, decisions)[1..] == Decided(name, decisions[1..]);
      DecisionsAreNoVerdicts(name, decisions[1..]);
    }
  }

  lemma {:induction false} OneEvent(e: AuditEvent)
    ensures Verdicts([e]) == if e.IsVerdict() then [e] else []
  {
    assert [e][1..] == [];
    assert Verdicts([e][1..]) == [];
  }

  /** The import a refusal names: the first one denied, and only when that is why. */
  function Culprit(policy: Policy, wasm: Bytes, reason: Failure): Option<Decision> {
    var denied := Denied(Check(policy.importsOf(wasm), policy.permissions, policy.provided));
    if reason.NotGranted? && denied != [] then Some(denied[0]) else None
  }

  /** Before any verdict on code that verifies and compiles, each import is said to be let in or not, in order. */
  lemma {:induction false} DecisionsSaid(
    policy: Policy, name: string, wasm: Bytes, kind: Kind, signature: Option<Bytes>, b: Building, i: nat)
    requires b.compiles && Trusted(policy, wasm, signature) && i < |policy.importsOf(wasm)|
    ensures var said := Instantiate(policy, name, wasm, kind, signature, b).1;
            var imp := policy.importsOf(wasm)[i];
            && i < |said| && said[i].ImportDecided? && said[i].plugin == name && said[i].decision.name == imp.name
            && (said[i].decision.granted <==> Allowed(imp, policy.permissions, policy.provided))
  {
    hide Allowed, Decide, Digest, Denied, Names, IsSatisfied;
    DecidedByName(policy.importsOf(wasm)[i], policy.permissions, policy.provided);
  }

  /** It is the first of the imports that is not let in. */
  lemma {:induction false} CulpritIsFirst(policy: Policy, wasm: Bytes, reason: Failure) returns (k: nat)
    requires reason.NotGranted? && !AllAllowed(policy, wasm)
    ensures k < |policy.importsOf(wasm)| && Culprit(policy, wasm, reason).Some?
    ensures var imp := policy.importsOf(wasm)[k];
            Culprit(policy, wasm, reason).value.name == imp.name && !Allowed(imp, policy.permissions, policy.provided)
    ensures forall j | 0 <= j < k :: Allowed(policy.importsOf(wasm)[j], policy.permissions, policy.provided)
  {
    hide Allowed, Decide;
    var imports := policy.importsOf(wasm);
    SatisfiedByName(imports, policy.permissions, policy.provided);
    k := FirstDenied(Check(imports, policy.permissions, policy.provided));
    forall j | 0 <= j <= k
      ensures Decide(imports[j], policy.permissions, policy.provided).granted
           == Allowed(imports[j], policy.permissions, policy.provided)
    {
      DecidedByName(imports[j], policy.permissions, policy.provided);
    }
  }

  /** Building says its one verdict when it refuses, and when it loads; a reload's success is said later. */
  lemma {:induction false} BuildVerdict(
    policy: Policy, name: string, wasm: Bytes, kind: Kind, signature: Option<Bytes>, b: Building)
    ensures var (built, said) := Instantiate(policy, name, wasm, kind, signature, b);
            var sha := Digest(policy, wasm);
            Verdicts(said) ==
              if built.Err? then [Refused(kind, name, sha, Culprit(policy, wasm, built.error), built.error)]
              else if kind.Load? then [Loaded(name, sha, |built.value.decisions|)]
              else []
    ensures policy.auditing ==> Digest(policy, wasm) == policy.sha256(wasm)
  {
    DigestTold(policy, wasm);
    hide Verdicts, Digest, Check, Denied, Names, Decided;
    var sha := Digest(policy, wasm);
    var (built, said) := Instantiate(policy, name, wasm, kind, signature, b);
    var decisions := Check(policy.importsOf(wasm), policy.permissions, policy.provided);
    NoVerdicts();
    DecisionsAreNoVerdicts(name, decisions);
    if built.Err? {
      var e := Refused(kind, name, sha, Culprit(policy, wasm, built.error), built.error);
      OneEvent(e);
      VerdictsConcat(Decided(name, decisions), [e]);
    } else {
      var loaded := if kind.Load? then [Loaded(name, sha, |decisions|)] else [];
      var unverified := if policy.keys == [] then [LoadedUnverified(name, sha)] else [];
      OneEvent(Loaded(name, sha, |decisions|));
      OneEvent(LoadedUnverified(name, sha));
      VerdictsConcat(Decided(name, decisions) + loaded, unverified);
      VerdictsConcat(Decided(name, decisions), loaded);
    }
  }

  /** Somebody who listens is told the digest of the very bytes. */
  lemma {:induction false} DigestTold(policy: Policy, wasm: Bytes)
    ensures policy.auditing ==> Digest(policy, wasm) == policy.sha256(wasm)
  {
  }

  lemma {:induction false} NoVerdicts()
    ensures Verdicts([]) == []
  {
  }

  /** What a reload says on top of building: nothing when that failed, else how it went. */
  lemma {:induction false} ReloadSaid(policy: Policy, r: Running, x: Reloading)
    ensures var (built, said) := Instantiate(policy, r.name, x.wasm, Reload, x.signature, x.building);
            var (after, outcome, all) := AfterReload(policy, r, x);
            if built.Err? then outcome == Err(built.error) && all == said
            else
              && (outcome.Err? ==> !outcome.error.NotGranted?)
              && all == said + [match outcome
                                case Ok(report) => Reloaded(r.name, built.value.sha256, report.reloads)
                                case Err(e) => ReloadRefused(r.name, built.value.sha256, None, e)]
  {
    var built := Instantiate(policy, r.name, x.wasm, Reload, x.signature, x.building).0;
    hide Instantiate, AfterSave, AfterRestore, TakingOver;
    if built.Ok? {
      HandoffsAreNotDenied(policy, r, x, built.value);
    }
  }

  /** A reload says exactly one verdict, and it is what happened: to which bytes, and why not if not. */
  lemma {:induction false} ReloadVerdict(policy: Policy, r: Running, x: Reloading)
    ensures var (after, outcome, said) := AfterReload(policy, r, x);
            var sha := Digest(policy, x.wasm);
            Verdicts(said) ==
              match outcome
              case Ok(report) => [Reloaded(r.name, sha, report.reloads)]
              case Err(e) => [ReloadRefused(r.name, sha, Culprit(policy, x.wasm, e), e)]
    ensures policy.auditing ==> Digest(policy, x.wasm) == policy.sha256(x.wasm)
  {
    hide Instantiate, Verdicts, Digest, Check, Denied, AfterReload, AllAllowed;
    var (built, said) := Instantiate(policy, r.name, x.wasm, Reload, x.signature, x.building);
    BuildVerdict(policy, r.name, x.wasm, Reload, x.signature, x.building);
    ReloadSaid(policy, r, x);
    if built.Ok? {
      BuiltVouched(policy, r.name, x.wasm, Reload, x.signature, x.building);
      var all := AfterReload(policy, r, x).2;
      var last := all[|said|];
      OneEvent(last);
      VerdictsConcat(said, [last]);
    }
  }

  lemma {:induction false} HandoffsAreNotDenied(policy: Policy, r: Running, x: Reloading, replacement: Running)
    ensures var saved := AfterSave(policy, r, x.save).1; saved.Err? ==> !saved.error.NotGranted?
    ensures forall state :: var restored := AfterRestore(policy, replacement, state, x.restore).1;
                            restored.Err? ==> !restored.error.NotGranted?
  {
  }

  predicate IsAttempt(op: Op) {
    op.LoadOp? || op.ReloadOp?
  }

  /** Loads and reloads attempted in a run. */
  function Attempts(policy: Policy, w: World, ops: seq<Op>): nat
    decreases |ops|
  {
    if ops == [] then 0
    else if !Applies(w, ops[0]) then Attempts(policy, w, ops[1..])
    else (if IsAttempt(ops[0]) then 1 else 0) + Attempts(policy, Step(policy, w, ops[0]), ops[1..])
  }

  lemma {:induction false} StepVerdicts(policy: Policy, w: World, op: Op)
    requires Applies(w, op) && policy.auditing
    ensures |Verdicts(Step(policy, w, op).trail)| == |Verdicts(w.trail)| + (if IsAttempt(op) then 1 else 0)
  {
    hide Instantiate, AfterReload, AfterCall, Verdicts;
    match op {
      case LoadOp(name, wasm, signature, building) =>
        BuildVerdict(policy, name, wasm, Load, signature, building);
        VerdictsConcat(w.trail, Instantiate(policy, name, wasm, Load, signature, building).1);
      case CallOp(_, _) =>
      case ReloadOp(i, reloading) =>
        ReloadVerdict(policy, w.plugins[i], reloading);
        VerdictsConcat(w.trail, AfterReload(policy, w.plugins[i], reloading).2);
    }
  }

  /** With a hook installed the trail holds one verdict for every load and reload attempted, and no other. */
  lemma {:induction false} RunVerdicts(policy: Policy, w: World, ops: seq<Op>)
    requires policy.auditing
    ensures |Verdicts(Run(policy, w, ops).trail)| == |Verdicts(w.trail)| + Attempts(policy, w, ops)
    decreases |ops|
  {
    hide Step, Verdicts;
    if ops != [] {
      if Applies(w, ops[0]) {
        StepVerdicts(policy, w, ops[0]);
        RunVerdicts(policy, Step(policy, w, ops[0]), ops[1..]);
      } else {
        RunVerdicts(policy, w, ops[1..]);
      }
    }
  }

  /** Everything above, from a host that has loaded nothing. */
  lemma {:induction false} EveryRun(policy: Policy, ops: seq<Op>)
    ensures AllVouched(policy, Run(policy, NOBODY, ops))
    ensures policy.auditing ==> |Verdicts(Run(policy, NOBODY, ops).trail)| == Attempts(policy, NOBODY, ops)
    ensures !policy.auditing ==> Run(policy, NOBODY, ops).trail == []
  {
    RunVouched(policy, NOBODY, ops);
    if policy.auditing {
      RunVerdicts(policy, NOBODY, ops);
      NoVerdicts();
    } else {
      SilentRun(policy, NOBODY, ops);
    }
  }

  lemma {:induction false} SilentRun(policy: Policy, w: World, ops: seq<Op>)
    requires !policy.auditing
    ensures Run(policy, w, ops).trail == w.trail
    decreases |ops|
  {
    hide Instantiate, AfterReload, AfterCall;
    if ops != [] {
      SilentRun(policy, if Applies(w, ops[0]) then Step(policy, w, ops[0]) else w, ops[1..]);
    }
  }
}
