/**
  What is left in the flight table when all work is over.

  Entries are removed by whoever compiles. A caller that claims one and then finds the component on its
  second look leaves the entry it claimed, so the table is not always empty when nothing is building:
  `EmptiesExactly` says for which callers it is.
  */
module FlightTable {
  import opened Wrappers
  import opened CompiledCaches
  import opened CompileProtocol

  ghost predicate Sane(c: Callers, h: Host) {
    |c.wasm| == |h.pcs| && h.compiled.Valid() && LocksAgree(h.pcs, h.holder)
  }

  lemma {:induction false} StepSane(c: Callers, h: Host, i: nat, ok: bool)
    requires Sane(c, h) && i < |h.pcs| && Step(c, h, i, ok).Some?
    ensures Sane(c, Step(c, h, i, ok).value)
  {
    StepLocks(c, h, i, ok);
    if h.pcs[i].Store? {
      InsertKeepsValid(h.compiled, c.Key(i), Component(c.wasm[i]));
    }
  }

  lemma {:induction false} RunOn(c: Callers, h: Host, a: seq<Choice>, b: seq<Choice>)
    requires |c.wasm| == |h.pcs|
    ensures Run(c, h, a + b) == Run(c, Run(c, h, a), b)
    decreases |a|
  {
    if a == [] {
      assert a + b == b;
    } else {
      assert (a + b)[1..] == a[1..] + b;
      var (i, ok) := a[0];
      RunOn(c, if i < |h.pcs| && Step(c, h, i, ok).Some? then Step(c, h, i, ok).value else h, a[1..], b);
    }
  }

  /** The first step of a schedule, when that caller can move. */
  lemma {:induction false} RunStep(c: Callers, h: Host, i: nat, ok: bool, rest: seq<Choice>)
    requires i < |c.wasm| == |h.pcs| && Step(c, h, i, ok).Some?
    ensures Run(c, h, [(i, ok)] + rest) == Run(c, Step(c, h, i, ok).value, rest)
  {
    assert ([(i, ok)] + rest)[1..] == rest;
  }

  // ---------------------------------------------------------------------------------------------
  // A key one caller has to itself
  // ---------------------------------------------------------------------------------------------

  ghost predicate Shared(c: Callers, key: string) {
    exists i, j | 0 <= i < j < |c.wasm| :: c.Key(i) == key && c.Key(j) == key
  }

  predicate BeforeStore(pc: Pc) {
    pc.Lookup? || pc.Claim? || pc.Working()
  }

  /** Inside a flight it claimed and has yet to forget. */
  ghost predicate Claimant(c: Callers, pcs: seq<Pc>, key: string, i: nat)
    requires |c.wasm| == |pcs|
  {
    i < |pcs| && c.Key(i) == key && (pcs[i].Working() || pcs[i].Forget?)
  }

  /** Nobody stores the key before its caller does, and its entry stands only while that caller is at it. */
  ghost predicate Tidy(c: Callers, h: Host, key: string)
    requires |c.wasm| == |h.pcs|
  {
    && (forall i | 0 <= i < |h.pcs| && c.Key(i) == key && BeforeStore(h.pcs[i]) :: key !in h.compiled.byKey)
    && (key in h.inFlight ==> exists i: nat :: Claimant(c, h.pcs, key, i))
  }

  lemma {:induction false} SoleCaller(c: Callers, i: nat)
    requires i < |c.wasm|
    ensures Shared(c, c.Key(i)) || forall j | 0 <= j < |c.wasm| && c.Key(j) == c.Key(i) :: j == i
  {
    if j :| 0 <= j < |c.wasm| && c.Key(j) == c.Key(i) && j != i {
      var first, second := if j < i then j else i, if j < i then i else j;
      assert c.Key(first) == c.Key(second);
    }
  }

  lemma {:induction false} StepTidyOwn(c: Callers, h: Host, i: nat, ok: bool)
    requires Sane(c, h) && i < |h.pcs| && Step(c, h, i, ok).Some?
    requires !Shared(c, c.Key(i)) && Tidy(c, h, c.Key(i))
    ensures Tidy(c, Step(c, h, i, ok).value, c.Key(i))
  {
    var next, key := Step(c, h, i, ok).value, c.Key(i);
    SoleCaller(c, i);
    assert BeforeStore(h.pcs[i]) ==> key !in h.compiled.byKey;
    if key in next.inFlight {
      assert Claimant(c, next.pcs, key, i);
    }
  }

  lemma {:induction false} StepTidyOther(c: Callers, h: Host, i: nat, ok: bool, key: string)
    requires Sane(c, h) && i < |h.pcs| && Step(c, h, i, ok).Some?
    requires c.Key(i) != key && Tidy(c, h, key)
    ensures Tidy(c, Step(c, h, i, ok).value, key)
  {
    var next := Step(c, h, i, ok).value;
    StepKeepsBooks(c, h, i, ok, key);
    if h.pcs[i].Store? {
      InsertKeepsValid(h.compiled, c.Key(i), Component(c.wasm[i]));
    }
    hide Step, Cache.Insert;
    if key in next.inFlight {
      var j: nat :| Claimant(c, h.pcs, key, j);
      assert Claimant(c, next.pcs, key, j);
    }
  }

  lemma {:induction false} RunTidy(c: Callers, h: Host, schedule: seq<Choice>, key: string)
    requires Sane(c, h) && !Shared(c, key) && Tidy(c, h, key)
    ensures Tidy(c, Run(c, h, schedule), key)
    decreases |schedule|
  {
    hide Step, Tidy, Shared, LocksAgree;
    if schedule != [] {
      var (i, ok) := schedule[0];
      if i < |h.pcs| && Step(c, h, i, ok).Some? {
        StepSane(c, h, i, ok);
        if c.Key(i) == key {
          StepTidyOwn(c, h, i, ok);
        } else {
          StepTidyOther(c, h, i, ok, key);
        }
        RunTidy(c, Step(c, h, i, ok).value, schedule[1..], key);
      } else {
        RunTidy(c, h, schedule[1..], key);
      }
    }
  }

  // ---------------------------------------------------------------------------------------------
  // A key two callers share
  // ---------------------------------------------------------------------------------------------

  ghost predicate OthersDone(pcs: seq<Pc>, p: nat, q: nat) {
    forall i | 0 <= i < |pcs| && i != p && i != q :: pcs[i].Done?
  }

  /** While two callers have missed and wait to claim, all others can finish. */
  lemma {:induction false} FinishOthers(c: Callers, h: Host, p: nat, q: nat) returns (schedule: seq<Choice>)
    requires Sane(c, h) && p < |h.pcs| && q < |h.pcs|
    requires h.pcs[p] == Claim && h.pcs[q] == Claim
    ensures var after := Run(c, h, schedule);
            && Sane(c, after) && after.pcs[p] == Claim && after.pcs[q] == Claim && OthersDone(after.pcs, p, q)
    decreases Remaining(h.pcs)
  {
    if OthersDone(h.pcs, p, q) {
      schedule := [];
    } else {
      var i :| 0 <= i < |h.pcs| && i != p && i != q && !h.pcs[i].Done?;
      var j: nat := if h.pcs[i].Wait? && h.pcs[i].flight in h.holder then h.holder[h.pcs[i].flight] else i;
      var next := Step(c, h, j, true).value;
      assert next.pcs == h.pcs[j := next.pcs[j]];
      StepSane(c, h, j, true);
      StepsRunOut(c, h, j, true);
      var rest := FinishOthers(c, next, p, q);
      RunStep(c, h, j, true, rest);
      schedule := [(j, true)] + rest;
    }
  }

  /** A caller past its first look, with the lock to itself: what it has seen so far holds. */
  ghost predicate OnItsWay(pc: Pc, key: string, compiled: Cache<Component>) {
    !pc.Lookup? && !pc.Done? && (pc.Forget? || pc.Leave? ==> key in compiled.byKey)
  }

  /** It has the entry, or will have it, and will not be the one to remove it. */
  ghost predicate WillLeave(pc: Pc, key: string, h: Host) {
    && key in h.compiled.byKey
    && (pc.Claim? || ((pc.Wait? || pc.Recheck? || pc.Leave?) && key in h.inFlight))
  }

  ghost predicate Alone(pcs: seq<Pc>, p: nat) {
    forall i | 0 <= i < |pcs| && i != p :: !pcs[i].Holds()
  }

  lemma {:induction false} StepAlone(c: Callers, h: Host, p: nat)
    requires Sane(c, h) && p < |h.pcs| && Alone(h.pcs, p) && OnItsWay(h.pcs[p], c.Key(p), h.compiled)
    ensures Step(c, h, p, true).Some?
    ensures var next := Step(c, h, p, true).value;
            && next.pcs == h.pcs[p := next.pcs[p]]
            && (if next.pcs[p].Done? then c.Key(p) in next.compiled.byKey
                else OnItsWay(next.pcs[p], c.Key(p), next.compiled))
            && (WillLeave(h.pcs[p], c.Key(p), h) ==>
                  if next.pcs[p].Done? then c.Key(p) in next.inFlight else WillLeave(next.pcs[p], c.Key(p), next))
  {
    if h.pcs[p].Store? {
      InsertKeepsValid(h.compiled, c.Key(p), Component(c.wasm[p]));
    }
  }

  /** It runs to its end, its key is stored then, and an entry it will leave is left. */
  lemma {:induction false} RunAlone(c: Callers, h: Host, p: nat) returns (schedule: seq<Choice>)
    requires Sane(c, h) && p < |h.pcs| && Alone(h.pcs, p) && OnItsWay(h.pcs[p], c.Key(p), h.compiled)
    ensures var after := Run(c, h, schedule);
            && Sane(c, after) && after.pcs == h.pcs[p := after.pcs[p]] && after.pcs[p].Done?
            && c.Key(p) in after.compiled.byKey
            && (WillLeave(h.pcs[p], c.Key(p), h) ==> c.Key(p) in after.inFlight)
    decreases Remaining(h.pcs)
  {
    var next := Step(c, h, p, true).value;
    StepAlone(c, h, p);
    StepSane(c, h, p, true);
    hide Step, LocksAgree, Cache.Valid, WillLeave, OnItsWay;
    StepsRunOut(c, h, p, true);
    if next.pcs[p].Done? {
      RunStep(c, h, p, true, []);
      schedule := [(p, true)] + [];
    } else {
      var rest := RunAlone(c, next, p);
      RunStep(c, h, p, true, rest);
      schedule := [(p, true)] + rest;
    }
  }

  /** A schedule after which all callers are done and the key's entry is still there. */
  ghost predicate Leaves(c: Callers, schedule: seq<Choice>, key: string) {
    var after := Run(c, Start(c), schedule);
    AllDone(after) && key in after.inFlight
  }

  /** Both miss, before anything else happens. */
  lemma {:induction false} BothMiss(c: Callers, p: nat, q: nat)
    requires p < q < |c.wasm|
    ensures var h := Run(c, Start(c), [(p, true)] + [(q, true)]);
            Sane(c, h) && h.pcs[p] == Claim && h.pcs[q] == Claim
  {
    var start := Start(c);
    var one := Step(c, start, p, true).value;
    RunStep(c, start, p, true, [(q, true)]);
    assert [(q, true)] + [] == [(q, true)];
    RunStep(c, one, q, true, []);
  }

  /** Two callers that share a key: both miss, all others finish, and then the two run one after the other. */
  lemma {:induction false} SharedKeyCanStay(c: Callers, p: nat, q: nat) returns (schedule: seq<Choice>)
    requires p < q < |c.wasm| && c.Key(p) == c.Key(q)
    ensures Leaves(c, schedule, c.Key(p))
  {
    var miss := [(p, true)] + [(q, true)];
    BothMiss(c, p, q);
    var h0 := Run(c, Start(c), miss);
    var others := FinishOthers(c, h0, p, q);
    var h1 := Run(c, h0, others);
    var first := RunAlone(c, h1, p);
    var h2 := Run(c, h1, first);
    assert WillLeave(h2.pcs[q], c.Key(q), h2);
    var second := RunAlone(c, h2, q);
    schedule := miss + others + first + second;
    RunOn(c, Start(c), miss + others + first, second);
    RunOn(c, Start(c), miss + others, first);
    RunOn(c, Start(c), miss, others);
  }

  // ---------------------------------------------------------------------------------------------
  // Exactly
  // ---------------------------------------------------------------------------------------------

  lemma {:induction false} SoleKeyNeverStays(c: Callers, schedule: seq<Choice>, key: string)
    requires !Shared(c, key)
    ensures !Leaves(c, schedule, key)
  {
    var after := Run(c, Start(c), schedule);
    RunTidy(c, Start(c), schedule, key);
    assert AllDone(after) ==> forall i: nat :: !Claimant(c, after.pcs, key, i);
  }

  /** An entry can outlive all work exactly when two callers share its key. */
  lemma {:induction false} LeftExactly(c: Callers, key: string)
    ensures (exists schedule: seq<Choice> :: Leaves(c, schedule, key)) <==> Shared(c, key)
  {
    if schedule: seq<Choice> :| Leaves(c, schedule, key) {
      if !Shared(c, key) {
        SoleKeyNeverStays(c, schedule, key);
        assert false;
      }
    }
    if Shared(c, key) {
      var p, q :| 0 <= p < q < |c.wasm| && c.Key(p) == key && c.Key(q) == key;
      var schedule := SharedKeyCanStay(c, p, q);
    }
  }

  ghost predicate AlwaysEmpties(c: Callers) {
    forall schedule: seq<Choice> ::
      AllDone(Run(c, Start(c), schedule)) ==> Run(c, Start(c), schedule).inFlight == map[]
  }

  /**
    The flight table is empty whenever all work is over, under every schedule and whatever fails or is
    evicted, if and only if no two callers ask for the same key.
    */
  lemma {:induction false} EmptiesExactly(c: Callers)
    ensures AlwaysEmpties(c) <==> forall i, j | 0 <= i < j < |c.wasm| :: c.Key(i) != c.Key(j)
  {
    hide Run;
    if i, j :| 0 <= i < j < |c.wasm| && c.Key(i) == c.Key(j) {
      var schedule := SharedKeyCanStay(c, i, j);
      assert !AlwaysEmpties(c);
    } else {
      forall schedule: seq<Choice> | AllDone(Run(c, Start(c), schedule))
        ensures Run(c, Start(c), schedule).inFlight == map[]
      {
        var left := Run(c, Start(c), schedule).inFlight;
        if left != map[] {
          var key :| key in left;
          assert Leaves(c, schedule, key);
          LeftExactly(c, key);
          assert false;
        }
      }
    }
  }
}
