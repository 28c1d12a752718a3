/**
  Where a generator's draws lead: how many bytes a value costs, and which types some bytes refuse.

  A generator is refused a value only when its bytes take it to a part that cannot be made, so what
  can be refused depends on the depth and the element cap as well as on the type. `RefusesExactly`
  says for which of them there are such bytes.
  */
module Drawing {
  import opened Wrappers
  import opened Utf8
  import opened ComponentTypes

  predicate Unspellable(ty: Ty) {
    ty.Own? || ty.Borrow? || ty.Future? || ty.Stream? || ty.ErrorContext? || ty.MapOf?
  }

  predicate Uninhabited(ty: Ty) {
    (ty.Variant? && ty.cases == []) || (ty.Enum? && ty.names == [])
  }

  function Shallower(depth: nat): nat {
    if depth == 0 then 0 else depth - 1
  }

  /** A case is picked with one byte. */
  const PICKABLE := 256

  /**
    Some part the generator can come to has no spelling, or no cases to choose from. Lists and options
    stay empty at the floor, lists under a cap of none, and cases past the 256th are never picked.
    */
  predicate CanRefuse(ty: Ty, depth: nat, cap: nat)
    decreases ty
  {
    || Unspellable(ty)
    || Uninhabited(ty)
    || match ty
       case ListOf(item) => 0 < depth && 0 < cap && CanRefuse(item, Shallower(depth), cap)
       case FixedLengthList(item, length) => 0 < length && CanRefuse(item, Shallower(depth), cap)
       case OptionOf(some) => 0 < depth && CanRefuse(some, Shallower(depth), cap)
       case Tuple(types) => exists i | 0 <= i < |types| :: CanRefuse(types[i], Shallower(depth), cap)
       case Record(fields) => exists i | 0 <= i < |fields| :: CanRefuse(fields[i].ty, Shallower(depth), cap)
       case Variant(cases) =>
         exists i | 0 <= i < |cases| && i < PICKABLE :: CanRefusePayload(cases[i].ty, depth, cap)
       case ResultOf(ok, err) => CanRefusePayload(ok, depth, cap) || CanRefusePayload(err, depth, cap)
       case _ => false
  }

  predicate CanRefusePayload(declared: Option<Ty>, depth: nat, cap: nat)
    decreases declared
  {
    declared.Some? && CanRefuse(declared.value, Shallower(depth), cap)
  }

  // ---------------------------------------------------------------------------------------------
  // Draws
  // ---------------------------------------------------------------------------------------------

  /** The byte at an offset, zero past the end. */
  function Drawn(bytes: seq<byte>, at: nat): byte {
    if at < |bytes| then bytes[at] else 0
  }

  predicate IsOdd(bytes: seq<byte>, at: nat) {
    Drawn(bytes, at) % 2 == 1
  }

  /** The choice among `bound` alternatives; a choice of one costs nothing. */
  function Picked(bytes: seq<byte>, at: nat, bound: nat): (k: nat)
    ensures k == 0 || k < bound
  {
    if bound <= 1 then 0 else Drawn(bytes, at) as nat % bound
  }

  function AfterPick(at: nat, bound: nat): nat {
    if bound <= 1 then at else at + 1
  }

  /** A value from a table costs two bytes, a raw one its width and the byte that chose. */
  function AfterTableOr(bytes: seq<byte>, at: nat, width: nat): nat {
    if IsOdd(bytes, at) then at + 1 + width else at + 2
  }

  function AfterCharacters(bytes: seq<byte>, at: nat, count: nat): (end: nat)
    ensures at <= end
    decreases count
  {
    if count == 0 then at else AfterCharacters(bytes, AfterTableOr(bytes, at, 4), count - 1)
  }

  function AfterText(bytes: seq<byte>, at: nat, cap: nat): nat {
    if IsOdd(bytes, at) then AfterCharacters(bytes, AfterPick(at + 1, cap + 1), Picked(bytes, at + 1, cap + 1))
    else at + 2
  }

  /** How many elements a list gets, and what that costs. */
  function CountBound(depth: nat, cap: nat): nat {
    if depth == 0 then 1 else cap + 1
  }

  /** Where one value of the type ends, drawn from an offset on; `None` when it is refused. */
  function End(ty: Ty, depth: nat, cap: nat, bytes: seq<byte>, at: nat): (end: Option<nat>)
    ensures end.Some? ==> at <= end.value
    decreases ty, 2
  {
    match ty
    case Bool => Some(at + 1)
    case Int(_) => Some(AfterTableOr(bytes, at, 8))
    case Float32 => Some(AfterTableOr(bytes, at, 4))
    case Float64 => Some(AfterTableOr(bytes, at, 8))
    case Char => Some(AfterTableOr(bytes, at, 4))
    case String => Some(AfterText(bytes, at, cap))
    case ListOf(item) =>
      var bound := CountBound(depth, cap);
      EndRepeat(item, Picked(bytes, at, bound), Shallower(depth), cap, bytes, AfterPick(at, bound))
    case FixedLengthList(item, length) => EndRepeat(item, length, Shallower(depth), cap, bytes, at)
    case Tuple(_) => EndTypes(ty, 0, Shallower(depth), cap, bytes, at)
    case Record(_) => EndFields(ty, 0, Shallower(depth), cap, bytes, at)
    case Variant(cases) =>
      if cases == [] then None
      else EndPayload(cases[Picked(bytes, at, |cases|)].ty, depth, cap, bytes, AfterPick(at, |cases|))
    case Enum(names) => if names == [] then None else Some(AfterPick(at, |names|))
    case OptionOf(some) =>
      if depth == 0 then Some(at)
      else if IsOdd(bytes, at) then End(some, Shallower(depth), cap, bytes, at + 1)
      else Some(at + 1)
    case ResultOf(ok, err) => EndPayload(if IsOdd(bytes, at) then err else ok, depth, cap, bytes, at + 1)
    case Flags(names) => Some(at + |names|)
    case _ => None
  }

  function EndRepeat(item: Ty, count: nat, depth: nat, cap: nat, bytes: seq<byte>, at: nat): (end: Option<nat>)
    ensures end.Some? ==> at <= end.value
    decreases item, 3, count
  {
    if count == 0 then Some(at)
    else
      match End(item, depth, cap, bytes, at)
      case None => None
      case Some(next) => EndRepeat(item, count - 1, depth, cap, bytes, next)
  }

  function EndTypes(ty: Ty, from: nat, depth: nat, cap: nat, bytes: seq<byte>, at: nat): (end: Option<nat>)
    requires ty.Tuple? && from <= |ty.types|
    ensures end.Some? ==> at <= end.value
    decreases ty, 1, |ty.types| - from
  {
    if from == |ty.types| then Some(at)
    else
      match End(ty.types[from], depth, cap, bytes, at)
      case None => None
      case Some(next) => EndTypes(ty, from + 1, depth, cap, bytes, next)
  }

  function EndFields(ty: Ty, from: nat, depth: nat, cap: nat, bytes: seq<byte>, at: nat): (end: Option<nat>)
    requires ty.Record? && from <= |ty.fields|
    ensures end.Some? ==> at <= end.value
    decreases ty, 1, |ty.fields| - from
  {
    if from == |ty.fields| then Some(at)
    else
      match End(ty.fields[from].ty, depth, cap, bytes, at)
      case None => None
      case Some(next) => EndFields(ty, from + 1, depth, cap, bytes, next)
  }

  function EndPayload(declared: Option<Ty>, depth: nat, cap: nat, bytes: seq<byte>, at: nat): (end: Option<nat>)
    ensures end.Some? ==> at <= end.value
    decreases declared, 3
  {
    match declared
    case None => Some(at)
    case Some(ty) => End(ty, Shallower(depth), cap, bytes, at)
  }

  // ---------------------------------------------------------------------------------------------
  // Only the bytes drawn matter
  // ---------------------------------------------------------------------------------------------

  ghost predicate Agree(a: seq<byte>, b: seq<byte>, from: nat, to: nat) {
    forall k: nat | from <= k < to :: Drawn(a, k) == Drawn(b, k)
  }

  lemma {:induction false} SameCharacters(a: seq<byte>, b: seq<byte>, at: nat, count: nat)
    requires Agree(a, b, at, AfterCharacters(a, at, count))
    ensures AfterCharacters(b, at, count) == AfterCharacters(a, at, count)
    decreases count
  {
    if count > 0 {
      SameCharacters(a, b, AfterTableOr(a, at, 4), count - 1);
    }
  }

  lemma {:induction false} SameEnd(ty: Ty, depth: nat, cap: nat, a: seq<byte>, b: seq<byte>, at: nat)
    requires End(ty, depth, cap, a, at).Some? && Agree(a, b, at, End(ty, depth, cap, a, at).value)
    ensures End(ty, depth, cap, b, at) == End(ty, depth, cap, a, at)
    decreases ty, 2
  {
    match ty {
      case String =>
        if IsOdd(a, at) {
          SameCharacters(a, b, AfterPick(at + 1, cap + 1), Picked(a, at + 1, cap + 1));
        }
      case ListOf(item) =>
        var bound := CountBound(depth, cap);
        SameRepeat(item, Picked(a, at, bound), Shallower(depth), cap, a, b, AfterPick(at, bound));
      case FixedLengthList(item, length) => SameRepeat(item, length, Shallower(depth), cap, a, b, at);
      case Tuple(_) => SameTypes(ty, 0, Shallower(depth), cap, a, b, at);
      case Record(_) => SameFields(ty, 0, Shallower(depth), cap, a, b, at);
      case Variant(cases) =>
        var k := Picked(a, at, |cases|);
        assert cases[k] in cases;
        SamePayload(cases[k].ty, depth, cap, a, b, AfterPick(at, |cases|));
      case OptionOf(some) =>
        if depth > 0 && IsOdd(a, at) {
          SameEnd(some, Shallower(depth), cap, a, b, at + 1);
        }
      case ResultOf(ok, err) => SamePayload(if IsOdd(a, at) then err else ok, depth, cap, a, b, at + 1);
      case _ =>
    }
  }

  lemma {:induction false} SameRepeat(
    item: Ty, count: nat, depth: nat, cap: nat, a: seq<byte>, b: seq<byte>, at: nat)
    requires EndRepeat(item, count, depth, cap, a, at).Some?
    requires Agree(a, b, at, EndRepeat(item, count, depth, cap, a, at).value)
    ensures EndRepeat(item, count, depth, cap, b, at) == EndRepeat(item, count, depth, cap, a, at)
    decreases item, 3, count
  {
    if count > 0 {
      SameEnd(item, depth, cap, a, b, at);
      SameRepeat(item, count - 1, depth, cap, a, b, End(item, depth, cap, a, at).value);
    }
  }

  lemma {:induction false} SameTypes(ty: Ty, from: nat, depth: nat, cap: nat, a: seq<byte>, b: seq<byte>, at: nat)
    requires ty.Tuple? && from <= |ty.types|
    requires EndTypes(ty, from, depth, cap, a, at).Some?
    requires Agree(a, b, at, EndTypes(ty, from, depth, cap, a, at).value)
    ensures EndTypes(ty, from, depth, cap, b, at) == EndTypes(ty, from, depth, cap, a, at)
    decreases ty, 1, |ty.types| - from
  {
    if from < |ty.types| {
      SameEnd(ty.types[from], depth, cap, a, b, at);
      SameTypes(ty, from + 1, depth, cap, a, b, End(ty.types[from], depth, cap, a, at).value);
    }
  }

  lemma {:induction false} SameFields(ty: Ty, from: nat, depth: nat, cap: nat, a: seq<byte>, b: seq<byte>, at: nat)
    requires ty.Record? && from <= |ty.fields|
    requires EndFields(ty, from, depth, cap, a, at).Some?
    requires Agree(a, b, at, EndFields(ty, from, depth, cap, a, at).value)
    ensures EndFields(ty, from, depth, cap, b, at) == EndFields(ty, from, depth, cap, a, at)
    decreases ty, 1, |ty.fields| - from
  {
    if from < |ty.fields| {
      SameEnd(ty.fields[from].ty, depth, cap, a, b, at);
      SameFields(ty, from + 1, depth, cap, a, b, End(ty.fields[from].ty, depth, cap, a, at).value);
    }
  }

  lemma {:induction false} SamePayload(
    declared: Option<Ty>, depth: nat, cap: nat, a: seq<byte>, b: seq<byte>, at: nat)
    requires EndPayload(declared, depth, cap, a, at).Some?
    requires Agree(a, b, at, EndPayload(declared, depth, cap, a, at).value)
    ensures EndPayload(declared, depth, cap, b, at) == EndPayload(declared, depth, cap, a, at)
    decreases declared, 3
  {
    if declared.Some? {
      SameEnd(declared.value, Shallower(depth), cap, a, b, at);
    }
  }

  // ---------------------------------------------------------------------------------------------
  // What is refused can be refused
  // ---------------------------------------------------------------------------------------------

  lemma {:induction false} OnlyWhenItCan(ty: Ty, depth: nat, cap: nat, bytes: seq<byte>, at: nat)
    requires End(ty, depth, cap, bytes, at).None?
    ensures CanRefuse(ty, depth, cap)
    decreases ty, 2
  {
    match ty {
      case ListOf(item) =>
        var bound := CountBound(depth, cap);
        RepeatWhenItCan(item, Picked(bytes, at, bound), Shallower(depth), cap, bytes, AfterPick(at, bound));
      case FixedLengthList(item, length) => RepeatWhenItCan(item, length, Shallower(depth), cap, bytes, at);
      case Tuple(_) => TypesWhenTheyCan(ty, 0, Shallower(depth), cap, bytes, at);
      case Record(_) => FieldsWhenTheyCan(ty, 0, Shallower(depth), cap, bytes, at);
      case Variant(cases) =>
        if cases != [] {
          var k := Picked(bytes, at, |cases|);
          assert cases[k] in cases;
          PickedInReach(bytes, at, |cases|);
          PayloadWhenItCan(cases[k].ty, depth, cap, bytes, AfterPick(at, |cases|));
        }
      case OptionOf(some) => OnlyWhenItCan(some, Shallower(depth), cap, bytes, at + 1);
      case ResultOf(ok, err) => PayloadWhenItCan(if IsOdd(bytes, at) then err else ok, depth, cap, bytes, at + 1);
      case _ =>
    }
  }

  lemma {:induction false} PickedInReach(bytes: seq<byte>, at: nat, bound: nat)
    requires 0 < bound
    ensures Picked(bytes, at, bound) < bound && Picked(bytes, at, bound) < PICKABLE
    ensures |bytes| <= at ==> Picked(bytes, at, bound) == 0
  {
  }

  lemma {:induction false} RepeatWhenItCan(item: Ty, count: nat, depth: nat, cap: nat, bytes: seq<byte>, at: nat)
    requires EndRepeat(item, count, depth, cap, bytes, at).None?
    ensures 0 < count && CanRefuse(item, depth, cap)
    decreases item, 3, count
  {
    match End(item, depth, cap, bytes, at) {
      case None => OnlyWhenItCan(item, depth, cap, bytes, at);
      case Some(next) => RepeatWhenItCan(item, count - 1, depth, cap, bytes, next);
    }
  }

  lemma {:induction false} TypesWhenTheyCan(ty: Ty, from: nat, depth: nat, cap: nat, bytes: seq<byte>, at: nat)
    requires ty.Tuple? && from <= |ty.types| && EndTypes(ty, from, depth, cap, bytes, at).None?
    ensures exists i | from <= i < |ty.types| :: CanRefuse(ty.types[i], depth, cap)
    decreases ty, 1, |ty.types| - from
  {
    match End(ty.types[from], depth, cap, bytes, at) {
      case None => OnlyWhenItCan(ty.types[from], depth, cap, bytes, at);
      case Some(next) => TypesWhenTheyCan(ty, from + 1, depth, cap, bytes, next);
    }
  }

  lemma {:induction false} FieldsWhenTheyCan(ty: Ty, from: nat, depth: nat, cap: nat, bytes: seq<byte>, at: nat)
    requires ty.Record? && from <= |ty.fields| && EndFields(ty, from, depth, cap, bytes, at).None?
    ensures exists i | from <= i < |ty.fields| :: CanRefuse(ty.fields[i].ty, depth, cap)
    decreases ty, 1, |ty.fields| - from
  {
    match End(ty.fields[from].ty, depth, cap, bytes, at) {
      case None => OnlyWhenItCan(ty.fields[from].ty, depth, cap, bytes, at);
      case Some(next) => FieldsWhenTheyCan(ty, from + 1, depth, cap, bytes, next);
    }
  }

  lemma {:induction false} PayloadWhenItCan(declared: Option<Ty>, depth: nat, cap: nat, bytes: seq<byte>, at: nat)
    requires EndPayload(declared, depth, cap, bytes, at).None?
    ensures CanRefusePayload(declared, depth, cap)
    decreases declared, 3
  {
    OnlyWhenItCan(declared.value, Shallower(depth), cap, bytes, at);
  }

  // ---------------------------------------------------------------------------------------------
  // What can be refused is refused, by some bytes
  // ---------------------------------------------------------------------------------------------

  function Zeros(n: nat): (zeros: seq<byte>)
    ensures |zeros| == n
  {
    seq(n, _ => 0)
  }

  /** One byte to steer by, and then the rest. */
  lemma {:induction false} Steer(front: seq<byte>, b: byte, rest: seq<byte>)
    ensures front + [b] + rest == front + ([b] + rest)
    ensures Drawn(front + ([b] + rest), |front|) == b
  {
  }

  /** Whatever was drawn before, there are bytes to go on with that lead to a refusal. */
  lemma {:induction false} LeadToRefusal(ty: Ty, depth: nat, cap: nat, front: seq<byte>) returns (more: seq<byte>)
    requires CanRefuse(ty, depth, cap)
    ensures End(ty, depth, cap, front + more, |front|).None?
    decreases ty, 2
  {
    more := [];
    if !Unspellable(ty) && !Uninhabited(ty) {
      match ty {
        case ListOf(item) =>
          var rest := LeadToRefusal(item, Shallower(depth), cap, front + [1]);
          Steer(front, 1, rest);
          more := [1] + rest;
          assert Picked(front + more, |front|, cap + 1) == 1;
        case FixedLengthList(item, _) =>
          more := LeadToRefusal(item, Shallower(depth), cap, front);
        case Tuple(_) =>
          more := TypesLeadToRefusal(ty, 0, Shallower(depth), cap, front);
        case Record(_) =>
          more := FieldsLeadToRefusal(ty, 0, Shallower(depth), cap, front);
        case Variant(cases) =>
          more := CasesLeadToRefusal(ty, depth, cap, front);
        case OptionOf(some) =>
          var rest := LeadToRefusal(some, Shallower(depth), cap, front + [1]);
          Steer(front, 1, rest);
          more := [1] + rest;
        case ResultOf(ok, err) =>
          var b: byte := if CanRefusePayload(ok, depth, cap) then 0 else 1;
          var payload := if b == 0 then ok else err;
          var rest := LeadToRefusal(payload.value, Shallower(depth), cap, front + [b]);
          Steer(front, b, rest);
          more := [b] + rest;
      }
    }
  }

  lemma {:induction false} CasesLeadToRefusal(ty: Ty, depth: nat, cap: nat, front: seq<byte>) returns (more: seq<byte>)
    requires ty.Variant? && !Uninhabited(ty) && CanRefuse(ty, depth, cap)
    ensures End(ty, depth, cap, front + more, |front|).None?
    decreases ty, 1
  {
    var cases := ty.cases;
    var k: nat :| k < |cases| && k < PICKABLE && CanRefusePayload(cases[k].ty, depth, cap);
    assert cases[k] in cases;
    if |cases| == 1 {
      more := LeadToRefusal(cases[0].ty.value, Shallower(depth), cap, front);
    } else {
      hide CanRefuse, End;
      var rest := LeadToRefusal(cases[k].ty.value, Shallower(depth), cap, front + [k as byte]);
      Steer(front, k as byte, rest);
      more := [k as byte] + rest;
      PickByByte(front + more, |front|, |cases|, k);
      EndOfVariant(ty, depth, cap, front + more, |front|);
    }
  }

  lemma {:induction false} PickByByte(bytes: seq<byte>, at: nat, bound: nat, k: nat)
    requires 1 < bound && k < bound && Drawn(bytes, at) as nat == k
    ensures Picked(bytes, at, bound) == k
  {
  }

  lemma {:induction false} EndOfVariant(ty: Ty, depth: nat, cap: nat, bytes: seq<byte>, at: nat)
    requires ty.Variant? && ty.cases != []
    ensures End(ty, depth, cap, bytes, at)
         == EndPayload(ty.cases[Picked(bytes, at, |ty.cases|)].ty, depth, cap, bytes, AfterPick(at, |ty.cases|))
  {
  }

  /** A part that is not refused is paid for in zeros, and the next one goes on from there. */
  lemma {:induction false} PayInZeros(
    ty: Ty, depth: nat, cap: nat, front: seq<byte>, end: nat, rest: seq<byte>)
    requires End(ty, depth, cap, front, |front|) == Some(end)
    ensures var zeros := Zeros(end - |front|);
            && |front + zeros| == end
            && front + zeros + rest == front + (zeros + rest)
            && End(ty, depth, cap, front + (zeros + rest), |front|) == Some(end)
  {
    SameEnd(ty, depth, cap, front, front + (Zeros(end - |front|) + rest), |front|);
  }

  lemma {:induction false} TypesLeadToRefusal(ty: Ty, from: nat, depth: nat, cap: nat, front: seq<byte>)
    returns (more: seq<byte>)
    requires ty.Tuple? && from <= |ty.types|
    requires exists i | from <= i < |ty.types| :: CanRefuse(ty.types[i], depth, cap)
    ensures EndTypes(ty, from, depth, cap, front + more, |front|).None?
    decreases ty, 1, |ty.types| - from
  {
    if CanRefuse(ty.types[from], depth, cap) {
      more := LeadToRefusal(ty.types[from], depth, cap, front);
    } else {
      match End(ty.types[from], depth, cap, front, |front|) {
        case None =>
          OnlyWhenItCan(ty.types[from], depth, cap, front, |front|);
          assert false;
        case Some(next) =>
          var zeros := Zeros(next - |front|);
          var rest := TypesLeadToRefusal(ty, from + 1, depth, cap, front + zeros);
          PayInZeros(ty.types[from], depth, cap, front, next, rest);
          more := zeros + rest;
      }
    }
  }

  lemma {:induction false} FieldsLeadToRefusal(ty: Ty, from: nat, depth: nat, cap: nat, front: seq<byte>)
    returns (more: seq<byte>)
    requires ty.Record? && from <= |ty.fields|
    requires exists i | from <= i < |ty.fields| :: CanRefuse(ty.fields[i].ty, depth, cap)
    ensures EndFields(ty, from, depth, cap, front + more, |front|).None?
    decreases ty, 1, |ty.fields| - from
  {
    if CanRefuse(ty.fields[from].ty, depth, cap) {
      more := LeadToRefusal(ty.fields[from].ty, depth, cap, front);
    } else {
      match End(ty.fields[from].ty, depth, cap, front, |front|) {
        case None =>
          OnlyWhenItCan(ty.fields[from].ty, depth, cap, front, |front|);
          assert false;
        case Some(next) =>
          var zeros := Zeros(next - |front|);
          var rest := FieldsLeadToRefusal(ty, from + 1, depth, cap, front + zeros);
          PayInZeros(ty.fields[from].ty, depth, cap, front, next, rest);
          more := zeros + rest;
      }
    }
  }

  /** Some bytes make the generator refuse the type, at this depth and cap. */
  ghost predicate SomeBytesRefuse(ty: Ty, depth: nat, cap: nat) {
    exists bytes: seq<byte> :: End(ty, depth, cap, bytes, 0).None?
  }

  /** Which types are refused by some bytes: exactly. */
  lemma {:induction false} RefusesExactly(ty: Ty, depth: nat, cap: nat)
    ensures SomeBytesRefuse(ty, depth, cap) <==> CanRefuse(ty, depth, cap)
  {
    if bytes: seq<byte> :| End(ty, depth, cap, bytes, 0).None? {
      OnlyWhenItCan(ty, depth, cap, bytes, 0);
    }
    if CanRefuse(ty, depth, cap) {
      var bytes := LeadToRefusal(ty, depth, cap, []);
      assert [] + bytes == bytes;
    }
  }
}
