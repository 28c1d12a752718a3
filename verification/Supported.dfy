/**
  The check a fuzzing run makes up front, `supported`, against what the generator then does.

  It walks four levels into a type and ignores choices without cases, so it accepts some types that
  some bytes make the generator refuse; `AcceptedCanBeRefused` says exactly which.
  */
module Supported {
  import opened Wrappers
  import opened Utf8
  import opened ComponentTypes
  import opened Typecheck
  import opened Drawing
  import opened MakingTheorems

  const DEFAULT_MAX_DEPTH := 4

  /** Walk `depth` levels down; the error is the offending type. */
  function SupportedOne(ty: Ty, depth: nat): Result<(), Ty>
    decreases ty, 2
  {
    if depth == 0 then Ok(())
    else
      match ty
      case ListOf(item) => SupportedOne(item, depth - 1)
      case FixedLengthList(item, _) => SupportedOne(item, depth - 1)
      case OptionOf(some) => SupportedOne(some, depth - 1)
      case Tuple(types) => SupportedTypes(ty, 0, depth - 1)
      case Record(fields) => SupportedFields(ty, 0, depth - 1)
      case Variant(cases) => SupportedCases(ty, 0, depth - 1)
      case ResultOf(ok, err) =>
        var _ :- SupportedPayload(ok, depth - 1);
        SupportedPayload(err, depth - 1)
      case _ => if Unspellable(ty) then Err(ty) else Ok(())
  }

  function SupportedTypes(ty: Ty, from: nat, depth: nat): Result<(), Ty>
    requires ty.Tuple? && from <= |ty.types|
    decreases ty, 1, |ty.types| - from
  {
    if from == |ty.types| then Ok(())
    else
      var _ :- SupportedOne(ty.types[from], depth);
      SupportedTypes(ty, from + 1, depth)
  }

  function SupportedFields(ty: Ty, from: nat, depth: nat): Result<(), Ty>
    requires ty.Record? && from <= |ty.fields|
    decreases ty, 1, |ty.fields| - from
  {
    if from == |ty.fields| then Ok(())
    else
      var _ :- SupportedOne(ty.fields[from].ty, depth);
      SupportedFields(ty, from + 1, depth)
  }

  function SupportedCases(ty: Ty, from: nat, depth: nat): Result<(), Ty>
    requires ty.Variant? && from <= |ty.cases|
    decreases ty, 1, |ty.cases| - from
  {
    if from == |ty.cases| then Ok(())
    else
      var _ :- SupportedPayload(ty.cases[from].ty, depth);
      SupportedCases(ty, from + 1, depth)
  }

  function SupportedPayload(declared: Option<Ty>, depth: nat): Result<(), Ty>
    decreases declared, 3
  {
    match declared
    case None => Ok(())
    case Some(ty) => SupportedOne(ty, depth)
  }

  // ---------------------------------------------------------------------------------------------
  // Parts of a type
  // ---------------------------------------------------------------------------------------------

  ghost predicate IsChild(part: Ty, ty: Ty) {
    match ty
    case ListOf(item) => part == item
    case FixedLengthList(item, _) => part == item
    case OptionOf(some) => part == some
    case Tuple(types) => exists i | 0 <= i < |types| :: types[i] == part
    case Record(fields) => exists i | 0 <= i < |fields| :: fields[i].ty == part
    case Variant(cases) => exists i | 0 <= i < |cases| :: cases[i].ty == Some(part)
    case ResultOf(ok, err) => ok == Some(part) || err == Some(part)
    case _ => false
  }

  /** `part` occurs in `ty`, `n` levels down. */
  ghost predicate HasPart(ty: Ty, n: nat, part: Ty)
    decreases n
  {
    if n == 0 then part == ty else exists child: Ty :: IsChild(child, ty) && HasPart(child, n - 1, part)
  }

  /** A part the generator can come to from `ty`, one level down. */
  ghost predicate IsDrawn(part: Ty, ty: Ty, depth: nat, cap: nat) {
    match ty
    case ListOf(item) => part == item && 0 < depth && 0 < cap
    case FixedLengthList(item, length) => part == item && 0 < length
    case OptionOf(some) => part == some && 0 < depth
    case Variant(cases) => exists i | 0 <= i < |cases| && i < PICKABLE :: cases[i].ty == Some(part)
    case _ => IsChild(part, ty)
  }

  /** The generator, asked for `ty`, can come to `part`, `n` levels down. */
  ghost predicate DrawnPart(ty: Ty, depth: nat, cap: nat, n: nat, part: Ty)
    decreases n
  {
    if n == 0 then part == ty
    else exists child: Ty :: IsDrawn(child, ty, depth, cap) && DrawnPart(child, Shallower(depth), cap, n - 1, part)
  }

  ghost predicate BadPart(ty: Ty, depth: nat, cap: nat, n: nat, part: Ty) {
    DrawnPart(ty, depth, cap, n, part) && (Unspellable(part) || Uninhabited(part))
  }

  lemma {:induction false} RefusableByChild(ty: Ty, depth: nat, cap: nat)
    ensures CanRefuse(ty, depth, cap) <==>
              || Unspellable(ty)
              || Uninhabited(ty)
              || exists child: Ty :: IsDrawn(child, ty, depth, cap) && CanRefuse(child, Shallower(depth), cap)
  {
    match ty {
      case ListOf(item) => assert 0 < depth && 0 < cap ==> IsDrawn(item, ty, depth, cap);
      case FixedLengthList(item, length) => assert 0 < length ==> IsDrawn(item, ty, depth, cap);
      case OptionOf(some) => assert 0 < depth ==> IsDrawn(some, ty, depth, cap);
      case Tuple(types) => assert forall i | 0 <= i < |types| :: IsDrawn(types[i], ty, depth, cap);
      case Record(fields) => assert forall i | 0 <= i < |fields| :: IsDrawn(fields[i].ty, ty, depth, cap);
      case Variant(cases) =>
        assert forall i | 0 <= i < |cases| && i < PICKABLE ::
                 cases[i].ty.Some? ==> IsDrawn(cases[i].ty.value, ty, depth, cap);
      case ResultOf(ok, err) =>
        assert ok.Some? ==> IsDrawn(ok.value, ty, depth, cap);
        assert err.Some? ==> IsDrawn(err.value, ty, depth, cap);
      case _ =>
    }
  }

  lemma {:induction false} ChildIsSmaller(child: Ty, ty: Ty)
    requires IsChild(child, ty)
    ensures child < ty
  {
    match ty {
      case Record(fields) =>
        var i :| 0 <= i < |fields| && fields[i].ty == child;
        assert fields[i] in fields;
      case Variant(cases) =>
        var i :| 0 <= i < |cases| && cases[i].ty == Some(child);
        assert cases[i] in cases;
      case _ =>
    }
  }

  lemma {:induction false} DrawnIsChild(child: Ty, ty: Ty, depth: nat, cap: nat)
    requires IsDrawn(child, ty, depth, cap)
    ensures IsChild(child, ty) && child < ty
  {
    ChildIsSmaller(child, ty);
  }

  lemma {:induction false} DrawnIsPart(ty: Ty, depth: nat, cap: nat, n: nat, part: Ty)
    requires DrawnPart(ty, depth, cap, n, part)
    ensures HasPart(ty, n, part)
    decreases n
  {
    if n > 0 {
      var child: Ty :| IsDrawn(child, ty, depth, cap) && DrawnPart(child, Shallower(depth), cap, n - 1, part);
      DrawnIsChild(child, ty, depth, cap);
      DrawnIsPart(child, Shallower(depth), cap, n - 1, part);
    }
  }

  /** What can be refused, in terms of the parts drawing can come to. */
  lemma {:induction false} RefusableHasBadPart(ty: Ty, depth: nat, cap: nat)
    ensures CanRefuse(ty, depth, cap) <==> exists n: nat, part: Ty :: BadPart(ty, depth, cap, n, part)
    decreases ty
  {
    hide IsDrawn, CanRefuse;
    RefusableByChild(ty, depth, cap);
    if CanRefuse(ty, depth, cap) {
      if Unspellable(ty) || Uninhabited(ty) {
        assert BadPart(ty, depth, cap, 0, ty);
      } else {
        var child: Ty :| IsDrawn(child, ty, depth, cap) && CanRefuse(child, Shallower(depth), cap);
        DrawnIsChild(child, ty, depth, cap);
        RefusableHasBadPart(child, Shallower(depth), cap);
        var n: nat, part: Ty :| BadPart(child, Shallower(depth), cap, n, part);
        assert DrawnPart(ty, depth, cap, n + 1, part);
        assert BadPart(ty, depth, cap, n + 1, part);
      }
    }
    if n: nat, part: Ty :| BadPart(ty, depth, cap, n, part) {
      if n > 0 {
        var child: Ty :| IsDrawn(child, ty, depth, cap) && DrawnPart(child, Shallower(depth), cap, n - 1, part);
        DrawnIsChild(child, ty, depth, cap);
        RefusableHasBadPart(child, Shallower(depth), cap);
        assert BadPart(child, Shallower(depth), cap, n - 1, part);
      }
    }
  }

  lemma {:induction false} SupportedByChild(ty: Ty, depth: nat)
    requires 0 < depth
    ensures SupportedOne(ty, depth).Ok? <==>
              !Unspellable(ty) && forall child: Ty :: IsChild(child, ty) ==> SupportedOne(child, depth - 1).Ok?
  {
    if ty.Tuple? {
      TypesSupported(ty, 0, depth - 1);
      assert forall i | 0 <= i < |ty.types| :: IsChild(ty.types[i], ty);
    } else if ty.Record? {
      FieldsSupported(ty, 0, depth - 1);
      assert forall i | 0 <= i < |ty.fields| :: IsChild(ty.fields[i].ty, ty);
    } else if ty.Variant? {
      CasesSupported(ty, 0, depth - 1);
      assert forall i | 0 <= i < |ty.cases| :: ty.cases[i].ty.Some? ==> IsChild(ty.cases[i].ty.value, ty);
    } else {
      SupportedByFewChildren(ty, depth);
    }
  }

  lemma {:induction false} SupportedByFewChildren(ty: Ty, depth: nat)
    requires 0 < depth && !ty.Tuple? && !ty.Record? && !ty.Variant?
    ensures SupportedOne(ty, depth).Ok? <==>
              !Unspellable(ty) && forall child: Ty :: IsChild(child, ty) ==> SupportedOne(child, depth - 1).Ok?
  {
    match ty {
      case ListOf(item) => assert IsChild(item, ty);
      case FixedLengthList(item, _) => assert IsChild(item, ty);
      case OptionOf(some) => assert IsChild(some, ty);
      case ResultOf(ok, err) =>
        assert ok.Some? ==> IsChild(ok.value, ty);
        assert err.Some? ==> IsChild(err.value, ty);
      case _ =>
    }
  }

  lemma {:induction false} TypesSupported(ty: Ty, from: nat, depth: nat)
    requires ty.Tuple? && from <= |ty.types|
    ensures SupportedTypes(ty, from, depth).Ok? <==>
              forall i | from <= i < |ty.types| :: SupportedOne(ty.types[i], depth).Ok?
    decreases |ty.types| - from
  {
    hide SupportedOne;
    if from < |ty.types| {
      TypesSupported(ty, from + 1, depth);
    }
  }

  lemma {:induction false} FieldsSupported(ty: Ty, from: nat, depth: nat)
    requires ty.Record? && from <= |ty.fields|
    ensures SupportedFields(ty, from, depth).Ok? <==>
              forall i | from <= i < |ty.fields| :: SupportedOne(ty.fields[i].ty, depth).Ok?
    decreases |ty.fields| - from
  {
    hide SupportedOne;
    if from < |ty.fields| {
      FieldsSupported(ty, from + 1, depth);
    }
  }

  lemma {:induction false} CasesSupported(ty: Ty, from: nat, depth: nat)
    requires ty.Variant? && from <= |ty.cases|
    ensures SupportedCases(ty, from, depth).Ok? <==>
              forall i | from <= i < |ty.cases| :: SupportedPayload(ty.cases[i].ty, depth).Ok?
    decreases |ty.cases| - from
  {
    hide SupportedPayload;
    if from < |ty.cases| {
      CasesSupported(ty, from + 1, depth);
    }
  }

  ghost predicate CleanWithin(ty: Ty, depth: nat) {
    forall n: nat, part: Ty :: n < depth && HasPart(ty, n, part) ==> !Unspellable(part)
  }

  lemma {:induction false} CleanByChild(ty: Ty, depth: nat)
    requires 0 < depth
    ensures CleanWithin(ty, depth) <==>
              !Unspellable(ty) && forall child: Ty :: IsChild(child, ty) ==> CleanWithin(child, depth - 1)
  {
    hide IsChild;
    if CleanWithin(ty, depth) {
      assert HasPart(ty, 0, ty);
      forall child: Ty | IsChild(child, ty) ensures CleanWithin(child, depth - 1) {
        forall n: nat, part: Ty | n < depth - 1 && HasPart(child, n, part) ensures !Unspellable(part) {
          assert HasPart(ty, n + 1, part);
        }
      }
    }
    if !Unspellable(ty) && forall child: Ty :: IsChild(child, ty) ==> CleanWithin(child, depth - 1) {
      forall n: nat, part: Ty | n < depth && HasPart(ty, n, part) ensures !Unspellable(part) {
        if n > 0 {
          var child: Ty :| IsChild(child, ty) && HasPart(child, n - 1, part);
        }
      }
    }
  }

  /** The walk accepts exactly the types with no unspellable part in the levels it looks at. */
  lemma {:induction false} SupportedExactly(ty: Ty, depth: nat)
    ensures SupportedOne(ty, depth).Ok? <==> CleanWithin(ty, depth)
    decreases depth
  {
    if depth > 0 {
      SupportedByChild(ty, depth);
      CleanByChild(ty, depth);
      hide SupportedOne, CleanWithin;
      forall child: Ty | IsChild(child, ty)
        ensures SupportedOne(child, depth - 1).Ok? <==> CleanWithin(child, depth - 1)
      {
        SupportedExactly(child, depth - 1);
      }
    }
  }

  /** A part out of the walk's sight, or one it does not mind, that drawing can come to. */
  ghost predicate OverlookedPart(ty: Ty, depth: nat, cap: nat, n: nat, part: Ty) {
    && DrawnPart(ty, depth, cap, n, part)
    && ((DEFAULT_MAX_DEPTH <= n && Unspellable(part)) || Uninhabited(part))
  }

  /**
    A type the check accepts is still refused, by a generator of this depth and cap on some bytes,
    exactly when drawing can come to an unspellable part four or more levels down, or to a choice
    without cases at any level.
    */
  lemma {:induction false} AcceptedCanBeRefused(ty: Ty, depth: nat, cap: nat)
    requires SupportedOne(ty, DEFAULT_MAX_DEPTH).Ok?
    ensures SomeBytesRefuse(ty, depth, cap) <==>
              exists n: nat, part: Ty :: OverlookedPart(ty, depth, cap, n, part)
  {
    hide SupportedOne, CanRefuse, HasPart, DrawnPart, SomeBytesRefuse;
    SupportedExactly(ty, DEFAULT_MAX_DEPTH);
    RefusesExactly(ty, depth, cap);
    RefusableHasBadPart(ty, depth, cap);
    if CanRefuse(ty, depth, cap) {
      var n: nat, part: Ty :| BadPart(ty, depth, cap, n, part);
      DrawnIsPart(ty, depth, cap, n, part);
      assert OverlookedPart(ty, depth, cap, n, part);
    }
    if n: nat, part: Ty :| OverlookedPart(ty, depth, cap, n, part) {
      assert BadPart(ty, depth, cap, n, part);
    }
  }

  /** A handle under `n` options. */
  function OptionalHandle(n: nat): Ty {
    if n == 0 then Own else OptionOf(OptionalHandle(n - 1))
  }

  lemma {:induction false} OptionsHoldHandle(n: nat, walk: nat, depth: nat, cap: nat)
    ensures HasPart(OptionalHandle(n), n, Own)
    ensures SupportedOne(OptionalHandle(n), walk).Ok? <==> walk <= n
    ensures CanRefuse(OptionalHandle(n), depth, cap) <==> n <= depth
  {
    if n > 0 {
      var inner := OptionalHandle(n - 1);
      OptionsHoldHandle(n - 1, if walk == 0 then 0 else walk - 1, Shallower(depth), cap);
      assert IsChild(inner, OptionalHandle(n)) && HasPart(inner, n - 1, Own);
    }
  }

  /**
    How deep the handle lies does not tell by itself: under `n` options the walk overlooks it from four
    on, and yet drawing comes to it only when the generator goes that deep.
    */
  lemma {:induction false} HandleUnderOptions(n: nat, depth: nat, cap: nat)
    ensures HasPart(OptionalHandle(n), n, Own)
    ensures SupportedOne(OptionalHandle(n), DEFAULT_MAX_DEPTH).Ok? <==> DEFAULT_MAX_DEPTH <= n
    ensures SomeBytesRefuse(OptionalHandle(n), depth, cap) <==> n <= depth
  {
    OptionsHoldHandle(n, DEFAULT_MAX_DEPTH, depth, cap);
    RefusesExactly(OptionalHandle(n), depth, cap);
  }

  const DEEP_HANDLE := Tuple([Tuple([Tuple([Tuple([Own])])])])

  lemma {:induction false} AroundUnspelled(ty: Ty, item: Ty, depth: nat)
    requires ty == Tuple([item])
    requires forall v: Val :: Inhabits(v, item) ==> !Spelled(v)
    ensures forall v: Val :: Inhabits(v, ty) ==> !Spelled(v)
    ensures SupportedOne(item, depth).Ok? ==> SupportedOne(ty, depth + 1).Ok?
  {
    forall v: Val | Inhabits(v, ty) ensures !Spelled(v) {
      assert Inhabits(v.items[0], item);
    }
    assert SupportedTypes(ty, 1, depth).Ok?;
  }

  /** Such a type: accepted, yet no value of it can be spelled, so every attempt to generate one fails. */
  lemma {:induction false} DeepHandleAccepted()
    ensures SupportedOne(DEEP_HANDLE, DEFAULT_MAX_DEPTH).Ok?
    ensures forall v: Val :: Inhabits(v, DEEP_HANDLE) ==> !Spelled(v)
  {
    hide SupportedOne, Inhabits;
    var one, two, three := Tuple([Own]), Tuple([Tuple([Own])]), Tuple([Tuple([Tuple([Own])])]);
    HandlesUnspelled();
    AroundUnspelled(one, Own, 0);
    AroundUnspelled(two, one, 1);
    AroundUnspelled(three, two, 2);
    AroundUnspelled(DEEP_HANDLE, three, 3);
  }

  lemma {:induction false} HandlesUnspelled()
    ensures forall v: Val :: Inhabits(v, Own) ==> !Spelled(v)
    ensures SupportedOne(Own, 0).Ok?
  {
  }
}
