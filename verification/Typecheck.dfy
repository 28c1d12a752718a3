/**
  The structural check `Plugin::call` makes before it enters a guest, and what it decides.

  `Conforms` walks a value and its type left to right and stops at the first disagreement. It succeeds
  exactly on the type's inhabitants, and otherwise names the one disagreement nothing comes before.
  */
module Typecheck {
  import opened Wrappers
  import opened ComponentTypes

  /** One step of a path, from a value and its type down to a part of both. */
  datatype Step =
    | Item(i: nat)
    | KeyOf(i: nat)
    | ValueOf(i: nat)
    | FieldStep(i: nat, name: string)
    | TupleItem(i: nat)
    | CaseStep(name: string)
    | SomeStep
    | OkStep
    | ErrStep

  /** How a value departs from its type at one place. */
  datatype Fault =
    | WrongKind
    | WrongCount
    | WrongName(i: nat)
    | UnknownCase
    | UnknownFlag(i: nat)
    | MissingPayload
    | ExtraPayload

  datatype Mismatch = Mismatch(path: seq<Step>, fault: Fault)

  type Verdict = Result<(), Mismatch>

  // ---------------------------------------------------------------------------------------------
  // The check
  // ---------------------------------------------------------------------------------------------

  function Fails(fault: Fault): Verdict {
    Err(Mismatch([], fault))
  }

  function Under(r: Verdict, step: Step): Verdict {
    match r
    case Ok(_) => r
    case Err(m) => Err(m.(path := [step] + m.path))
  }

  function Unless(bad: bool, fault: Fault): Verdict {
    if bad then Fails(fault) else Ok(())
  }

  function Conforms(v: Val, ty: Ty): Verdict
    decreases ty, 2
  {
    match ty
    case Bool => Unless(!v.BoolVal?, WrongKind)
    case Int(width) => Unless(!v.IntVal? || v.number.width != width, WrongKind)
    case Float32 => Unless(!v.Float32Val?, WrongKind)
    case Float64 => Unless(!v.Float64Val?, WrongKind)
    case Char => Unless(!v.CharVal?, WrongKind)
    case String => Unless(!v.StringVal?, WrongKind)
    case ListOf(item) =>
      if !v.ListVal? then Fails(WrongKind) else ConformsItems(v.items, item, 0)
    case FixedLengthList(item, length) =>
      if !v.FixedLengthListVal? && !v.ListVal? then Fails(WrongKind)
      else if |v.items| != length then Fails(WrongCount)
      else ConformsItems(v.items, item, 0)
    case MapOf(key, value) =>
      if !v.MapVal? then Fails(WrongKind) else ConformsPairs(v.pairs, ty, 0)
    case Record(fields) =>
      if !v.RecordVal? then Fails(WrongKind)
      else if |fields| != |v.fields| then Fails(WrongCount)
      else ConformsFields(v.fields, ty, 0)
    case Tuple(types) =>
      if !v.TupleVal? then Fails(WrongKind)
      else if |types| != |v.items| then Fails(WrongCount)
      else ConformsTuple(v.items, ty, 0)
    case Enum(names) =>
      if !v.EnumVal? then Fails(WrongKind) else Unless(v.tag !in names, UnknownCase)
    case Variant(cases) =>
      if !v.VariantVal? then Fails(WrongKind)
      else
        (match CaseNamed(cases, v.tag)
         case None => Fails(UnknownCase)
         case Some(declared) => Under(ConformsPayload(v.payload, declared), CaseStep(v.tag)))
    case OptionOf(some) =>
      if !v.OptionVal? then Fails(WrongKind)
      else
        (match v.payload
         case None => Ok(())
         case Some(payload) => Under(Conforms(payload, some), SomeStep))
    case ResultOf(ok, err) =>
      if !v.ResultVal? then Fails(WrongKind)
      else if v.isOk then Under(ConformsPayload(v.payload, ok), OkStep)
      else Under(ConformsPayload(v.payload, err), ErrStep)
    case Flags(names) =>
      if !v.FlagsVal? then Fails(WrongKind) else ConformsFlags(v.flags, names, 0)
    case Own => Unless(!v.ResourceVal?, WrongKind)
    case Borrow => Unless(!v.ResourceVal?, WrongKind)
    case Future => Unless(!v.FutureVal?, WrongKind)
    case Stream => Unless(!v.StreamVal?, WrongKind)
    case ErrorContext => Unless(!v.ErrorContextVal?, WrongKind)
  }

  function ConformsItems(items: seq<Val>, item: Ty, from: nat): Verdict
    requires from <= |items|
    decreases item, 3, |items| - from
  {
    if from == |items| then Ok(())
    else
      var _ :- Under(Conforms(items[from], item), Item(from));
      ConformsItems(items, item, from + 1)
  }

  function ConformsPairs(pairs: seq<Pair>, ty: Ty, from: nat): Verdict
    requires ty.MapOf? && from <= |pairs|
    decreases ty, 1, |pairs| - from
  {
    if from == |pairs| then Ok(())
    else
      var _ :- Under(Conforms(pairs[from].key, ty.key), KeyOf(from));
      var _ :- Under(Conforms(pairs[from].value, ty.value), ValueOf(from));
      ConformsPairs(pairs, ty, from + 1)
  }

  function ConformsFields(fields: seq<FieldVal>, ty: Ty, from: nat): Verdict
    requires ty.Record? && |fields| == |ty.fields| && from <= |fields|
    decreases ty, 1, |fields| - from
  {
    if from == |fields| then Ok(())
    else if ty.fields[from].name != fields[from].name then Fails(WrongName(from))
    else
      var _ :- Under(Conforms(fields[from].val, ty.fields[from].ty), FieldStep(from, fields[from].name));
      ConformsFields(fields, ty, from + 1)
  }

  function ConformsTuple(items: seq<Val>, ty: Ty, from: nat): Verdict
    requires ty.Tuple? && |items| == |ty.types| && from <= |items|
    decreases ty, 1, |items| - from
  {
    if from == |items| then Ok(())
    else
      var _ :- Under(Conforms(items[from], ty.types[from]), TupleItem(from));
      ConformsTuple(items, ty, from + 1)
  }

  function ConformsFlags(flags: seq<string>, names: seq<string>, from: nat): Verdict
    requires from <= |flags|
    decreases |flags| - from
  {
    if from == |flags| then Ok(())
    else if flags[from] !in names then Fails(UnknownFlag(from))
    else ConformsFlags(flags, names, from + 1)
  }

  function ConformsPayload(payload: Option<Val>, declared: Option<Ty>): Verdict
    decreases declared, 3
  {
    match (declared, payload)
    case (Some(ty), Some(v)) => Conforms(v, ty)
    case (None, None) => Ok(())
    case (Some(_), None) => Fails(MissingPayload)
    case (None, Some(_)) => Fails(ExtraPayload)
  }

  // ---------------------------------------------------------------------------------------------
  // Disagreements, and the order they come in
  // ---------------------------------------------------------------------------------------------

  /** A place in a value and, beside it, the same place in the type. */
  datatype Node = Node(val: Option<Val>, ty: Option<Ty>)

  ghost predicate Fits(node: Node) {
    InhabitsPayload(node.val, node.ty)
  }

  predicate SameKind(v: Val, ty: Ty) {
    match ty
    case Bool => v.BoolVal?
    case Int(width) => v.IntVal? && v.number.width == width
    case Float32 => v.Float32Val?
    case Float64 => v.Float64Val?
    case Char => v.CharVal?
    case String => v.StringVal?
    case ListOf(_) => v.ListVal?
    case FixedLengthList(_, _) => v.FixedLengthListVal? || v.ListVal?
    case MapOf(_, _) => v.MapVal?
    case Record(_) => v.RecordVal?
    case Tuple(_) => v.TupleVal?
    case Variant(_) => v.VariantVal?
    case Enum(_) => v.EnumVal?
    case OptionOf(_) => v.OptionVal?
    case ResultOf(_, _) => v.ResultVal?
    case Flags(_) => v.FlagsVal?
    case Own => v.ResourceVal?
    case Borrow => v.ResourceVal?
    case Future => v.FutureVal?
    case Stream => v.StreamVal?
    case ErrorContext => v.ErrorContextVal?
  }

  predicate SameCount(v: Val, ty: Ty)
    requires SameKind(v, ty)
  {
    match ty
    case FixedLengthList(_, length) => |v.items| == length
    case Record(fields) => |v.fields| == |fields|
    case Tuple(types) => |v.items| == |types|
    case _ => true
  }

  /** The value departs from the type right here, and not in a part. */
  predicate HasFault(node: Node, fault: Fault) {
    match (node.val, node.ty)
    case (None, None) => false
    case (Some(_), None) => fault == ExtraPayload
    case (None, Some(_)) => fault == MissingPayload
    case (Some(v), Some(ty)) =>
      if !SameKind(v, ty) then fault == WrongKind
      else if !SameCount(v, ty) then fault == WrongCount
      else
        match ty
        case Record(fields) => fault.WrongName? && fault.i < |fields| && v.fields[fault.i].name != fields[fault.i].name
        case Variant(cases) => fault == UnknownCase && CaseNamed(cases, v.tag).None?
        case Enum(names) => fault == UnknownCase && v.tag !in names
        case Flags(names) => fault.UnknownFlag? && fault.i < |v.flags| && v.flags[fault.i] !in names
        case _ => false
  }

  function Both(v: Val, ty: Ty): Node {
    Node(Some(v), Some(ty))
  }

  /** Where a step leads; a step into a value of another kind or count leads nowhere. */
  function Child(node: Node, step: Step): Option<Node> {
    match (node.val, node.ty)
    case (Some(v), Some(ty)) =>
      if !SameKind(v, ty) || !SameCount(v, ty) then None
      else
        (match ty
         case ListOf(item) =>
           if step.Item? && step.i < |v.items| then Some(Both(v.items[step.i], item)) else None
         case FixedLengthList(item, _) =>
           if step.Item? && step.i < |v.items| then Some(Both(v.items[step.i], item)) else None
         case MapOf(key, value) =>
           if step.KeyOf? && step.i < |v.pairs| then Some(Both(v.pairs[step.i].key, key))
           else if step.ValueOf? && step.i < |v.pairs| then Some(Both(v.pairs[step.i].value, value))
           else None
         case Record(fields) =>
           if step.FieldStep? && step.i < |fields| && step.name == v.fields[step.i].name
           then Some(Both(v.fields[step.i].val, fields[step.i].ty)) else None
         case Tuple(types) =>
           if step.TupleItem? && step.i < |types| then Some(Both(v.items[step.i], types[step.i])) else None
         case Variant(cases) =>
           if step == CaseStep(v.tag) && CaseNamed(cases, v.tag).Some?
           then Some(Node(v.payload, CaseNamed(cases, v.tag).value)) else None
         case OptionOf(some) =>
           if step == SomeStep && v.payload.Some? then Some(Both(v.payload.value, some)) else None
         case ResultOf(ok, err) =>
           if step == OkStep && v.isOk then Some(Node(v.payload, ok))
           else if step == ErrStep && !v.isOk then Some(Node(v.payload, err))
           else None
         case _ => None)
    case _ => None
  }

  /** Left to right: a record field's name comes before its value, a pair's key before its value. */
  function RankFault(fault: Fault): nat {
    if fault.WrongName? || fault.UnknownFlag? then 2 * fault.i + 1 else 0
  }

  function RankStep(step: Step): nat {
    match step
    case KeyOf(i) => 2 * i + 1
    case Item(i) => 2 * i + 2
    case ValueOf(i) => 2 * i + 2
    case FieldStep(i, _) => 2 * i + 2
    case TupleItem(i) => 2 * i + 2
    case _ => 1
  }

  ghost predicate FineBelow(node: Node, rank: nat) {
    && (forall f: Fault :: HasFault(node, f) ==> rank <= RankFault(f))
    && (forall s: Step :: Child(node, s).Some? && RankStep(s) < rank ==> Fits(Child(node, s).value))
  }

  /** The path leads to this fault, and everything that comes before it, at every level, is fine. */
  ghost predicate First(node: Node, path: seq<Step>, fault: Fault)
    decreases |path|
  {
    if path == [] then HasFault(node, fault) && FineBelow(node, RankFault(fault))
    else
      && Child(node, path[0]).Some?
      && FineBelow(node, RankStep(path[0]))
      && First(Child(node, path[0]).value, path[1..], fault)
  }

  // ---------------------------------------------------------------------------------------------
  // What the check decides
  // ---------------------------------------------------------------------------------------------

  ghost predicate PartsFit(node: Node) {
    && (forall f: Fault :: !HasFault(node, f))
    && (forall s: Step :: Child(node, s).Some? ==> Fits(Child(node, s).value))
  }

  /** A value fits its type exactly when it departs from it neither here nor in any part. */
  lemma {:induction false} FitsByParts(node: Node)
    ensures Fits(node) <==> PartsFit(node)
  {
    hide PartsFit;
    if node.val.Some? && node.ty.Some? {
      var v, ty := node.val.value, node.ty.value;
      if SameKind(v, ty) && SameCount(v, ty) {
        PartsMakeWhole(node, v, ty);
      } else {
        InhabitantsMatch(v, ty);
        HasAFault(node, if SameKind(v, ty) then WrongCount else WrongKind);
      }
    } else if node.val.Some? {
      HasAFault(node, ExtraPayload);
    } else if node.ty.Some? {
      HasAFault(node, MissingPayload);
    } else {
      NothingFits(node);
    }
  }

  lemma {:induction false} NothingFits(node: Node)
    requires node.val.None? && node.ty.None?
    ensures PartsFit(node)
  {
  }

  lemma {:induction false} HasAFault(node: Node, fault: Fault)
    requires HasFault(node, fault)
    ensures !PartsFit(node)
  {
  }

  lemma {:induction false} InhabitantsMatch(v: Val, ty: Ty)
    ensures Inhabits(v, ty) ==> SameKind(v, ty) && SameCount(v, ty)
  {
  }

  lemma {:induction false} PartsMakeWhole(node: Node, v: Val, ty: Ty)
    requires node == Both(v, ty) && SameKind(v, ty) && SameCount(v, ty)
    ensures Inhabits(v, ty) <==> PartsFit(node)
  {
    match ty {
      case ListOf(_) => ItemsParts(node, v, ty);
      case FixedLengthList(_, _) => ItemsParts(node, v, ty);
      case MapOf(_, _) => PairsParts(node, v, ty);
      case Record(_) => FieldsParts(node, v, ty);
      case Tuple(_) => TupleParts(node, v, ty);
      case Variant(_) => VariantParts(node, v, ty);
      case OptionOf(_) => PayloadParts(node, v, ty);
      case ResultOf(_, _) => PayloadParts(node, v, ty);
      case Enum(_) => NamesParts(node, v, ty);
      case Flags(_) => NamesParts(node, v, ty);
      case _ =>
    }
  }

  lemma {:induction false} ItemsParts(node: Node, v: Val, ty: Ty)
    requires node == Both(v, ty) && SameKind(v, ty) && SameCount(v, ty) && (ty.ListOf? || ty.FixedLengthList?)
    ensures Inhabits(v, ty) <==> PartsFit(node)
  {
    assert forall i: nat | i < |v.items| :: Child(node, Item(i)) == Some(Both(v.items[i], ty.item));
  }

  lemma {:induction false} PairsParts(node: Node, v: Val, ty: Ty)
    requires node == Both(v, ty) && SameKind(v, ty) && ty.MapOf?
    ensures Inhabits(v, ty) <==> PartsFit(node)
  {
    assert forall i: nat | i < |v.pairs| :: Child(node, KeyOf(i)) == Some(Both(v.pairs[i].key, ty.key));
    assert forall i: nat | i < |v.pairs| :: Child(node, ValueOf(i)) == Some(Both(v.pairs[i].value, ty.value));
  }

  lemma {:induction false} FieldsParts(node: Node, v: Val, ty: Ty)
    requires node == Both(v, ty) && SameKind(v, ty) && SameCount(v, ty) && ty.Record?
    ensures Inhabits(v, ty) <==> PartsFit(node)
  {
    assert forall i: nat | i < |v.fields| ::
             Child(node, FieldStep(i, v.fields[i].name)) == Some(Both(v.fields[i].val, ty.fields[i].ty));
    assert forall i: nat | i < |v.fields| ::
             v.fields[i].name != ty.fields[i].name ==> HasFault(node, WrongName(i));
  }

  lemma {:induction false} TupleParts(node: Node, v: Val, ty: Ty)
    requires node == Both(v, ty) && SameKind(v, ty) && SameCount(v, ty) && ty.Tuple?
    ensures Inhabits(v, ty) <==> PartsFit(node)
  {
    assert forall i: nat | i < |v.items| :: Child(node, TupleItem(i)) == Some(Both(v.items[i], ty.types[i]));
  }

  lemma {:induction false} VariantParts(node: Node, v: Val, ty: Ty)
    requires node == Both(v, ty) && SameKind(v, ty) && ty.Variant?
    ensures Inhabits(v, ty) <==> PartsFit(node)
  {
    var found := CaseNamed(ty.cases, v.tag);
    if found.None? {
      assert HasFault(node, UnknownCase);
    } else {
      assert Child(node, CaseStep(v.tag)) == Some(Node(v.payload, found.value));
    }
  }

  lemma {:induction false} PayloadParts(node: Node, v: Val, ty: Ty)
    requires node == Both(v, ty) && SameKind(v, ty) && (ty.OptionOf? || ty.ResultOf?)
    ensures Inhabits(v, ty) <==> PartsFit(node)
  {
    if ty.OptionOf? {
      assert v.payload.Some? ==> Child(node, SomeStep) == Some(Both(v.payload.value, ty.some));
    } else {
      assert Child(node, if v.isOk then OkStep else ErrStep)
          == Some(Node(v.payload, if v.isOk then ty.ok else ty.err));
    }
  }

  lemma {:induction false} NamesParts(node: Node, v: Val, ty: Ty)
    requires node == Both(v, ty) && SameKind(v, ty) && (ty.Enum? || ty.Flags?)
    ensures Inhabits(v, ty) <==> PartsFit(node)
  {
    if ty.Enum? {
      assert v.tag !in ty.names ==> HasFault(node, UnknownCase);
    } else {
      assert forall i: nat | i < |v.flags| :: v.flags[i] !in ty.names ==> HasFault(node, UnknownFlag(i));
    }
  }

  lemma {:induction false} FirstDoesNotFit(node: Node, path: seq<Step>, fault: Fault)
    requires First(node, path, fault)
    ensures !Fits(node)
    decreases |path|
  {
    FitsByParts(node);
    if path != [] {
      FirstDoesNotFit(Child(node, path[0]).value, path[1..], fault);
    }
  }

  /** What a verdict about a node has to mean. */
  ghost predicate Decides(node: Node, r: Verdict) {
    match r
    case Ok(_) => Fits(node)
    case Err(m) => First(node, m.path, m.fault)
  }

  lemma {:induction false} Descend(node: Node, step: Step, r: Verdict)
    requires Child(node, step).Some? && FineBelow(node, RankStep(step))
    requires r.Err? && Decides(Child(node, step).value, r)
    ensures Decides(node, Under(r, step))
  {
    hide Child, FineBelow;
    var m := r.error;
    assert ([step] + m.path)[1..] == m.path;
  }

  lemma {:induction false} Faulty(node: Node, fault: Fault)
    requires HasFault(node, fault) && FineBelow(node, RankFault(fault))
    ensures Decides(node, Fails(fault))
  {
  }

  lemma {:induction false} PassPart(node: Node, rank: nat)
    requires FineBelow(node, rank)
    requires forall f: Fault :: HasFault(node, f) ==> RankFault(f) != rank
    requires forall s: Step :: Child(node, s).Some? && RankStep(s) == rank ==> Fits(Child(node, s).value)
    ensures FineBelow(node, rank + 1)
  {
    hide HasFault, Child, Fits, RankFault, RankStep;
  }

  lemma {:induction false} PassedAll(node: Node, rank: nat)
    requires FineBelow(node, rank)
    requires forall f: Fault :: HasFault(node, f) ==> RankFault(f) < rank
    requires forall s: Step :: Child(node, s).Some? ==> RankStep(s) < rank
    ensures Fits(node)
  {
    FitsByParts(node);
    hide HasFault, Child, Fits, RankFault, RankStep;
  }

  /** Nothing comes before the first part. */
  lemma {:induction false} FineAtFirst(node: Node)
    ensures FineBelow(node, 0)
    ensures (forall f: Fault :: HasFault(node, f) ==> 0 < RankFault(f)) ==> FineBelow(node, 1)
  {
  }

  lemma {:induction false} ItemsDecide(v: Val, ty: Ty, from: nat)
    requires (ty.ListOf? || ty.FixedLengthList?) && SameKind(v, ty) && SameCount(v, ty) && from <= |v.items|
    requires FineBelow(Both(v, ty), 2 * from + 1)
    ensures Decides(Both(v, ty), ConformsItems(v.items, ty.item, from))
    decreases ty, 1, |v.items| - from
  {
    hide FineBelow, Fits, Decides;
    var node := Both(v, ty);
    if from == |v.items| {
      PassedAll(node, 2 * from + 1);
      assert Decides(node, Ok(())) by { FitsDecides(node); }
    } else {
      var r := Conforms(v.items[from], ty.item);
      ConformsDecides(v.items[from], ty.item);
      PassPart(node, 2 * from + 1);
      if r.Err? {
        Descend(node, Item(from), r);
      } else {
        DecidedFits(Both(v.items[from], ty.item), r);
        PassPart(node, 2 * from + 2);
        ItemsDecide(v, ty, from + 1);
      }
    }
  }

  lemma {:induction false} FitsDecides(node: Node)
    requires Fits(node)
    ensures Decides(node, Ok(()))
  {
  }

  lemma {:induction false} DecidedFits(node: Node, r: Verdict)
    requires Decides(node, r) && r.Ok?
    ensures Fits(node)
  {
  }

  lemma {:induction false} TupleDecides(v: Val, ty: Ty, from: nat)
    requires ty.Tuple? && SameKind(v, ty) && SameCount(v, ty) && from <= |v.items|
    requires FineBelow(Both(v, ty), 2 * from + 1)
    ensures Decides(Both(v, ty), ConformsTuple(v.items, ty, from))
    decreases ty, 1, |v.items| - from
  {
    hide FineBelow, Fits, Decides;
    var node := Both(v, ty);
    if from == |v.items| {
      PassedAll(node, 2 * from + 1);
      FitsDecides(node);
    } else {
      var r := Conforms(v.items[from], ty.types[from]);
      ConformsDecides(v.items[from], ty.types[from]);
      PassPart(node, 2 * from + 1);
      if r.Err? {
        Descend(node, TupleItem(from), r);
      } else {
        DecidedFits(Both(v.items[from], ty.types[from]), r);
        PassPart(node, 2 * from + 2);
        TupleDecides(v, ty, from + 1);
      }
    }
  }

  lemma {:induction false} FieldsDecide(v: Val, ty: Ty, from: nat)
    requires ty.Record? && SameKind(v, ty) && SameCount(v, ty) && from <= |v.fields|
    requires FineBelow(Both(v, ty), 2 * from + 1)
    ensures Decides(Both(v, ty), ConformsFields(v.fields, ty, from))
    decreases ty, 1, |v.fields| - from
  {
    hide FineBelow, Fits, Decides;
    var node := Both(v, ty);
    if from == |v.fields| {
      PassedAll(node, 2 * from + 1);
      FitsDecides(node);
    } else if ty.fields[from].name != v.fields[from].name {
      Faulty(node, WrongName(from));
    } else {
      var field, declared := v.fields[from], ty.fields[from].ty;
      var r := Conforms(field.val, declared);
      ConformsDecides(field.val, declared);
      PassPart(node, 2 * from + 1);
      if r.Err? {
        Descend(node, FieldStep(from, field.name), r);
      } else {
        DecidedFits(Both(field.val, declared), r);
        PassPart(node, 2 * from + 2);
        FieldsDecide(v, ty, from + 1);
      }
    }
  }

  lemma {:induction false} PairsDecide(v: Val, ty: Ty, from: nat)
    requires ty.MapOf? && SameKind(v, ty) && from <= |v.pairs|
    requires FineBelow(Both(v, ty), 2 * from + 1)
    ensures Decides(Both(v, ty), ConformsPairs(v.pairs, ty, from))
    decreases ty, 1, |v.pairs| - from
  {
    hide FineBelow, Fits, Decides;
    var node := Both(v, ty);
    if from == |v.pairs| {
      PassedAll(node, 2 * from + 1);
      FitsDecides(node);
    } else {
      var pair := v.pairs[from];
      var r := Conforms(pair.key, ty.key);
      ConformsDecides(pair.key, ty.key);
      if r.Err? {
        Descend(node, KeyOf(from), r);
      } else {
        DecidedFits(Both(pair.key, ty.key), r);
        PassPart(node, 2 * from + 1);
        var q := Conforms(pair.value, ty.value);
        ConformsDecides(pair.value, ty.value);
        if q.Err? {
          Descend(node, ValueOf(from), q);
        } else {
          DecidedFits(Both(pair.value, ty.value), q);
          PassPart(node, 2 * from + 2);
          PairsDecide(v, ty, from + 1);
        }
      }
    }
  }

  lemma {:induction false} FlagsDecide(v: Val, ty: Ty, from: nat)
    requires ty.Flags? && SameKind(v, ty) && from <= |v.flags|
    requires FineBelow(Both(v, ty), 2 * from + 1)
    ensures Decides(Both(v, ty), ConformsFlags(v.flags, ty.names, from))
    decreases |v.flags| - from
  {
    hide FineBelow, Fits, Decides;
    var node := Both(v, ty);
    if from == |v.flags| {
      PassedAll(node, 2 * from + 1);
      FitsDecides(node);
    } else if v.flags[from] !in ty.names {
      Faulty(node, UnknownFlag(from));
    } else {
      PassPart(node, 2 * from + 1);
      PassPart(node, 2 * from + 2);
      FlagsDecide(v, ty, from + 1);
    }
  }

  lemma {:induction false} PayloadDecides(payload: Option<Val>, declared: Option<Ty>)
    ensures Decides(Node(payload, declared), ConformsPayload(payload, declared))
    decreases declared, 3
  {
    hide FineBelow;
    FineAtFirst(Node(payload, declared));
    if payload.Some? && declared.Some? {
      ConformsDecides(payload.value, declared.value);
    }
  }

  /** One part only: the verdict about it, one step down, is the verdict. */
  lemma {:induction false} OnlyPart(node: Node, step: Step, r: Verdict)
    requires node.val.Some? && node.ty.Some?
    requires node.ty.value.Variant? || node.ty.value.OptionOf? || node.ty.value.ResultOf?
    requires Child(node, step).Some? && Decides(Child(node, step).value, r)
    ensures Decides(node, Under(r, step))
  {
    FineAtFirst(node);
    if r.Err? {
      Descend(node, step, r);
    } else {
      PassPart(node, 1);
      PassedAll(node, 2);
    }
  }

  lemma {:induction false} VariantDecides(v: Val, ty: Ty)
    requires ty.Variant? && v.VariantVal?
    ensures Decides(Both(v, ty), Conforms(v, ty))
    decreases ty, 1
  {
    hide FineBelow, Decides, ConformsPayload;
    var node := Both(v, ty);
    var found := CaseNamed(ty.cases, v.tag);
    if found.None? {
      FineAtFirst(node);
      Faulty(node, UnknownCase);
    } else {
      PayloadDecides(v.payload, found.value);
      OnlyPart(node, CaseStep(v.tag), ConformsPayload(v.payload, found.value));
    }
  }

  lemma {:induction false} OptionDecides(v: Val, ty: Ty)
    requires (ty.OptionOf? && v.OptionVal?) || (ty.ResultOf? && v.ResultVal?)
    ensures Decides(Both(v, ty), Conforms(v, ty))
    decreases ty, 1
  {
    hide FineBelow, ConformsPayload;
    var node := Both(v, ty);
    if ty.ResultOf? {
      var step, declared := if v.isOk then OkStep else ErrStep, if v.isOk then ty.ok else ty.err;
      PayloadDecides(v.payload, declared);
      OnlyPart(node, step, ConformsPayload(v.payload, declared));
    } else if v.payload.Some? {
      ConformsDecides(v.payload.value, ty.some);
      OnlyPart(node, SomeStep, Conforms(v.payload.value, ty.some));
    } else {
      assert Inhabits(v, ty);
    }
  }

  /** The check at a node without parts. */
  lemma {:induction false} LeafDecides(v: Val, ty: Ty)
    requires !SameKind(v, ty) || !SameCount(v, ty) || ty.Enum?
    ensures Decides(Both(v, ty), Conforms(v, ty))
  {
    hide FineBelow, Decides;
    var node := Both(v, ty);
    FineAtFirst(node);
    if !SameKind(v, ty) {
      Faulty(node, WrongKind);
    } else if !SameCount(v, ty) {
      Faulty(node, WrongCount);
    } else if v.tag !in ty.names {
      Faulty(node, UnknownCase);
    } else {
      FitsDecides(node);
    }
  }

  /**
    The check succeeds exactly on the inhabitants of the type; and when it fails, it names the first
    disagreement: its path leads to a fault before which, at every level, everything is fine.
    */
  lemma {:induction false} ConformsDecides(v: Val, ty: Ty)
    ensures Decides(Both(v, ty), Conforms(v, ty))
    decreases ty, 2
  {
    hide FineBelow, Decides;
    var node := Both(v, ty);
    if !SameKind(v, ty) || !SameCount(v, ty) || ty.Enum? {
      LeafDecides(v, ty);
    } else {
      FineAtFirst(node);
      match ty {
        case ListOf(_) => ItemsDecide(v, ty, 0);
        case FixedLengthList(_, _) => ItemsDecide(v, ty, 0);
        case MapOf(_, _) => PairsDecide(v, ty, 0);
        case Record(_) => FieldsDecide(v, ty, 0);
        case Tuple(_) => TupleDecides(v, ty, 0);
        case Flags(_) => FlagsDecide(v, ty, 0);
        case Variant(_) => VariantDecides(v, ty);
        case OptionOf(_) => OptionDecides(v, ty);
        case ResultOf(_, _) => OptionDecides(v, ty);
        case _ => FitsDecides(node);
      }
    }
  }

  lemma {:induction false} FirstIsUnique(
    node: Node, path: seq<Step>, fault: Fault, otherPath: seq<Step>, otherFault: Fault)
    requires First(node, path, fault) && First(node, otherPath, otherFault)
    ensures path == otherPath && fault == otherFault
    decreases |path|
  {
    hide HasFault, Child, Fits;
    if path != [] {
      FirstDoesNotFit(Child(node, path[0]).value, path[1..], fault);
    }
    if otherPath != [] {
      FirstDoesNotFit(Child(node, otherPath[0]).value, otherPath[1..], otherFault);
    }
    if path != [] && otherPath != [] {
      StepsAreRanked(node, path[0], otherPath[0]);
      FirstIsUnique(Child(node, path[0]).value, path[1..], fault, otherPath[1..], otherFault);
      assert path == [path[0]] + path[1..] && otherPath == [otherPath[0]] + otherPath[1..];
    } else {
      FaultsAreRanked(node, path, fault, otherPath, otherFault);
    }
  }

  lemma {:induction false} StepsAreRanked(node: Node, a: Step, b: Step)
    requires Child(node, a).Some? && Child(node, b).Some? && RankStep(a) == RankStep(b)
    ensures a == b
  {
  }

  lemma {:induction false} FaultsAreRanked(
    node: Node, path: seq<Step>, fault: Fault, otherPath: seq<Step>, otherFault: Fault)
    requires First(node, path, fault) && First(node, otherPath, otherFault) && (path == [] || otherPath == [])
    ensures path == otherPath == [] && fault == otherFault
  {
    if path != [] {
      FirstDoesNotFit(Child(node, path[0]).value, path[1..], fault);
    }
    if otherPath != [] {
      FirstDoesNotFit(Child(node, otherPath[0]).value, otherPath[1..], otherFault);
    }
  }

  /** Succeeding is inhabiting, and the mismatch reported is the one and only first disagreement. */
  lemma {:induction false} ConformsExactly(v: Val, ty: Ty, m: Mismatch)
    ensures Conforms(v, ty).Ok? <==> Inhabits(v, ty)
    ensures Conforms(v, ty) == Err(m) <==> First(Both(v, ty), m.path, m.fault)
  {
    hide FineBelow, Conforms;
    var r := Conforms(v, ty);
    ConformsDecides(v, ty);
    if r.Err? {
      FirstDoesNotFit(Both(v, ty), r.error.path, r.error.fault);
    }
    if First(Both(v, ty), m.path, m.fault) {
      FirstDoesNotFit(Both(v, ty), m.path, m.fault);
      FirstIsUnique(Both(v, ty), m.path, m.fault, r.error.path, r.error.fault);
    }
  }

  // ---------------------------------------------------------------------------------------------
  // Argument lists
  // ---------------------------------------------------------------------------------------------

  datatype Refusal = WrongArity(expected: nat, got: nat) | BadArgument(index: nat, mismatch: Mismatch)

  function CheckFrom(params: seq<Ty>, args: seq<Val>, from: nat): Result<(), Refusal>
    requires from <= |params| == |args|
    decreases |params| - from
  {
    if from == |params| then Ok(())
    else
      match Conforms(args[from], params[from])
      case Err(m) => Err(BadArgument(from, m))
      case Ok(_) => CheckFrom(params, args, from + 1)
  }

  function CheckArgs(params: seq<Ty>, args: seq<Val>): Result<(), Refusal> {
    if |params| != |args| then Err(WrongArity(|params|, |args|)) else CheckFrom(params, args, 0)
  }

  ghost predicate InhabitAll(args: seq<Val>, params: seq<Ty>) {
    && |args| == |params|
    && forall i | 0 <= i < |params| :: Inhabits(args[i], params[i])
  }

  lemma {:induction false} CheckFromExactly(params: seq<Ty>, args: seq<Val>, from: nat)
    requires from <= |params| == |args|
    ensures CheckFrom(params, args, from).Ok? <==> forall i | from <= i < |params| :: Inhabits(args[i], params[i])
    ensures match CheckFrom(params, args, from)
            case Ok(_) => true
            case Err(e) =>
              && e.BadArgument? && from <= e.index < |params|
              && (forall i | from <= i < e.index :: Inhabits(args[i], params[i]))
              && First(Both(args[e.index], params[e.index]), e.mismatch.path, e.mismatch.fault)
              && !Inhabits(args[e.index], params[e.index])
    decreases |params| - from
  {
    hide Conforms, Inhabits, First;
    if from < |params| {
      var r := Conforms(args[from], params[from]);
      ConformsExactly(args[from], params[from], if r.Err? then r.error else Mismatch([], WrongKind));
      CheckFromExactly(params, args, from + 1);
    }
  }

  /**
    The whole check: it passes exactly the lists that fit, complains of the count only when the counts
    differ, and otherwise blames the first argument that does not fit, at its first disagreement.
    */
  lemma {:induction false} CheckArgsExactly(params: seq<Ty>, args: seq<Val>)
    ensures CheckArgs(params, args).Ok? <==> InhabitAll(args, params)
    ensures match CheckArgs(params, args)
            case Ok(_) => true
            case Err(WrongArity(expected, got)) => expected == |params| != |args| == got
            case Err(BadArgument(index, m)) =>
              && |args| == |params| && index < |params|
              && (forall i | 0 <= i < index :: Inhabits(args[i], params[i]))
              && !Inhabits(args[index], params[index])
              && First(Both(args[index], params[index]), m.path, m.fault)
  {
    hide Inhabits, First;
    if |params| == |args| {
      CheckFromExactly(params, args, 0);
    }
  }
}
