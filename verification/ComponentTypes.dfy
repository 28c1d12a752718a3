/** Component-model types and values, and which values inhabit which types. */
module ComponentTypes {
  import opened Wrappers

  datatype IntType = S8 | U8 | S16 | U16 | S32 | U32 | S64 | U64
  {
    function Width(): (w: nat)
      ensures w == 0x100 || w == 0x1_0000 || w == 0x1_0000_0000 || w == 0x1_0000_0000_0000_0000
    {
      match this
      case S8 | U8 => 0x100
      case S16 | U16 => 0x1_0000
      case S32 | U32 => 0x1_0000_0000
      case S64 | U64 => 0x1_0000_0000_0000_0000
    }

    predicate Signed() {
      S8? || S16? || S32? || S64?
    }

    predicate InRange(n: int) {
      if Signed() then -(Width() / 2) <= n < Width() / 2 else 0 <= n < Width()
    }
  }

  datatype AnyNumber = Number(width: IntType, n: int)

  /** A machine integer: always within its width. */
  type Number = x: AnyNumber | x.width.InRange(x.n) witness Number(U8, 0)

  datatype Field = Field(name: string, ty: Ty)

  datatype Case = Case(name: string, ty: Option<Ty>)

  datatype Ty =
    | Bool
    | Int(width: IntType)
    | Float32
    | Float64
    | Char
    | String
    | ListOf(item: Ty)
    | FixedLengthList(item: Ty, length: nat)
    | MapOf(key: Ty, value: Ty)
    | Record(fields: seq<Field>)
    | Tuple(types: seq<Ty>)
    | Variant(cases: seq<Case>)
    | Enum(names: seq<string>)
    | OptionOf(some: Ty)
    | ResultOf(ok: Option<Ty>, err: Option<Ty>)
    | Flags(names: seq<string>)
    | Own
    | Borrow
    | Future
    | Stream
    | ErrorContext

  datatype FieldVal = FieldVal(name: string, val: Val)

  datatype Pair = Pair(key: Val, value: Val)

  datatype Val =
    | BoolVal(b: bool)
    | IntVal(number: Number)
    | Float32Val(bits32: nat)
    | Float64Val(bits64: nat)
    | CharVal(c: char)
    | StringVal(s: string)
    | ListVal(items: seq<Val>)
    | FixedLengthListVal(items: seq<Val>)
    | MapVal(pairs: seq<Pair>)
    | RecordVal(fields: seq<FieldVal>)
    | TupleVal(items: seq<Val>)
    | VariantVal(tag: string, payload: Option<Val>)
    | EnumVal(tag: string)
    | OptionVal(payload: Option<Val>)
    | ResultVal(isOk: bool, payload: Option<Val>)
    | FlagsVal(flags: seq<string>)
    | ResourceVal
    | FutureVal
    | StreamVal
    | ErrorContextVal

  // ---------------------------------------------------------------------------------------------
  // The typing relation
  // ---------------------------------------------------------------------------------------------

  /** The payload type of the first case by this name; `None` when no case has it. */
  function CaseNamed(cases: seq<Case>, name: string): (found: Option<Option<Ty>>)
    ensures found.Some? ==>
              exists k | 0 <= k < |cases| :: cases[k] == Case(name, found.value) && FirstNamed(cases, name, k)
    ensures found.None? ==> forall k | 0 <= k < |cases| :: cases[k].name != name
    ensures forall k | 0 <= k < |cases| && cases[k].name == name && FirstNamed(cases, name, k) ::
              found == Some(cases[k].ty)
  {
    if cases == [] then None
    else if cases[0].name == name then
      assert FirstNamed(cases, name, 0);
      Some(cases[0].ty)
    else
      var found := CaseNamed(cases[1..], name);
      assert forall k | 0 <= k < |cases[1..]| && FirstNamed(cases[1..], name, k) :: FirstNamed(cases, name, k + 1);
      assert forall k | 0 < k < |cases| && FirstNamed(cases, name, k) :: FirstNamed(cases[1..], name, k - 1) by {
        forall k | 0 < k < |cases| && FirstNamed(cases, name, k) ensures FirstNamed(cases[1..], name, k - 1) {
          forall j | 0 <= j < k - 1 ensures cases[1..][j].name != name {
            assert cases[1..][j] == cases[j + 1];
          }
        }
      }
      assert forall k | 0 < k < |cases| :: cases[k] == cases[1..][k - 1];
      found
  }

  predicate FirstNamed(cases: seq<Case>, name: string, k: nat)
    requires k < |cases|
  {
    forall j | 0 <= j < k :: cases[j].name != name
  }

  /** `v` is a value of type `ty`. */
  ghost predicate Inhabits(v: Val, ty: Ty)
    decreases ty
  {
    match ty
    case Bool => v.BoolVal?
    case Int(width) => v.IntVal? && v.number.width == width
    case Float32 => v.Float32Val?
    case Float64 => v.Float64Val?
    case Char => v.CharVal?
    case String => v.StringVal?
    case ListOf(item) =>
      v.ListVal? && forall i | 0 <= i < |v.items| :: Inhabits(v.items[i], item)
    case FixedLengthList(item, length) =>
      && (v.FixedLengthListVal? || v.ListVal?)
      && |v.items| == length
      && forall i | 0 <= i < |v.items| :: Inhabits(v.items[i], item)
    case MapOf(key, value) =>
      && v.MapVal?
      && forall i | 0 <= i < |v.pairs| :: Inhabits(v.pairs[i].key, key) && Inhabits(v.pairs[i].value, value)
    case Record(fields) =>
      && v.RecordVal?
      && |v.fields| == |fields|
      && forall i | 0 <= i < |fields| :: v.fields[i].name == fields[i].name && Inhabits(v.fields[i].val, fields[i].ty)
    case Tuple(types) =>
      && v.TupleVal?
      && |v.items| == |types|
      && forall i | 0 <= i < |types| :: Inhabits(v.items[i], types[i])
    case Variant(cases) =>
      && v.VariantVal?
      && exists k | 0 <= k < |cases| ::
           && cases[k].name == v.tag
           && FirstNamed(cases, v.tag, k)
           && InhabitsPayload(v.payload, cases[k].ty)
    case Enum(names) => v.EnumVal? && v.tag in names
    case OptionOf(some) => v.OptionVal? && (v.payload.Some? ==> Inhabits(v.payload.value, some))
    case ResultOf(ok, err) => v.ResultVal? && InhabitsPayload(v.payload, if v.isOk then ok else err)
    case Flags(names) => v.FlagsVal? && forall i | 0 <= i < |v.flags| :: v.flags[i] in names
    case Own => v.ResourceVal?
    case Borrow => v.ResourceVal?
    case Future => v.FutureVal?
    case Stream => v.StreamVal?
    case ErrorContext => v.ErrorContextVal?
  }

  /** A payload is there exactly when one is declared, and then of its type. */
  ghost predicate InhabitsPayload(payload: Option<Val>, declared: Option<Ty>)
    decreases declared
  {
    match (payload, declared)
    case (Some(v), Some(ty)) => Inhabits(v, ty)
    case (None, None) => true
    case _ => false
  }
}
