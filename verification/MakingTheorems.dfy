/**
  Which values can be made, exactly, and what they are.

  `MadeExactly` says which values some buffer makes of a type at a depth and a cap; `ReachableIsGood`
  that all of them inhabit the type, can be spelled and keep to the caps; `SpentMakesSimplest` what a
  spent buffer makes.
  */
module MakingTheorems {
  import opened Wrappers
  import opened Utf8
  import opened ComponentTypes
  import opened Drawing
  import opened Making

  // ---------------------------------------------------------------------------------------------
  // Well-formed types, spelled and capped values
  // ---------------------------------------------------------------------------------------------

  /** As the component model has it: a variant's case names are distinct, in every part. */
  predicate DistinctCases(ty: Ty)
    decreases ty
  {
    match ty
    case ListOf(item) => DistinctCases(item)
    case FixedLengthList(item, _) => DistinctCases(item)
    case MapOf(key, value) => DistinctCases(key) && DistinctCases(value)
    case OptionOf(some) => DistinctCases(some)
    case Tuple(types) => forall i | 0 <= i < |types| :: DistinctCases(types[i])
    case Record(fields) => forall i | 0 <= i < |fields| :: DistinctCases(fields[i].ty)
    case Variant(cases) =>
      && (forall i, j | 0 <= i < j < |cases| :: cases[i].name != cases[j].name)
      && (forall i | 0 <= i < |cases| :: DistinctPayload(cases[i].ty))
    case ResultOf(ok, err) => DistinctPayload(ok) && DistinctPayload(err)
    case _ => true
  }

  predicate DistinctPayload(declared: Option<Ty>)
    decreases declared
  {
    declared.Some? ==> DistinctCases(declared.value)
  }

  /** The value can be written as WAVE text: no handle, stream, future, error-context or map in it. */
  predicate Spelled(v: Val)
    decreases v
  {
    match v
    case ListVal(items) => forall i | 0 <= i < |items| :: Spelled(items[i])
    case FixedLengthListVal(items) => forall i | 0 <= i < |items| :: Spelled(items[i])
    case TupleVal(items) => forall i | 0 <= i < |items| :: Spelled(items[i])
    case RecordVal(fields) => forall i | 0 <= i < |fields| :: Spelled(fields[i].val)
    case VariantVal(_, payload) => SpelledPayload(payload)
    case OptionVal(payload) => SpelledPayload(payload)
    case ResultVal(_, payload) => SpelledPayload(payload)
    case MapVal(_) => false
    case ResourceVal => false
    case FutureVal => false
    case StreamVal => false
    case ErrorContextVal => false
    case _ => true
  }

  predicate SpelledPayload(payload: Option<Val>)
    decreases payload
  {
    payload.Some? ==> Spelled(payload.value)
  }

  /** Lists within the cap, and at the floor empty; options at the floor `none`. */
  predicate Capped(v: Val, depth: nat, cap: nat)
    decreases v
  {
    match v
    case ListVal(items) =>
      && |items| <= (if depth == 0 then 0 else cap)
      && forall i | 0 <= i < |items| :: Capped(items[i], Shallower(depth), cap)
    case FixedLengthListVal(items) => forall i | 0 <= i < |items| :: Capped(items[i], Shallower(depth), cap)
    case TupleVal(items) => forall i | 0 <= i < |items| :: Capped(items[i], Shallower(depth), cap)
    case RecordVal(fields) => forall i | 0 <= i < |fields| :: Capped(fields[i].val, Shallower(depth), cap)
    case VariantVal(_, payload) => CappedPayload(payload, depth, cap)
    case OptionVal(payload) => (depth == 0 ==> payload == None) && CappedPayload(payload, depth, cap)
    case ResultVal(_, payload) => CappedPayload(payload, depth, cap)
    case _ => true
  }

  predicate CappedPayload(payload: Option<Val>, depth: nat, cap: nat)
    decreases payload
  {
    payload.Some? ==> Capped(payload.value, Shallower(depth), cap)
  }

  // ---------------------------------------------------------------------------------------------
  // The value an exhausted generator returns
  // ---------------------------------------------------------------------------------------------

  /** Zero, empty, `none`, first: every part at its simplest; `None` when a part that must be made cannot. */
  function Simplest(ty: Ty): Option<Val>
    decreases ty, 2
  {
    match ty
    case Bool => Some(BoolVal(false))
    case Int(width) => Some(IntVal(Number(width, 0)))
    case Float32 => Some(Float32Val(0))
    case Float64 => Some(Float64Val(0))
    case Char => Some(CharVal('\0'))
    case String => Some(StringVal(""))
    case ListOf(_) => Some(ListVal([]))
    case FixedLengthList(item, length) =>
      if length == 0 then Some(FixedLengthListVal([]))
      else
        (match Simplest(item)
         case None => None
         case Some(v) => Some(FixedLengthListVal(seq(length, _ => v))))
    case Tuple(types) =>
      (match SimplestTypes(ty, 0)
       case None => None
       case Some(items) => Some(TupleVal(items)))
    case Record(_) =>
      (match SimplestFields(ty, 0)
       case None => None
       case Some(fields) => Some(RecordVal(fields)))
    case Variant(cases) =>
      if cases == [] then None
      else
        (match SimplestPayload(cases[0].ty)
         case None => None
         case Some(payload) => Some(VariantVal(cases[0].name, payload)))
    case Enum(names) => if names == [] then None else Some(EnumVal(names[0]))
    case OptionOf(_) => Some(OptionVal(None))
    case ResultOf(ok, _) =>
      (match SimplestPayload(ok)
       case None => None
       case Some(payload) => Some(ResultVal(true, payload)))
    case Flags(_) => Some(FlagsVal([]))
    case _ => None
  }

  function SimplestTypes(ty: Ty, from: nat): Option<seq<Val>>
    requires ty.Tuple? && from <= |ty.types|
    decreases ty, 1, |ty.types| - from
  {
    if from == |ty.types| then Some([])
    else
      match (Simplest(ty.types[from]), SimplestTypes(ty, from + 1))
      case (Some(v), Some(rest)) => Some([v] + rest)
      case _ => None
  }

  function SimplestFields(ty: Ty, from: nat): Option<seq<FieldVal>>
    requires ty.Record? && from <= |ty.fields|
    decreases ty, 1, |ty.fields| - from
  {
    if from == |ty.fields| then Some([])
    else
      match (Simplest(ty.fields[from].ty), SimplestFields(ty, from + 1))
      case (Some(v), Some(rest)) => Some([FieldVal(ty.fields[from].name, v)] + rest)
      case _ => None
  }

  function SimplestPayload(declared: Option<Ty>): Option<Option<Val>>
    decreases declared, 3
  {
    match declared
    case None => Some(None)
    case Some(ty) =>
      match Simplest(ty)
      case None => None
      case Some(v) => Some(Some(v))
  }

  // ---------------------------------------------------------------------------------------------
  // Values within reach
  // ---------------------------------------------------------------------------------------------

  function Least(a: nat, b: nat): nat {
    if a <= b then a else b
  }

  /** What one byte can count up to, under a cap. */
  function Reach(cap: nat): nat {
    Least(cap, PICKABLE - 1)
  }

  /** A selection of the names, in their order. */
  predicate Selection(flags: seq<string>, names: seq<string>)
    decreases |names|
  {
    if names == [] then flags == []
    else
      || (flags != [] && flags[0] == names[0] && Selection(flags[1..], names[1..]))
      || Selection(flags, names[1..])
  }

  /**
    A value of the type within the depth and the cap, made of what single bytes can choose: no list and
    no text longer, and no case further on, than a byte counts; a text of the table at any length.
    */
  ghost predicate Reachable(v: Val, ty: Ty, depth: nat, cap: nat)
    decreases ty
  {
    match ty
    case Bool => v.BoolVal?
    case Int(width) => v.IntVal? && v.number.width == width
    case Float32 => v.Float32Val? && v.bits32 < 0x1_0000_0000
    case Float64 => v.Float64Val? && v.bits64 < TWO_64
    case Char => v.CharVal?
    case String => v.StringVal? && (|v.s| <= Reach(cap) || v.s in INTERESTING_STRINGS)
    case ListOf(item) =>
      && v.ListVal?
      && |v.items| <= (if depth == 0 then 0 else Reach(cap))
      && forall i | 0 <= i < |v.items| :: Reachable(v.items[i], item, Shallower(depth), cap)
    case FixedLengthList(item, length) =>
      && v.FixedLengthListVal?
      && |v.items| == length
      && forall i | 0 <= i < |v.items| :: Reachable(v.items[i], item, Shallower(depth), cap)
    case Tuple(types) =>
      && v.TupleVal?
      && |v.items| == |types|
      && forall i | 0 <= i < |types| :: Reachable(v.items[i], types[i], Shallower(depth), cap)
    case Record(fields) =>
      && v.RecordVal?
      && |v.fields| == |fields|
      && forall i | 0 <= i < |fields| ::
           v.fields[i].name == fields[i].name && Reachable(v.fields[i].val, fields[i].ty, Shallower(depth), cap)
    case Variant(cases) =>
      && v.VariantVal?
      && exists k | 0 <= k < |cases| && k < PICKABLE ::
           cases[k].name == v.tag && ReachablePayload(v.payload, cases[k].ty, depth, cap)
    case Enum(names) => v.EnumVal? && exists k | 0 <= k < |names| && k < PICKABLE :: names[k] == v.tag
    case OptionOf(some) =>
      && v.OptionVal?
      && (v.payload.Some? ==> 0 < depth && Reachable(v.payload.value, some, Shallower(depth), cap))
    case ResultOf(ok, err) => v.ResultVal? && ReachablePayload(v.payload, if v.isOk then ok else err, depth, cap)
    case Flags(names) => v.FlagsVal? && Selection(v.flags, names)
    case _ => false
  }

  ghost predicate ReachablePayload(payload: Option<Val>, declared: Option<Ty>, depth: nat, cap: nat)
    decreases declared
  {
    match (payload, declared)
    case (Some(v), Some(ty)) => Reachable(v, ty, Shallower(depth), cap)
    case (None, None) => true
    case _ => false
  }

  // ---------------------------------------------------------------------------------------------
  // What is made is within reach
  // ---------------------------------------------------------------------------------------------

  lemma {:induction false} PickedWithin(bytes: seq<byte>, at: nat, cap: nat)
    ensures Picked(bytes, at, cap + 1) <= Reach(cap)
  {
  }

  lemma {:induction false} FloatsWithin(bytes: seq<byte>, at: nat)
    ensures FloatAt(bytes, at, 4, INTERESTING_F32) < 0x1_0000_0000
    ensures FloatAt(bytes, at, 8, INTERESTING_F64) < TWO_64
  {
    Pow256Eight();
    hide LittleEndianAt, Pow256;
    assert forall k | 0 <= k < |INTERESTING_F32| :: INTERESTING_F32[k] < 0x1_0000_0000;
    assert forall k | 0 <= k < |INTERESTING_F64| :: INTERESTING_F64[k] < TWO_64;
  }

  lemma {:induction false} FlagsSelected(names: seq<string>, bytes: seq<byte>, at: nat)
    ensures Selection(FlagsAt(names, bytes, at), names)
  {
    if names != [] {
      FlagsSelected(names[1..], bytes, at + 1);
      var rest := FlagsAt(names[1..], bytes, at + 1);
      assert ([names[0]] + rest)[1..] == rest && [] + rest == rest;
    }
  }

  lemma {:induction false} MadeIsReachable(ty: Ty, depth: nat, cap: nat, bytes: seq<byte>, at: nat)
    requires End(ty, depth, cap, bytes, at).Some?
    ensures Reachable(Draw(ty, depth, cap, bytes, at), ty, depth, cap)
    decreases ty, 2
  {
    hide IntAt, FloatAt, CharacterAt, CharactersAt;
    match ty {
      case Float32 => FloatsWithin(bytes, at);
      case Float64 => FloatsWithin(bytes, at);
      case String => PickedWithin(bytes, at + 1, cap);
      case ListOf(item) =>
        var bound := CountBound(depth, cap);
        PickedWithin(bytes, at, cap);
        RepeatIsReachable(item, Picked(bytes, at, bound), Shallower(depth), cap, bytes, AfterPick(at, bound));
      case FixedLengthList(item, length) => RepeatIsReachable(item, length, Shallower(depth), cap, bytes, at);
      case Tuple(_) => TypesAreReachable(ty, 0, Shallower(depth), cap, bytes, at);
      case Record(_) => FieldsAreReachable(ty, 0, Shallower(depth), cap, bytes, at);
      case Variant(cases) =>
        var k := Picked(bytes, at, |cases|);
        PickedInReach(bytes, at, |cases|);
        assert cases[k] in cases;
        PayloadIsReachable(cases[k].ty, depth, cap, bytes, AfterPick(at, |cases|));
      case Enum(names) => PickedInReach(bytes, at, |names|);
      case OptionOf(some) =>
        if depth > 0 && IsOdd(bytes, at) {
          MadeIsReachable(some, Shallower(depth), cap, bytes, at + 1);
        }
      case ResultOf(ok, err) => PayloadIsReachable(if IsOdd(bytes, at) then err else ok, depth, cap, bytes, at + 1);
      case Flags(names) => FlagsSelected(names, bytes, at);
      case _ =>
    }
  }

  lemma {:induction false} RepeatIsReachable(item: Ty, count: nat, depth: nat, cap: nat, bytes: seq<byte>, at: nat)
    requires EndRepeat(item, count, depth, cap, bytes, at).Some?
    ensures forall i | 0 <= i < count ::
              Reachable(DrawRepeat(item, count, depth, cap, bytes, at)[i], item, depth, cap)
    decreases item, 3, count
  {
    hide Reachable, Draw, End;
    if count > 0 {
      MadeIsReachable(item, depth, cap, bytes, at);
      RepeatIsReachable(item, count - 1, depth, cap, bytes, End(item, depth, cap, bytes, at).value);
    }
  }

  lemma {:induction false} TypesAreReachable(ty: Ty, from: nat, depth: nat, cap: nat, bytes: seq<byte>, at: nat)
    requires ty.Tuple? && from <= |ty.types| && EndTypes(ty, from, depth, cap, bytes, at).Some?
    ensures forall i | from <= i < |ty.types| ::
              Reachable(DrawTypes(ty, from, depth, cap, bytes, at)[i - from], ty.types[i], depth, cap)
    decreases ty, 1, |ty.types| - from
  {
    hide Reachable, Draw, End;
    if from < |ty.types| {
      MadeIsReachable(ty.types[from], depth, cap, bytes, at);
      TypesAreReachable(ty, from + 1, depth, cap, bytes, End(ty.types[from], depth, cap, bytes, at).value);
    }
  }

  lemma {:induction false} FieldsAreReachable(ty: Ty, from: nat, depth: nat, cap: nat, bytes: seq<byte>, at: nat)
    requires ty.Record? && from <= |ty.fields| && EndFields(ty, from, depth, cap, bytes, at).Some?
    ensures var fields := DrawFields(ty, from, depth, cap, bytes, at);
            forall i | from <= i < |ty.fields| ::
              && fields[i - from].name == ty.fields[i].name
              && Reachable(fields[i - from].val, ty.fields[i].ty, depth, cap)
    decreases ty, 1, |ty.fields| - from
  {
    hide Reachable, Draw, End;
    if from < |ty.fields| {
      MadeIsReachable(ty.fields[from].ty, depth, cap, bytes, at);
      FieldsAreReachable(ty, from + 1, depth, cap, bytes, End(ty.fields[from].ty, depth, cap, bytes, at).value);
    }
  }

  lemma {:induction false} PayloadIsReachable(declared: Option<Ty>, depth: nat, cap: nat, bytes: seq<byte>, at: nat)
    requires EndPayload(declared, depth, cap, bytes, at).Some?
    ensures ReachablePayload(DrawPayload(declared, depth, cap, bytes, at), declared, depth, cap)
    decreases declared, 3
  {
    if declared.Some? {
      MadeIsReachable(declared.value, Shallower(depth), cap, bytes, at);
    }
  }

  // ---------------------------------------------------------------------------------------------
  // What is within reach is made
  // ---------------------------------------------------------------------------------------------

  predicate Holds(bytes: seq<byte>, at: nat, chunk: seq<byte>) {
    at + |chunk| <= |bytes| && bytes[at..at + |chunk|] == chunk
  }

  lemma {:induction false} HoldsBoth(bytes: seq<byte>, at: nat, a: seq<byte>, b: seq<byte>)
    requires Holds(bytes, at, a + b)
    ensures Holds(bytes, at, a) && Holds(bytes, at + |a|, b)
  {
    var whole := bytes[at..at + |a + b|];
    assert bytes[at..at + |a|] == whole[..|a|];
    assert bytes[at + |a|..at + |a| + |b|] == whole[|a|..];
  }

  lemma {:induction false} HoldsOne(bytes: seq<byte>, at: nat, b: byte)
    requires Holds(bytes, at, [b])
    ensures Drawn(bytes, at) == b
  {
    assert bytes[at..at + 1][0] == bytes[at];
  }

  /** The bytes of a pick: none when there is nothing to choose. */
  function PickBytes(k: nat, bound: nat): seq<byte>
    requires k < PICKABLE
  {
    if bound <= 1 then [] else [k]
  }

  lemma {:induction false} PickHolds(bytes: seq<byte>, at: nat, k: nat, bound: nat)
    requires k < bound && k < PICKABLE && Holds(bytes, at, PickBytes(k, bound))
    ensures Picked(bytes, at, bound) == k && AfterPick(at, bound) == at + |PickBytes(k, bound)|
  {
    if bound > 1 {
      HoldsOne(bytes, at, k);
      PickByByte(bytes, at, bound, k);
    }
  }

  function Top(n: nat, unit: nat): byte
    requires 0 < unit && n < 256 * unit
  {
    TopByte(n, unit);
    n / unit
  }

  function Rest(n: nat, unit: nat): (r: nat)
    requires 0 < unit
    ensures r < unit
  {
    n % unit
  }

  lemma {:induction false} TopByte(n: nat, unit: nat)
    requires 0 < unit && n < 256 * unit
    ensures n / unit < 256 && n % unit + n / unit * unit == n
  {
    var q := n / unit;
    assert q * unit <= n;
    if 256 <= q {
      TimesAtLeast(256, q, unit);
      assert false;
    }
  }

  lemma {:induction false} TimesAtLeast(a: nat, b: nat, unit: nat)
    requires a <= b
    ensures a * unit <= b * unit
  {
  }

  lemma {:induction false} TopAndRest(n: nat, unit: nat)
    requires 0 < unit && n < 256 * unit
    ensures Rest(n, unit) + Top(n, unit) * unit == n
  {
    TopByte(n, unit);
  }

  function LittleEndian(n: nat, width: nat): (bytes: seq<byte>)
    requires n < Pow256(width)
    ensures |bytes| == width
    decreases width
  {
    hide Top, Rest;
    if width == 0 then []
    else LittleEndian(Rest(n, Pow256(width - 1)), width - 1) + [Top(n, Pow256(width - 1))]
  }

  lemma {:induction false} LittleEndianHolds(bytes: seq<byte>, at: nat, n: nat, width: nat)
    requires n < Pow256(width) && Holds(bytes, at, LittleEndian(n, width))
    ensures LittleEndianAt(bytes, at, width) == n
  {
    hide Top, Rest, Holds;
    if width > 0 {
      var unit := Pow256(width - 1);
      TopAndRest(n, unit);
      HoldsBoth(bytes, at, LittleEndian(Rest(n, unit), width - 1), [Top(n, unit)]);
      LittleEndianHolds(bytes, at, Rest(n, unit), width - 1);
      HoldsOne(bytes, at + width - 1, Top(n, unit));
    }
  }

  /** Wherever a buffer holds the chunk, it makes the value there, and the draw ends with the chunk. */
  ghost predicate Makes(chunk: seq<byte>, v: Val, ty: Ty, depth: nat, cap: nat) {
    forall bytes, at: nat :: Holds(bytes, at, chunk) ==>
      End(ty, depth, cap, bytes, at) == Some(at + |chunk|) && Draw(ty, depth, cap, bytes, at) == v
  }

  ghost predicate MakesItems(chunk: seq<byte>, items: seq<Val>, item: Ty, depth: nat, cap: nat) {
    forall bytes, at: nat :: Holds(bytes, at, chunk) ==>
      && EndRepeat(item, |items|, depth, cap, bytes, at) == Some(at + |chunk|)
      && DrawRepeat(item, |items|, depth, cap, bytes, at) == items
  }

  ghost predicate MakesTypes(chunk: seq<byte>, items: seq<Val>, ty: Ty, from: nat, depth: nat, cap: nat)
    requires ty.Tuple? && from <= |ty.types|
  {
    forall bytes, at: nat :: Holds(bytes, at, chunk) ==>
      && EndTypes(ty, from, depth, cap, bytes, at) == Some(at + |chunk|)
      && DrawTypes(ty, from, depth, cap, bytes, at) == items
  }

  ghost predicate MakesFields(chunk: seq<byte>, fields: seq<FieldVal>, ty: Ty, from: nat, depth: nat, cap: nat)
    requires ty.Record? && from <= |ty.fields|
  {
    forall bytes, at: nat :: Holds(bytes, at, chunk) ==>
      && EndFields(ty, from, depth, cap, bytes, at) == Some(at + |chunk|)
      && DrawFields(ty, from, depth, cap, bytes, at) == fields
  }

  ghost predicate MakesPayload(chunk: seq<byte>, payload: Option<Val>, declared: Option<Ty>, depth: nat, cap: nat) {
    forall bytes, at: nat :: Holds(bytes, at, chunk) ==>
      && EndPayload(declared, depth, cap, bytes, at) == Some(at + |chunk|)
      && DrawPayload(declared, depth, cap, bytes, at) == payload
  }

  // Scalars

  /** A raw draw of so many bytes: its odd byte, and then the number. */
  function RawChunk(n: nat, width: nat): seq<byte>
    requires n < Pow256(width)
  {
    [1] + LittleEndian(n, width)
  }

  lemma {:induction false} RawHolds(bytes: seq<byte>, at: nat, n: nat, width: nat)
    requires n < Pow256(width) && Holds(bytes, at, RawChunk(n, width))
    ensures IsOdd(bytes, at) && LittleEndianAt(bytes, at + 1, width) == n
    ensures AfterTableOr(bytes, at, width) == at + |RawChunk(n, width)|
  {
    HoldsBoth(bytes, at, [1], LittleEndian(n, width));
    HoldsOne(bytes, at, 1);
    LittleEndianHolds(bytes, at + 1, n, width);
  }

  /** The 64-bit number that is cast to a given one. */
  function Uncast(number: Number): (n: nat)
    ensures n < TWO_64 && Cast(number.width, n) == number
  {
    var w: nat := number.width.Width();
    var n := if number.n < 0 then number.n + w else number.n;
    assert n % w == n;
    n
  }

  lemma {:induction false} IntIsMade(number: Number, depth: nat, cap: nat) returns (chunk: seq<byte>)
    ensures Makes(chunk, IntVal(number), Int(number.width), depth, cap)
  {
    Pow256Eight();
    var n := Uncast(number);
    chunk := RawChunk(n, 8);
    hide Pow256, LittleEndianAt, LittleEndian, RawChunk, Cast, Uncast, Holds;
    forall bytes, at: nat | Holds(bytes, at, chunk)
      ensures End(Int(number.width), depth, cap, bytes, at) == Some(at + |chunk|)
      ensures Draw(Int(number.width), depth, cap, bytes, at) == IntVal(number)
    {
      RawHolds(bytes, at, n, 8);
    }
  }

  lemma {:induction false} FloatIsMade(v: Val, depth: nat, cap: nat) returns (chunk: seq<byte>)
    requires (v.Float32Val? && v.bits32 < 0x1_0000_0000) || (v.Float64Val? && v.bits64 < TWO_64)
    ensures Makes(chunk, v, if v.Float32Val? then Float32 else Float64, depth, cap)
  {
    Pow256Eight();
    var ty := if v.Float32Val? then Float32 else Float64;
    var n, width := if v.Float32Val? then v.bits32 else v.bits64, if v.Float32Val? then 4 else 8;
    chunk := RawChunk(n, width);
    hide Pow256, LittleEndianAt, LittleEndian, RawChunk, Holds;
    forall bytes, at: nat | Holds(bytes, at, chunk)
      ensures End(ty, depth, cap, bytes, at) == Some(at + |chunk|) && Draw(ty, depth, cap, bytes, at) == v
    {
      RawHolds(bytes, at, n, width);
    }
  }

  function CharacterChunk(c: char): seq<byte> {
    Pow256Eight();
    RawChunk(c as nat, 4)
  }

  lemma {:induction false} CharacterHolds(bytes: seq<byte>, at: nat, c: char)
    requires Holds(bytes, at, CharacterChunk(c))
    ensures CharacterAt(bytes, at) == c && AfterTableOr(bytes, at, 4) == at + |CharacterChunk(c)|
  {
    Pow256Eight();
    RawHolds(bytes, at, c as nat, 4);
    hide LittleEndianAt, Pow256, RawChunk;
  }

  function CharacterChunks(s: string): seq<byte> {
    if s == "" then [] else CharacterChunk(s[0]) + CharacterChunks(s[1..])
  }

  lemma {:induction false} CharactersHold(bytes: seq<byte>, at: nat, s: string)
    requires Holds(bytes, at, CharacterChunks(s))
    ensures CharactersAt(bytes, at, |s|) == s && AfterCharacters(bytes, at, |s|) == at + |CharacterChunks(s)|
    decreases |s|
  {
    hide CharacterAt, CharacterChunk, AfterTableOr;
    if s != "" {
      HoldsBoth(bytes, at, CharacterChunk(s[0]), CharacterChunks(s[1..]));
      CharacterHolds(bytes, at, s[0]);
      CharactersHold(bytes, at + |CharacterChunk(s[0])|, s[1..]);
      assert s == [s[0]] + s[1..];
    }
  }

  /** A text drawn character by character: the odd byte, the count, the characters. */
  function TextChunk(s: string, cap: nat): seq<byte>
    requires |s| <= Reach(cap)
  {
    [1] + (PickBytes(|s|, cap + 1) + CharacterChunks(s))
  }

  lemma {:induction false} FreeTextHolds(bytes: seq<byte>, at: nat, s: string, cap: nat)
    requires |s| <= Reach(cap) && Holds(bytes, at, TextChunk(s, cap))
    ensures TextAt(bytes, at, cap) == s && AfterText(bytes, at, cap) == at + |TextChunk(s, cap)|
  {
    hide CharacterChunks, CharactersAt, AfterCharacters, PickBytes, Picked, AfterPick, Holds, Drawn;
    var count := PickBytes(|s|, cap + 1);
    HoldsBoth(bytes, at, [1], count + CharacterChunks(s));
    HoldsBoth(bytes, at + 1, count, CharacterChunks(s));
    HoldsOne(bytes, at, 1);
    PickHolds(bytes, at + 1, |s|, cap + 1);
    CharactersHold(bytes, at + 1 + |count|, s);
  }

  lemma {:induction false} FreeTextIsMade(s: string, depth: nat, cap: nat) returns (chunk: seq<byte>)
    requires |s| <= Reach(cap)
    ensures Makes(chunk, StringVal(s), String, depth, cap)
  {
    hide TextChunk, TextAt, AfterText, Holds;
    chunk := TextChunk(s, cap);
    forall bytes, at: nat | Holds(bytes, at, chunk)
      ensures End(String, depth, cap, bytes, at) == Some(at + |chunk|)
      ensures Draw(String, depth, cap, bytes, at) == StringVal(s)
    {
      FreeTextHolds(bytes, at, s, cap);
    }
  }

  lemma {:induction false} TableTextIsMade(k: nat, depth: nat, cap: nat) returns (chunk: seq<byte>)
    requires k < |INTERESTING_STRINGS|
    ensures Makes(chunk, StringVal(INTERESTING_STRINGS[k]), String, depth, cap)
  {
    chunk := [0] + [k];
    hide Holds, CharactersAt, AfterCharacters;
    forall bytes, at: nat | Holds(bytes, at, chunk)
      ensures End(String, depth, cap, bytes, at) == Some(at + |chunk|)
      ensures Draw(String, depth, cap, bytes, at) == StringVal(INTERESTING_STRINGS[k])
    {
      HoldsBoth(bytes, at, [0], [k]);
      HoldsOne(bytes, at, 0);
      HoldsOne(bytes, at + 1, k);
      PickByByte(bytes, at + 1, |INTERESTING_STRINGS|, k);
    }
  }

  lemma {:induction false} TextIsMade(s: string, depth: nat, cap: nat) returns (chunk: seq<byte>)
    requires |s| <= Reach(cap) || s in INTERESTING_STRINGS
    ensures Makes(chunk, StringVal(s), String, depth, cap)
  {
    hide Makes;
    if |s| <= Reach(cap) {
      chunk := FreeTextIsMade(s, depth, cap);
    } else {
      var k: nat :| k < |INTERESTING_STRINGS| && INTERESTING_STRINGS[k] == s;
      chunk := TableTextIsMade(k, depth, cap);
    }
  }

  lemma {:induction false} BoolIsMade(b: bool, depth: nat, cap: nat) returns (chunk: seq<byte>)
    ensures Makes(chunk, BoolVal(b), Bool, depth, cap)
  {
    var byte: byte := if b then 1 else 0;
    chunk := [byte];
    hide Holds;
    forall bytes, at: nat | Holds(bytes, at, chunk)
      ensures End(Bool, depth, cap, bytes, at) == Some(at + |chunk|)
      ensures Draw(Bool, depth, cap, bytes, at) == BoolVal(b)
    {
      HoldsOne(bytes, at, byte);
    }
  }

  lemma {:induction false} EnumIsMade(names: seq<string>, k: nat, depth: nat, cap: nat) returns (chunk: seq<byte>)
    requires k < |names| && k < PICKABLE
    ensures Makes(chunk, EnumVal(names[k]), Enum(names), depth, cap)
  {
    chunk := PickBytes(k, |names|);
    hide PickBytes, Holds, Picked, AfterPick;
    forall bytes, at: nat | Holds(bytes, at, chunk)
      ensures End(Enum(names), depth, cap, bytes, at) == Some(at + |chunk|)
      ensures Draw(Enum(names), depth, cap, bytes, at) == EnumVal(names[k])
    {
      PickHolds(bytes, at, k, |names|);
    }
  }

  function FlagsChunk(flags: seq<string>, names: seq<string>): (chunk: seq<byte>)
    requires Selection(flags, names)
    ensures |chunk| == |names|
    decreases |names|
  {
    if names == [] then []
    else if flags != [] && flags[0] == names[0] && Selection(flags[1..], names[1..]) then
      [1] + FlagsChunk(flags[1..], names[1..])
    else [0] + FlagsChunk(flags, names[1..])
  }

  lemma {:induction false} FlagsHold(bytes: seq<byte>, at: nat, flags: seq<string>, names: seq<string>)
    requires Selection(flags, names) && Holds(bytes, at, FlagsChunk(flags, names))
    ensures FlagsAt(names, bytes, at) == flags
    decreases |names|
  {
    if names != [] {
      var taken := flags != [] && flags[0] == names[0] && Selection(flags[1..], names[1..]);
      var b: byte := if taken then 1 else 0;
      var rest := if taken then flags[1..] else flags;
      HoldsBoth(bytes, at, [b], FlagsChunk(rest, names[1..]));
      HoldsOne(bytes, at, b);
      FlagsHold(bytes, at + 1, rest, names[1..]);
      assert taken ==> flags == [flags[0]] + flags[1..];
    }
  }

  lemma {:induction false} FlagsAreMade(flags: seq<string>, names: seq<string>, depth: nat, cap: nat)
    returns (chunk: seq<byte>)
    requires Selection(flags, names)
    ensures Makes(chunk, FlagsVal(flags), Flags(names), depth, cap)
  {
    chunk := FlagsChunk(flags, names);
    hide FlagsChunk, FlagsAt, Selection, Holds;
    forall bytes, at: nat | Holds(bytes, at, chunk)
      ensures End(Flags(names), depth, cap, bytes, at) == Some(at + |chunk|)
      ensures Draw(Flags(names), depth, cap, bytes, at) == FlagsVal(flags)
    {
      FlagsHold(bytes, at, flags, names);
    }
  }

  // Wholes, from their parts

  lemma {:induction false} NoneIsMade(some: Ty, depth: nat, cap: nat) returns (chunk: seq<byte>)
    ensures Makes(chunk, OptionVal(None), OptionOf(some), depth, cap)
  {
    chunk := if depth == 0 then [] else [0];
    hide Holds;
    forall bytes, at: nat | Holds(bytes, at, chunk)
      ensures End(OptionOf(some), depth, cap, bytes, at) == Some(at + |chunk|)
      ensures Draw(OptionOf(some), depth, cap, bytes, at) == OptionVal(None)
    {
      if depth > 0 {
        HoldsOne(bytes, at, 0);
      }
    }
  }

  lemma {:induction false} SomeHolds(
    bytes: seq<byte>, at: nat, v: Val, some: Ty, depth: nat, cap: nat, part: seq<byte>)
    requires 0 < depth && Makes(part, v, some, Shallower(depth), cap) && Holds(bytes, at, [1] + part)
    ensures End(OptionOf(some), depth, cap, bytes, at) == Some(at + |[1] + part|)
    ensures Draw(OptionOf(some), depth, cap, bytes, at) == OptionVal(Some(v))
  {
    hide Holds;
    HoldsBoth(bytes, at, [1], part);
    HoldsOne(bytes, at, 1);
  }

  lemma {:induction false} SomeIsMade(v: Val, some: Ty, depth: nat, cap: nat, part: seq<byte>)
    returns (chunk: seq<byte>)
    requires 0 < depth && Makes(part, v, some, Shallower(depth), cap)
    ensures Makes(chunk, OptionVal(Some(v)), OptionOf(some), depth, cap)
  {
    hide Holds, End, Draw;
    chunk := [1] + part;
    forall bytes, at: nat | Holds(bytes, at, chunk)
      ensures End(OptionOf(some), depth, cap, bytes, at) == Some(at + |chunk|)
      ensures Draw(OptionOf(some), depth, cap, bytes, at) == OptionVal(Some(v))
    {
      SomeHolds(bytes, at, v, some, depth, cap, part);
    }
  }

  lemma {:induction false} ResultIsMade(v: Val, ty: Ty, depth: nat, cap: nat, part: seq<byte>)
    returns (chunk: seq<byte>)
    requires v.ResultVal? && ty.ResultOf?
    requires MakesPayload(part, v.payload, if v.isOk then ty.ok else ty.err, depth, cap)
    ensures Makes(chunk, v, ty, depth, cap)
  {
    var b: byte := if v.isOk then 0 else 1;
    chunk := [b] + part;
    hide Holds, EndPayload, DrawPayload;
    forall bytes, at: nat | Holds(bytes, at, chunk)
      ensures End(ty, depth, cap, bytes, at) == Some(at + |chunk|) && Draw(ty, depth, cap, bytes, at) == v
    {
      HoldsBoth(bytes, at, [b], part);
      HoldsOne(bytes, at, b);
    }
  }

  lemma {:induction false} VariantIsMade(v: Val, ty: Ty, k: nat, depth: nat, cap: nat, part: seq<byte>)
    returns (chunk: seq<byte>)
    requires v.VariantVal? && ty.Variant? && k < |ty.cases| && k < PICKABLE && v.tag == ty.cases[k].name
    requires MakesPayload(part, v.payload, ty.cases[k].ty, depth, cap)
    ensures Makes(chunk, v, ty, depth, cap)
  {
    var choice := PickBytes(k, |ty.cases|);
    chunk := choice + part;
    hide Holds, EndPayload, DrawPayload, PickBytes, Picked, AfterPick;
    forall bytes, at: nat | Holds(bytes, at, chunk)
      ensures End(ty, depth, cap, bytes, at) == Some(at + |chunk|) && Draw(ty, depth, cap, bytes, at) == v
    {
      HoldsBoth(bytes, at, choice, part);
      PickHolds(bytes, at, k, |ty.cases|);
    }
  }

  lemma {:induction false} ListHolds(
    bytes: seq<byte>, at: nat, items: seq<Val>, item: Ty, depth: nat, cap: nat, part: seq<byte>)
    requires |items| <= (if depth == 0 then 0 else Reach(cap)) && MakesItems(part, items, item, Shallower(depth), cap)
    requires Holds(bytes, at, PickBytes(|items|, CountBound(depth, cap)) + part)
    ensures End(ListOf(item), depth, cap, bytes, at)
         == Some(at + |PickBytes(|items|, CountBound(depth, cap)) + part|)
    ensures Draw(ListOf(item), depth, cap, bytes, at) == ListVal(items)
  {
    hide Holds, EndRepeat, DrawRepeat, PickBytes, Picked, AfterPick;
    var bound := CountBound(depth, cap);
    HoldsBoth(bytes, at, PickBytes(|items|, bound), part);
    PickHolds(bytes, at, |items|, bound);
  }

  // Every value within reach

  lemma {:induction false} ScalarIsMade(v: Val, ty: Ty, depth: nat, cap: nat) returns (chunk: seq<byte>)
    requires Reachable(v, ty, depth, cap)
    requires ty.Bool? || ty.Int? || ty.Float32? || ty.Float64? || ty.Char? || ty.String? || ty.Enum? || ty.Flags?
    ensures Makes(chunk, v, ty, depth, cap)
  {
    hide Makes, Selection;
    match ty {
      case Bool => chunk := BoolIsMade(v.b, depth, cap);
      case Int(_) => chunk := IntIsMade(v.number, depth, cap);
      case Float32 => chunk := FloatIsMade(v, depth, cap);
      case Float64 => chunk := FloatIsMade(v, depth, cap);
      case Char => chunk := CharIsMade(v.c, depth, cap);
      case String => chunk := TextIsMade(v.s, depth, cap);
      case Enum(names) =>
        var k: nat :| k < |names| && k < PICKABLE && names[k] == v.tag;
        chunk := EnumIsMade(names, k, depth, cap);
      case Flags(names) => chunk := FlagsAreMade(v.flags, names, depth, cap);
    }
  }

  lemma {:induction false} ChoiceIsMade(v: Val, ty: Ty, depth: nat, cap: nat) returns (chunk: seq<byte>)
    requires Reachable(v, ty, depth, cap) && (ty.OptionOf? || ty.ResultOf? || ty.Variant?)
    ensures Makes(chunk, v, ty, depth, cap)
    decreases ty, 1
  {
    hide Makes, MakesPayload;
    match ty {
      case OptionOf(some) =>
        if v.payload == None {
          chunk := NoneIsMade(some, depth, cap);
        } else {
          var part := ReachableIsMade(v.payload.value, some, Shallower(depth), cap);
          chunk := SomeIsMade(v.payload.value, some, depth, cap, part);
        }
      case ResultOf(ok, err) =>
        var part := PayloadIsMade(v.payload, if v.isOk then ok else err, depth, cap);
        chunk := ResultIsMade(v, ty, depth, cap, part);
      case Variant(cases) =>
        var k: nat :| k < |cases| && k < PICKABLE && cases[k].name == v.tag
                      && ReachablePayload(v.payload, cases[k].ty, depth, cap);
        assert cases[k] in cases;
        var part := PayloadIsMade(v.payload, cases[k].ty, depth, cap);
        chunk := VariantIsMade(v, ty, k, depth, cap, part);
    }
  }

  lemma {:induction false} ListIsMade(v: Val, ty: Ty, depth: nat, cap: nat) returns (chunk: seq<byte>)
    requires Reachable(v, ty, depth, cap) && ty.ListOf?
    ensures Makes(chunk, v, ty, depth, cap)
    decreases ty, 1
  {
    hide MakesItems;
    var part := ItemsAreMade(v.items, ty.item, Shallower(depth), cap);
    chunk := PickBytes(|v.items|, CountBound(depth, cap)) + part;
    hide Holds, End, Draw;
    forall bytes, at: nat | Holds(bytes, at, chunk)
      ensures End(ty, depth, cap, bytes, at) == Some(at + |chunk|) && Draw(ty, depth, cap, bytes, at) == v
    {
      ListHolds(bytes, at, v.items, ty.item, depth, cap, part);
    }
  }

  lemma {:induction false} PartsOfFixed(v: Val, ty: Ty, depth: nat, cap: nat) returns (chunk: seq<byte>)
    requires Reachable(v, ty, depth, cap) && ty.FixedLengthList?
    ensures v.FixedLengthListVal? && |v.items| == ty.length
    ensures MakesItems(chunk, v.items, ty.item, Shallower(depth), cap)
    decreases ty, 1
  {
    hide MakesItems;
    chunk := ItemsAreMade(v.items, ty.item, Shallower(depth), cap);
  }

  lemma {:induction false} FixedIsMade(v: Val, ty: Ty, depth: nat, cap: nat) returns (chunk: seq<byte>)
    requires Reachable(v, ty, depth, cap) && ty.FixedLengthList?
    ensures Makes(chunk, v, ty, depth, cap)
    decreases ty, 2, 0
  {
    hide Reachable, EndRepeat, DrawRepeat;
    chunk := PartsOfFixed(v, ty, depth, cap);
  }

  lemma {:induction false} PartsOfTuple(v: Val, ty: Ty, depth: nat, cap: nat) returns (chunk: seq<byte>)
    requires Reachable(v, ty, depth, cap) && ty.Tuple?
    ensures v.TupleVal? && MakesTypes(chunk, v.items, ty, 0, Shallower(depth), cap)
    decreases ty, 1
  {
    hide MakesTypes;
    chunk := TypesAreMade(v.items, ty, 0, Shallower(depth), cap);
  }

  lemma {:induction false} TupleIsMade(v: Val, ty: Ty, depth: nat, cap: nat) returns (chunk: seq<byte>)
    requires Reachable(v, ty, depth, cap) && ty.Tuple?
    ensures Makes(chunk, v, ty, depth, cap)
    decreases ty, 2, 0
  {
    hide Reachable, EndTypes, DrawTypes;
    chunk := PartsOfTuple(v, ty, depth, cap);
  }

  lemma {:induction false} PartsOfRecord(v: Val, ty: Ty, depth: nat, cap: nat) returns (chunk: seq<byte>)
    requires Reachable(v, ty, depth, cap) && ty.Record?
    ensures v.RecordVal? && MakesFields(chunk, v.fields, ty, 0, Shallower(depth), cap)
    decreases ty, 1
  {
    hide MakesFields;
    chunk := FieldsAreMade(v.fields, ty, 0, Shallower(depth), cap);
  }

  lemma {:induction false} RecordIsMade(v: Val, ty: Ty, depth: nat, cap: nat) returns (chunk: seq<byte>)
    requires Reachable(v, ty, depth, cap) && ty.Record?
    ensures Makes(chunk, v, ty, depth, cap)
    decreases ty, 2, 0
  {
    hide Reachable, EndFields, DrawFields;
    chunk := PartsOfRecord(v, ty, depth, cap);
  }

  lemma {:induction false} ReachableIsMade(v: Val, ty: Ty, depth: nat, cap: nat) returns (chunk: seq<byte>)
    requires Reachable(v, ty, depth, cap)
    ensures Makes(chunk, v, ty, depth, cap)
    decreases ty, 2
  {
    hide Makes;
    match ty {
      case OptionOf(_) | ResultOf(_, _) | Variant(_) => chunk := ChoiceIsMade(v, ty, depth, cap);
      case ListOf(_) => chunk := ListIsMade(v, ty, depth, cap);
      case FixedLengthList(_, _) => chunk := FixedIsMade(v, ty, depth, cap);
      case Tuple(_) => chunk := TupleIsMade(v, ty, depth, cap);
      case Record(_) => chunk := RecordIsMade(v, ty, depth, cap);
      case _ => chunk := ScalarIsMade(v, ty, depth, cap);
    }
  }

  lemma {:induction false} CharIsMade(c: char, depth: nat, cap: nat) returns (chunk: seq<byte>)
    ensures Makes(chunk, CharVal(c), Char, depth, cap)
  {
    chunk := CharacterChunk(c);
    hide CharacterChunk, CharacterAt, Holds, AfterTableOr;
    forall bytes, at: nat | Holds(bytes, at, chunk)
      ensures End(Char, depth, cap, bytes, at) == Some(at + |chunk|)
      ensures Draw(Char, depth, cap, bytes, at) == CharVal(c)
    {
      CharacterHolds(bytes, at, c);
    }
  }

  lemma {:induction false} PayloadIsMade(payload: Option<Val>, declared: Option<Ty>, depth: nat, cap: nat)
    returns (chunk: seq<byte>)
    requires ReachablePayload(payload, declared, depth, cap)
    ensures MakesPayload(chunk, payload, declared, depth, cap)
    decreases declared, 3
  {
    if declared == None {
      chunk := [];
    } else {
      chunk := ReachableIsMade(payload.value, declared.value, Shallower(depth), cap);
      hide End, Draw;
    }
  }

  lemma {:induction false} ItemsAreMade(items: seq<Val>, item: Ty, depth: nat, cap: nat) returns (chunk: seq<byte>)
    requires forall i | 0 <= i < |items| :: Reachable(items[i], item, depth, cap)
    ensures MakesItems(chunk, items, item, depth, cap)
    decreases item, 3, |items|
  {
    hide Reachable, End, Draw, Holds;
    chunk := [];
    if items != [] {
      var first := ReachableIsMade(items[0], item, depth, cap);
      var rest := ItemsAreMade(items[1..], item, depth, cap);
      chunk := first + rest;
      forall bytes, at: nat | Holds(bytes, at, chunk)
        ensures EndRepeat(item, |items|, depth, cap, bytes, at) == Some(at + |chunk|)
        ensures DrawRepeat(item, |items|, depth, cap, bytes, at) == items
      {
        HoldsBoth(bytes, at, first, rest);
        assert items == [items[0]] + items[1..];
      }
    }
  }

  lemma {:induction false} TypesAreMade(items: seq<Val>, ty: Ty, from: nat, depth: nat, cap: nat)
    returns (chunk: seq<byte>)
    requires ty.Tuple? && from <= |ty.types| && |items| == |ty.types| - from
    requires forall i | from <= i < |ty.types| :: Reachable(items[i - from], ty.types[i], depth, cap)
    ensures MakesTypes(chunk, items, ty, from, depth, cap)
    decreases ty, 1, |ty.types| - from
  {
    hide Reachable, End, Draw, Holds;
    chunk := [];
    if from < |ty.types| {
      var first := ReachableIsMade(items[0], ty.types[from], depth, cap);
      var rest := TypesAreMade(items[1..], ty, from + 1, depth, cap);
      chunk := first + rest;
      forall bytes, at: nat | Holds(bytes, at, chunk)
        ensures EndTypes(ty, from, depth, cap, bytes, at) == Some(at + |chunk|)
        ensures DrawTypes(ty, from, depth, cap, bytes, at) == items
      {
        HoldsBoth(bytes, at, first, rest);
        assert items == [items[0]] + items[1..];
      }
    }
  }

  lemma {:induction false} FieldsAreMade(fields: seq<FieldVal>, ty: Ty, from: nat, depth: nat, cap: nat)
    returns (chunk: seq<byte>)
    requires ty.Record? && from <= |ty.fields| && |fields| == |ty.fields| - from
    requires forall i | from <= i < |ty.fields| ::
               && fields[i - from].name == ty.fields[i].name
               && Reachable(fields[i - from].val, ty.fields[i].ty, depth, cap)
    ensures MakesFields(chunk, fields, ty, from, depth, cap)
    decreases ty, 1, |ty.fields| - from
  {
    hide Reachable, End, Draw, Holds;
    chunk := [];
    if from < |ty.fields| {
      var first := ReachableIsMade(fields[0].val, ty.fields[from].ty, depth, cap);
      var rest := FieldsAreMade(fields[1..], ty, from + 1, depth, cap);
      chunk := first + rest;
      forall bytes, at: nat | Holds(bytes, at, chunk)
        ensures EndFields(ty, from, depth, cap, bytes, at) == Some(at + |chunk|)
        ensures DrawFields(ty, from, depth, cap, bytes, at) == fields
      {
        HoldsBoth(bytes, at, first, rest);
        assert fields == [fields[0]] + fields[1..];
      }
    }
  }

  // ---------------------------------------------------------------------------------------------
  // Exactly the values within reach
  // ---------------------------------------------------------------------------------------------

  /** Some bytes make this value of the type, at this depth and cap. */
  ghost predicate SomeBytesMake(v: Val, ty: Ty, depth: nat, cap: nat) {
    exists bytes: seq<byte> :: End(ty, depth, cap, bytes, 0).Some? && Draw(ty, depth, cap, bytes, 0) == v
  }

  lemma {:induction false} MadeOfIt(chunk: seq<byte>, v: Val, ty: Ty, depth: nat, cap: nat)
    requires Makes(chunk, v, ty, depth, cap)
    ensures End(ty, depth, cap, chunk, 0).Some? && Draw(ty, depth, cap, chunk, 0) == v
  {
    hide End, Draw;
    assert Holds(chunk, 0, chunk);
  }

  /** Which values of a type are made by some bytes: exactly. */
  lemma {:induction false} MadeExactly(v: Val, ty: Ty, depth: nat, cap: nat)
    ensures SomeBytesMake(v, ty, depth, cap) <==> Reachable(v, ty, depth, cap)
  {
    hide Reachable, End, Draw, Makes;
    if SomeBytesMake(v, ty, depth, cap) {
      var bytes: seq<byte> :| End(ty, depth, cap, bytes, 0).Some? && Draw(ty, depth, cap, bytes, 0) == v;
      MadeIsReachable(ty, depth, cap, bytes, 0);
    }
    if Reachable(v, ty, depth, cap) {
      var chunk := ReachableIsMade(v, ty, depth, cap);
      MadeOfIt(chunk, v, ty, depth, cap);
    }
  }

  lemma {:induction false} IntInTwoBytes(width: IntType, k: nat, depth: nat, cap: nat)
    requires k < |INTERESTING_INTS|
    ensures Draw(Int(width), depth, cap, [0, k as byte], 0) == IntVal(Cast(width, INTERESTING_INTS[k]))
    ensures End(Int(width), depth, cap, [0, k as byte], 0) == Some(2)
  {
    var bytes: seq<byte> := [0, k];
    PickByByte(bytes, 1, |INTERESTING_INTS|, k);
    hide Cast;
  }

  lemma {:induction false} BelowModulus(n: nat, w: nat)
    requires n < w
    ensures n % w == n
  {
  }

  lemma {:induction false} EdgeCasts(width: IntType)
    ensures width.Signed() ==> Cast(width, width.Width() / 2).n == -(width.Width() / 2)
    ensures width.Signed() ==> Cast(width, width.Width() / 2 - 1).n == width.Width() / 2 - 1
    ensures !width.Signed() ==> Cast(width, 0).n == 0 && Cast(width, width.Width() - 1).n == width.Width() - 1
  {
    var w := width.Width();
    BelowModulus(w / 2, w);
    BelowModulus(w / 2 - 1, w);
    BelowModulus(w - 1, w);
  }

  /** Where in the table the ends of a range are. */
  function Edges(width: IntType): (k: (nat, nat))
    ensures k.0 < |INTERESTING_INTS| && k.1 < |INTERESTING_INTS|
    ensures INTERESTING_INTS[k.0] == if width.Signed() then width.Width() / 2 else 0
    ensures INTERESTING_INTS[k.1] == if width.Signed() then width.Width() / 2 - 1 else width.Width() - 1
  {
    match width
    case S8 => (5, 4)
    case U8 => (0, 6)
    case S16 => (8, 7)
    case U16 => (0, 9)
    case S32 => (11, 10)
    case U32 => (0, 12)
    case S64 => (14, 13)
    case U64 => (0, 15)
  }

  /** Two bytes are enough for either end of an integer's range, at every width. */
  lemma {:induction false} EdgesInTwoBytes(width: IntType, depth: nat, cap: nat)
    returns (least: Number, most: Number, low: byte, high: byte)
    ensures least.width == width && !width.InRange(least.n - 1)
    ensures most.width == width && !width.InRange(most.n + 1)
    ensures Draw(Int(width), depth, cap, [0, low], 0) == IntVal(least)
    ensures Draw(Int(width), depth, cap, [0, high], 0) == IntVal(most)
    ensures End(Int(width), depth, cap, [0, low], 0) == End(Int(width), depth, cap, [0, high], 0) == Some(2)
  {
    hide Draw, End, Cast, Edges;
    var (a, b) := Edges(width);
    low, high := a, b;
    least, most := Cast(width, INTERESTING_INTS[a]), Cast(width, INTERESTING_INTS[b]);
    EdgeCasts(width);
    IntInTwoBytes(width, a, depth, cap);
    IntInTwoBytes(width, b, depth, cap);
  }

  // ---------------------------------------------------------------------------------------------
  // Values within reach are good ones
  // ---------------------------------------------------------------------------------------------

  lemma {:induction false} SelectionWithin(flags: seq<string>, names: seq<string>)
    requires Selection(flags, names)
    ensures forall i | 0 <= i < |flags| :: flags[i] in names
    decreases |names|
  {
    if names != [] {
      assert names == [names[0]] + names[1..];
      if flags != [] && flags[0] == names[0] && Selection(flags[1..], names[1..]) {
        SelectionWithin(flags[1..], names[1..]);
        assert flags == [flags[0]] + flags[1..];
      } else {
        SelectionWithin(flags, names[1..]);
      }
    }
  }

  /** What is within reach inhabits its type, can be spelled, and keeps to the depth and the cap. */
  lemma {:induction false} ReachableIsGood(v: Val, ty: Ty, depth: nat, cap: nat)
    requires Reachable(v, ty, depth, cap) && DistinctCases(ty)
    ensures Inhabits(v, ty) && Spelled(v) && Capped(v, depth, cap)
    decreases ty, 2
  {
    match ty {
      case ListOf(item) => ItemsAreGood(v.items, item, Shallower(depth), cap);
      case FixedLengthList(item, _) => ItemsAreGood(v.items, item, Shallower(depth), cap);
      case Tuple(types) => TypesAreGood(v.items, ty, Shallower(depth), cap);
      case Record(fields) => FieldsAreGood(v.fields, ty, Shallower(depth), cap);
      case Variant(cases) => VariantIsGood(v, ty, depth, cap);
      case OptionOf(some) =>
        if v.payload.Some? {
          ReachableIsGood(v.payload.value, some, Shallower(depth), cap);
        }
      case ResultOf(ok, err) => PayloadIsGood(v.payload, if v.isOk then ok else err, depth, cap);
      case Flags(names) => SelectionWithin(v.flags, names);
      case _ =>
    }
  }

  lemma {:induction false} ItemsAreGood(items: seq<Val>, item: Ty, depth: nat, cap: nat)
    requires DistinctCases(item) && forall i | 0 <= i < |items| :: Reachable(items[i], item, depth, cap)
    ensures forall i | 0 <= i < |items| ::
              Inhabits(items[i], item) && Spelled(items[i]) && Capped(items[i], depth, cap)
    decreases item, 3
  {
    hide Reachable, Inhabits, Spelled, Capped;
    forall i | 0 <= i < |items| ensures Inhabits(items[i], item) && Spelled(items[i]) && Capped(items[i], depth, cap) {
      ReachableIsGood(items[i], item, depth, cap);
    }
  }

  lemma {:induction false} TypesAreGood(items: seq<Val>, ty: Ty, depth: nat, cap: nat)
    requires ty.Tuple? && DistinctCases(ty) && |items| == |ty.types|
    requires forall i | 0 <= i < |items| :: Reachable(items[i], ty.types[i], depth, cap)
    ensures forall i | 0 <= i < |items| ::
              Inhabits(items[i], ty.types[i]) && Spelled(items[i]) && Capped(items[i], depth, cap)
    decreases ty, 1
  {
    forall i | 0 <= i < |items|
      ensures Inhabits(items[i], ty.types[i]) && Spelled(items[i]) && Capped(items[i], depth, cap)
    {
      assert DistinctCases(ty.types[i]);
      hide Reachable, Inhabits, Spelled, Capped;
      ReachableIsGood(items[i], ty.types[i], depth, cap);
    }
  }

  lemma {:induction false} FieldsAreGood(fields: seq<FieldVal>, ty: Ty, depth: nat, cap: nat)
    requires ty.Record? && DistinctCases(ty) && |fields| == |ty.fields|
    requires forall i | 0 <= i < |fields| :: Reachable(fields[i].val, ty.fields[i].ty, depth, cap)
    ensures forall i | 0 <= i < |fields| ::
              && Inhabits(fields[i].val, ty.fields[i].ty)
              && Spelled(fields[i].val) && Capped(fields[i].val, depth, cap)
    decreases ty, 1
  {
    forall i | 0 <= i < |fields|
      ensures Inhabits(fields[i].val, ty.fields[i].ty)
      ensures Spelled(fields[i].val) && Capped(fields[i].val, depth, cap)
    {
      assert DistinctCases(ty.fields[i].ty);
      assert ty.fields[i] in ty.fields;
      hide Reachable, Inhabits, Spelled, Capped;
      ReachableIsGood(fields[i].val, ty.fields[i].ty, depth, cap);
    }
  }

  /** With distinct case names, a value made of a case is one of that case. */
  lemma {:induction false} VariantIsGood(v: Val, ty: Ty, depth: nat, cap: nat)
    requires ty.Variant? && Reachable(v, ty, depth, cap) && DistinctCases(ty)
    ensures Inhabits(v, ty) && Spelled(v) && Capped(v, depth, cap)
    decreases ty, 1
  {
    var k: nat :| k < |ty.cases| && k < PICKABLE && ty.cases[k].name == v.tag
                  && ReachablePayload(v.payload, ty.cases[k].ty, depth, cap);
    assert ty.cases[k] in ty.cases;
    PayloadIsGood(v.payload, ty.cases[k].ty, depth, cap);
    assert FirstNamed(ty.cases, v.tag, k);
  }

  lemma {:induction false} PayloadIsGood(payload: Option<Val>, declared: Option<Ty>, depth: nat, cap: nat)
    requires ReachablePayload(payload, declared, depth, cap) && DistinctPayload(declared)
    ensures InhabitsPayload(payload, declared) && SpelledPayload(payload) && CappedPayload(payload, depth, cap)
    decreases declared, 3
  {
    if declared.Some? {
      ReachableIsGood(payload.value, declared.value, Shallower(depth), cap);
    }
  }

  // ---------------------------------------------------------------------------------------------
  // Once the bytes have run out
  // ---------------------------------------------------------------------------------------------

  lemma {:induction false} SpentFlags(names: seq<string>, bytes: seq<byte>, at: nat)
    requires |bytes| <= at
    ensures FlagsAt(names, bytes, at) == []
  {
    if names != [] {
      SpentFlags(names[1..], bytes, at + 1);
    }
  }

  lemma {:induction false} SpentScalar(ty: Ty, depth: nat, cap: nat, bytes: seq<byte>, at: nat)
    requires |bytes| <= at && (ty.Bool? || ty.Int? || ty.Float32? || ty.Float64? || ty.Char? || ty.String? || ty.Enum?)
    ensures (if End(ty, depth, cap, bytes, at).Some? then Some(Draw(ty, depth, cap, bytes, at)) else None)
         == Simplest(ty)
  {
    hide CharactersAt, AfterCharacters;
    assert Drawn(bytes, at) == 0 && Drawn(bytes, at + 1) == 0;
  }

  /** A spent buffer makes the simplest value there is, or is refused where there is none. */
  lemma {:induction false} SpentMakesSimplest(ty: Ty, depth: nat, cap: nat, bytes: seq<byte>, at: nat)
    requires |bytes| <= at
    ensures (if End(ty, depth, cap, bytes, at).Some? then Some(Draw(ty, depth, cap, bytes, at)) else None)
         == Simplest(ty)
    decreases ty, 2
  {
    hide IntAt, FloatAt, CharacterAt, TextAt, AfterText, AfterTableOr;
    match ty {
      case FixedLengthList(item, length) =>
        SpentRepeat(item, length, Shallower(depth), cap, bytes, at);
      case Tuple(_) => SpentTypes(ty, 0, Shallower(depth), cap, bytes, at);
      case Record(_) => SpentFields(ty, 0, Shallower(depth), cap, bytes, at);
      case Variant(cases) =>
        if cases != [] {
          assert cases[0] in cases;
          SpentPayload(cases[0].ty, depth, cap, bytes, AfterPick(at, |cases|));
        }
      case ListOf(_) => assert Picked(bytes, at, CountBound(depth, cap)) == 0;
      case OptionOf(_) => assert Drawn(bytes, at) == 0;
      case ResultOf(ok, _) => SpentPayload(ok, depth, cap, bytes, at + 1);
      case Flags(names) => SpentFlags(names, bytes, at);
      case Bool | Int(_) | Float32 | Float64 | Char | String | Enum(_) => SpentScalar(ty, depth, cap, bytes, at);
      case _ =>
    }
  }

  lemma {:induction false} SpentRepeat(item: Ty, count: nat, depth: nat, cap: nat, bytes: seq<byte>, at: nat)
    requires |bytes| <= at
    ensures EndRepeat(item, count, depth, cap, bytes, at).Some? <==> (count == 0 || Simplest(item).Some?)
    ensures Simplest(item).Some? ==>
              DrawRepeat(item, count, depth, cap, bytes, at) == seq(count, _ => Simplest(item).value)
    decreases item, 3, count
  {
    hide End, Draw, Simplest;
    if count > 0 {
      SpentMakesSimplest(item, depth, cap, bytes, at);
      if Simplest(item).Some? {
        SpentRepeat(item, count - 1, depth, cap, bytes, End(item, depth, cap, bytes, at).value);
      }
    }
  }

  lemma {:induction false} SpentTypes(ty: Ty, from: nat, depth: nat, cap: nat, bytes: seq<byte>, at: nat)
    requires ty.Tuple? && from <= |ty.types| && |bytes| <= at
    ensures SimplestTypes(ty, from)
         == if EndTypes(ty, from, depth, cap, bytes, at).None? then None
            else Some(DrawTypes(ty, from, depth, cap, bytes, at))
    decreases ty, 1, |ty.types| - from
  {
    hide End, Draw, Simplest;
    if from < |ty.types| {
      SpentMakesSimplest(ty.types[from], depth, cap, bytes, at);
      match End(ty.types[from], depth, cap, bytes, at) {
        case None =>
        case Some(next) => SpentTypes(ty, from + 1, depth, cap, bytes, next);
      }
    }
  }

  lemma {:induction false} SpentFields(ty: Ty, from: nat, depth: nat, cap: nat, bytes: seq<byte>, at: nat)
    requires ty.Record? && from <= |ty.fields| && |bytes| <= at
    ensures SimplestFields(ty, from)
         == if EndFields(ty, from, depth, cap, bytes, at).None? then None
            else Some(DrawFields(ty, from, depth, cap, bytes, at))
    decreases ty, 1, |ty.fields| - from
  {
    hide End, Draw, Simplest;
    if from < |ty.fields| {
      SpentMakesSimplest(ty.fields[from].ty, depth, cap, bytes, at);
      match End(ty.fields[from].ty, depth, cap, bytes, at) {
        case None =>
        case Some(next) => SpentFields(ty, from + 1, depth, cap, bytes, next);
      }
    }
  }

  lemma {:induction false} SpentPayload(declared: Option<Ty>, depth: nat, cap: nat, bytes: seq<byte>, at: nat)
    requires |bytes| <= at
    ensures SimplestPayload(declared)
         == if EndPayload(declared, depth, cap, bytes, at).None? then None
            else Some(DrawPayload(declared, depth, cap, bytes, at))
    decreases declared, 3
  {
    if declared.Some? {
      SpentMakesSimplest(declared.value, Shallower(depth), cap, bytes, at);
    }
  }
}
