/**
  Values made up from types.

  A generator draws on a finite buffer of bytes; past its end every draw reads zero. What it returns
  inhabits the type asked for, whatever the bytes, and has a WAVE spelling; it is refused only where the
  bytes lead to a part no value of which can be spelled, or made.
  */
module Generators {
  import opened Wrappers
  import opened Utf8
  import opened ComponentTypes
  import opened Typecheck
  import opened Drawing
  import opened Making
  import opened MakingTheorems

  /** The refusal names the offending type. */
  datatype Refused = Refused(offending: Ty)

  ghost predicate GoodValue(v: Val, ty: Ty, depth: nat, cap: nat) {
    Inhabits(v, ty) && Spelled(v) && Capped(v, depth, cap)
  }

  /** The draw makes the value it should and ends where it should, or is refused when it should be. */
  ghost predicate Lands<T>(r: Result<T, Refused>, value: T, at: nat, end: Option<nat>) {
    match r
    case Ok(made) => made == value && end == Some(at)
    case Err(Refused(offending)) => end == None && (Unspellable(offending) || Uninhabited(offending))
  }

  class Generator {
    const bytes: seq<byte>
    const maxDepth: nat
    const maxElements: nat
    var at: nat

    constructor (bytes: seq<byte>, maxDepth: nat, maxElements: nat)
      ensures this.bytes == bytes && this.maxDepth == maxDepth && this.maxElements == maxElements && at == 0
    {
      this.bytes, this.maxDepth, this.maxElements, at := bytes, maxDepth, maxElements, 0;
    }

    predicate IsExhausted()
      reads this
    {
      |bytes| <= at
    }

    method Byte() returns (b: byte)
      modifies this
      ensures b == Drawn(bytes, old(at)) && at == old(at) + 1
    {
      b := if at < |bytes| then bytes[at] else 0;
      at := at + 1;
    }

    method Pick(bound: nat) returns (k: nat)
      modifies this
      ensures k == Picked(bytes, old(at), bound) && at == AfterPick(old(at), bound)
    {
      if bound <= 1 {
        return 0;
      }
      var b: nat := Byte();
      k := b % bound;
    }

    method Raw(width: nat) returns (value: nat)
      modifies this
      ensures at == old(at) + width && value == LittleEndianAt(bytes, old(at), width)
    {
      value := 0;
      var unit := 1;
      for index := 0 to width
        invariant at == old(at) + index && unit == Pow256(index)
        invariant value == LittleEndianAt(bytes, old(at), index)
      {
        var b: nat := Byte();
        value := value + b * unit;
        unit := 256 * unit;
      }
    }

    method IntBits() returns (n: nat)
      modifies this
      ensures n == IntAt(bytes, old(at)) && at == AfterTableOr(bytes, old(at), 8)
    {
      var b := Byte();
      if b % 2 == 0 {
        var k := Pick(|INTERESTING_INTS|);
        n := INTERESTING_INTS[k];
      } else {
        n := Raw(8);
      }
    }

    method FloatBits(width: nat, table: seq<nat>) returns (bits: nat)
      requires 1 < |table|
      modifies this
      ensures bits == Making.FloatAt(bytes, old(at), width, table) && at == AfterTableOr(bytes, old(at), width)
    {
      var b := Byte();
      if b % 2 == 0 {
        var k := Pick(|table|);
        bits := table[k];
      } else {
        bits := Raw(width);
      }
    }

    /** Every draw is a character: a surrogate or a number past the last one is folded. */
    method Character() returns (c: char)
      modifies this
      ensures c == CharacterAt(bytes, old(at)) && at == AfterTableOr(bytes, old(at), 4)
    {
      var b := Byte();
      if b % 2 == 0 {
        var k := Pick(|INTERESTING_CHARS|);
        c := INTERESTING_CHARS[k];
      } else {
        var raw := Raw(4);
        c := if IsScalar(raw) then raw as char else (raw % 0xd800) as char;
      }
    }

    method Characters(count: nat) returns (s: string)
      modifies this
      ensures s == CharactersAt(bytes, old(at), count) && at == AfterCharacters(bytes, old(at), count)
    {
      hide CharacterAt, AfterTableOr;
      s := "";
      for i := 0 to count
        invariant AfterCharacters(bytes, at, count - i) == AfterCharacters(bytes, old(at), count)
        invariant s + CharactersAt(bytes, at, count - i) == CharactersAt(bytes, old(at), count)
      {
        ghost var rest := CharactersAt(bytes, AfterTableOr(bytes, at, 4), count - i - 1);
        var c := Character();
        assert s + ([c] + rest) == s + [c] + rest;
        s := s + [c];
      }
      assert s + [] == s;
    }

    method Text() returns (s: string)
      modifies this
      ensures s == TextAt(bytes, old(at), maxElements) && at == AfterText(bytes, old(at), maxElements)
    {
      hide CharactersAt, AfterCharacters;
      var b := Byte();
      if b % 2 == 0 {
        var k := Pick(|INTERESTING_STRINGS|);
        return INTERESTING_STRINGS[k];
      }
      var count := Pick(maxElements + 1);
      s := Characters(count);
    }

    method Count(depth: nat) returns (n: nat)
      modifies this
      ensures n == Picked(bytes, old(at), CountBound(depth, maxElements))
      ensures at == AfterPick(old(at), CountBound(depth, maxElements))
    {
      if depth == 0 || maxElements == 0 {
        return 0;
      }
      n := Pick(maxElements + 1);
    }

    method Repeat(item: Ty, count: nat, depth: nat) returns (r: Result<seq<Val>, Refused>)
      modifies this
      ensures Lands(r, DrawRepeat(item, count, Shallower(depth), maxElements, bytes, old(at)),
                    at, EndRepeat(item, count, Shallower(depth), maxElements, bytes, old(at)))
      decreases item, 3
    {
      hide End, Draw;
      var values: seq<Val> := [];
      for i := 0 to count
        invariant EndRepeat(item, count, Shallower(depth), maxElements, bytes, old(at))
               == EndRepeat(item, count - i, Shallower(depth), maxElements, bytes, at)
        invariant DrawRepeat(item, count, Shallower(depth), maxElements, bytes, old(at))
               == values + DrawRepeat(item, count - i, Shallower(depth), maxElements, bytes, at)
      {
        var next := ValueAt(item, Shallower(depth));
        if next.Err? {
          return Err(next.error);
        }
        ghost var rest := DrawRepeat(item, count - i - 1, Shallower(depth), maxElements, bytes, at);
        assert values + ([next.value] + rest) == values + [next.value] + rest;
        values := values + [next.value];
      }
      assert values + [] == values;
      r := Ok(values);
    }

    method PayloadAt(declared: Option<Ty>, depth: nat) returns (r: Result<Option<Val>, Refused>)
      modifies this
      ensures Lands(r, DrawPayload(declared, depth, maxElements, bytes, old(at)),
                    at, EndPayload(declared, depth, maxElements, bytes, old(at)))
      decreases declared, 3
    {
      match declared {
        case None =>
          r := Ok(None);
        case Some(ty) =>
          var made := ValueAt(ty, Shallower(depth));
          r := if made.Ok? then Ok(Some(made.value)) else Err(made.error);
      }
    }

    method TypesAt(ty: Ty, depth: nat) returns (r: Result<seq<Val>, Refused>)
      requires ty.Tuple?
      modifies this
      ensures Lands(r, DrawTypes(ty, 0, depth, maxElements, bytes, old(at)),
                    at, EndTypes(ty, 0, depth, maxElements, bytes, old(at)))
      decreases ty, 1
    {
      hide End, Draw;
      var values: seq<Val> := [];
      for i := 0 to |ty.types|
        invariant EndTypes(ty, 0, depth, maxElements, bytes, old(at))
               == EndTypes(ty, i, depth, maxElements, bytes, at)
        invariant DrawTypes(ty, 0, depth, maxElements, bytes, old(at))
               == values + DrawTypes(ty, i, depth, maxElements, bytes, at)
      {
        var next := ValueAt(ty.types[i], depth);
        if next.Err? {
          return Err(next.error);
        }
        ghost var rest := DrawTypes(ty, i + 1, depth, maxElements, bytes, at);
        assert values + ([next.value] + rest) == values + [next.value] + rest;
        values := values + [next.value];
      }
      assert values + [] == values;
      r := Ok(values);
    }

    method FieldsAt(ty: Ty, depth: nat) returns (r: Result<seq<FieldVal>, Refused>)
      requires ty.Record?
      modifies this
      ensures Lands(r, DrawFields(ty, 0, depth, maxElements, bytes, old(at)),
                    at, EndFields(ty, 0, depth, maxElements, bytes, old(at)))
      decreases ty, 1
    {
      hide End, Draw;
      var values: seq<FieldVal> := [];
      for i := 0 to |ty.fields|
        invariant EndFields(ty, 0, depth, maxElements, bytes, old(at))
               == EndFields(ty, i, depth, maxElements, bytes, at)
        invariant DrawFields(ty, 0, depth, maxElements, bytes, old(at))
               == values + DrawFields(ty, i, depth, maxElements, bytes, at)
      {
        var next := ValueAt(ty.fields[i].ty, depth);
        if next.Err? {
          return Err(next.error);
        }
        var made := FieldVal(ty.fields[i].name, next.value);
        ghost var rest := DrawFields(ty, i + 1, depth, maxElements, bytes, at);
        assert values + ([made] + rest) == values + [made] + rest;
        values := values + [made];
      }
      assert values + [] == values;
      r := Ok(values);
    }

    method VariantAt(ty: Ty, depth: nat) returns (r: Result<Val, Refused>)
      requires ty.Variant?
      modifies this
      ensures Lands(r, Draw(ty, depth, maxElements, bytes, old(at)),
                    at, End(ty, depth, maxElements, bytes, old(at)))
      decreases ty, 1
    {
      if ty.cases == [] {
        return Err(Refused(ty));
      }
      var k := Pick(|ty.cases|);
      assert ty.cases[k] in ty.cases;
      var payload := PayloadAt(ty.cases[k].ty, depth);
      if payload.Err? {
        return Err(payload.error);
      }
      r := Ok(VariantVal(ty.cases[k].name, payload.value));
    }

    method FlagSet(names: seq<string>) returns (flags: seq<string>)
      modifies this
      ensures flags == FlagsAt(names, bytes, old(at)) && at == old(at) + |names|
    {
      flags := [];
      assert names[0..] == names;
      for i := 0 to |names|
        invariant at == old(at) + i
        invariant FlagsAt(names, bytes, old(at)) == flags + FlagsAt(names[i..], bytes, at)
      {
        assert names[i..][1..] == names[i + 1..];
        ghost var rest := FlagsAt(names[i + 1..], bytes, at + 1);
        var b := Byte();
        if b % 2 == 1 {
          assert flags + ([names[i]] + rest) == flags + [names[i]] + rest;
          flags := flags + [names[i]];
        } else {
          assert [] + rest == rest;
        }
      }
    }

    method OptionAt(ty: Ty, depth: nat) returns (r: Result<Val, Refused>)
      requires ty.OptionOf?
      modifies this
      ensures Lands(r, Draw(ty, depth, maxElements, bytes, old(at)),
                    at, End(ty, depth, maxElements, bytes, old(at)))
      decreases ty, 1
    {
      if depth == 0 {
        return Ok(OptionVal(None));
      }
      var b := Byte();
      if b % 2 == 0 {
        return Ok(OptionVal(None));
      }
      var inner := ValueAt(ty.some, Shallower(depth));
      r := if inner.Ok? then Ok(OptionVal(Some(inner.value))) else Err(inner.error);
    }

    method ResultAt(ty: Ty, depth: nat) returns (r: Result<Val, Refused>)
      requires ty.ResultOf?
      modifies this
      ensures Lands(r, Draw(ty, depth, maxElements, bytes, old(at)),
                    at, End(ty, depth, maxElements, bytes, old(at)))
      decreases ty, 1
    {
      var b := Byte();
      var takeOk := b % 2 == 0;
      var payload := PayloadAt(if takeOk then ty.ok else ty.err, depth);
      r := if payload.Ok? then Ok(ResultVal(takeOk, payload.value)) else Err(payload.error);
    }

    method ListAt(ty: Ty, depth: nat) returns (r: Result<Val, Refused>)
      requires ty.ListOf? || ty.FixedLengthList?
      modifies this
      ensures Lands(r, Draw(ty, depth, maxElements, bytes, old(at)),
                    at, End(ty, depth, maxElements, bytes, old(at)))
      decreases ty, 1
    {
      hide EndRepeat, DrawRepeat;
      if ty.ListOf? {
        var count := Count(depth);
        var items := Repeat(ty.item, count, depth);
        r := if items.Ok? then Ok(ListVal(items.value)) else Err(items.error);
      } else {
        var items := Repeat(ty.item, ty.length, depth);
        r := if items.Ok? then Ok(FixedLengthListVal(items.value)) else Err(items.error);
      }
    }

    /** The types without parts of their own. */
    method ScalarAt(ty: Ty, depth: nat) returns (r: Result<Val, Refused>)
      requires !ty.ListOf? && !ty.FixedLengthList? && !ty.Tuple? && !ty.Record?
      requires !ty.Variant? && !ty.OptionOf? && !ty.ResultOf?
      modifies this
      ensures Lands(r, Draw(ty, depth, maxElements, bytes, old(at)),
                    at, End(ty, depth, maxElements, bytes, old(at)))
    {
      hide IntAt, CharacterAt, TextAt, AfterText, AfterTableOr;
      match ty {
        case Bool =>
          var b := Byte();
          r := Ok(BoolVal(b % 2 == 1));
        case Int(width) =>
          var n := IntBits();
          r := Ok(IntVal(Cast(width, n)));
        case Float32 =>
          var bits := FloatBits(4, INTERESTING_F32);
          r := Ok(Float32Val(bits));
        case Float64 =>
          var bits := FloatBits(8, INTERESTING_F64);
          r := Ok(Float64Val(bits));
        case Char =>
          var c := Character();
          r := Ok(CharVal(c));
        case String =>
          var s := Text();
          r := Ok(StringVal(s));
        case Enum(names) =>
          if names == [] {
            return Err(Refused(ty));
          }
          var k := Pick(|names|);
          r := Ok(EnumVal(names[k]));
        case Flags(names) =>
          var flags := FlagSet(names);
          r := Ok(FlagsVal(flags));
        case _ => r := Err(Refused(ty));
      }
    }

    /** One value of the type, at most `depth` levels deep: the one its bytes spell out. */
    method ValueAt(ty: Ty, depth: nat) returns (r: Result<Val, Refused>)
      modifies this
      ensures Lands(r, Draw(ty, depth, maxElements, bytes, old(at)),
                    at, End(ty, depth, maxElements, bytes, old(at)))
      decreases ty, 2
    {
      match ty {
        case ListOf(_) => r := ListAt(ty, depth);
        case FixedLengthList(_, _) => r := ListAt(ty, depth);
        case Tuple(_) =>
          var values := TypesAt(ty, Shallower(depth));
          r := if values.Ok? then Ok(TupleVal(values.value)) else Err(values.error);
        case Record(_) =>
          var values := FieldsAt(ty, Shallower(depth));
          r := if values.Ok? then Ok(RecordVal(values.value)) else Err(values.error);
        case Variant(_) => r := VariantAt(ty, depth);
        case OptionOf(_) => r := OptionAt(ty, depth);
        case ResultOf(_, _) => r := ResultAt(ty, depth);
        case _ => r := ScalarAt(ty, depth);
      }
    }

    /**
      One value of the type. Whatever the bytes, it inhabits the type and can be spelled; once they have
      run out it is the simplest there is. A generator that has just been made returns, for some bytes,
      each value within reach, and no other.
      */
    method Value(ty: Ty) returns (r: Result<Val, Refused>)
      modifies this
      ensures Lands(r, Draw(ty, maxDepth, maxElements, bytes, old(at)),
                    at, End(ty, maxDepth, maxElements, bytes, old(at)))
      ensures r.Ok? ==> Reachable(r.value, ty, maxDepth, maxElements)
      ensures r.Ok? && DistinctCases(ty) ==> GoodValue(r.value, ty, maxDepth, maxElements)
      ensures r.Err? ==> CanRefuse(ty, maxDepth, maxElements)
      ensures old(IsExhausted()) ==> (if r.Ok? then Some(r.value) else None) == Simplest(ty)
    {
      hide End, Draw, Reachable, Inhabits, Spelled, Capped, CanRefuse, Simplest, DistinctCases;
      ghost var start := at;
      r := ValueAt(ty, maxDepth);
      if |bytes| <= start {
        SpentMakesSimplest(ty, maxDepth, maxElements, bytes, start);
      }
      if r.Err? {
        OnlyWhenItCan(ty, maxDepth, maxElements, bytes, start);
      } else {
        MadeIsReachable(ty, maxDepth, maxElements, bytes, start);
        if DistinctCases(ty) {
          ReachableIsGood(r.value, ty, maxDepth, maxElements);
        }
      }
    }

    /**
      A whole argument list: the type checker lets it into the call. Its values are drawn one after the
      other, as a tuple's a level up.
      */
    method Values(types: seq<Ty>) returns (r: Result<seq<Val>, Refused>)
      modifies this
      ensures Lands(r, DrawTypes(Tuple(types), 0, maxDepth, maxElements, bytes, old(at)),
                    at, EndTypes(Tuple(types), 0, maxDepth, maxElements, bytes, old(at)))
      ensures r.Ok? && (forall i | 0 <= i < |types| :: DistinctCases(types[i])) ==>
                && CheckArgs(types, r.value).Ok?
                && forall i | 0 <= i < |r.value| ::
                     Spelled(r.value[i]) && Capped(r.value[i], maxDepth, maxElements)
      ensures r.Err? ==> exists i | 0 <= i < |types| :: CanRefuse(types[i], maxDepth, maxElements)
    {
      hide End, Draw, Reachable, Inhabits, Spelled, Capped, CanRefuse;
      ghost var start := at;
      ghost var whole := Tuple(types);
      r := TypesAt(Tuple(types), maxDepth);
      if r.Err? {
        TypesWhenTheyCan(whole, 0, maxDepth, maxElements, bytes, start);
      } else {
        TypesAreReachable(whole, 0, maxDepth, maxElements, bytes, start);
        if forall i | 0 <= i < |types| :: DistinctCases(types[i]) {
          TypesAreGood(r.value, whole, maxDepth, maxElements);
          CheckArgsExactly(types, r.value);
        }
      }
    }
  }
}
