/** The binary encoding of a trace: the same events, length-prefixed. */
module BinaryCodec {
  import opened Wrappers
  import opened Utf8
  import opened TraceModel

  type Bytes = seq<byte>

  const U32_MAX := 0xFFFF_FFFF

  /** "WTTR" */
  const MAGIC: Bytes := [0x57, 0x54, 0x54, 0x52]

  // ---------------------------------------------------------------------------------------------
  // Writing
  // ---------------------------------------------------------------------------------------------

  /** A length as 32 bits can hold it. */
  function Saturated(n: nat): nat {
    if n <= U32_MAX then n else U32_MAX
  }

  /** Least significant byte first. */
  function LittleEndian(n: nat): (bytes: Bytes)
    requires n <= U32_MAX
    ensures |bytes| == 4
  {
    [n % 256, n / 256 % 256, n / 256 / 256 % 256, n / 256 / 256 / 256]
  }

  function PutStr(text: string): Bytes {
    var bytes := EncodeString(text);
    LittleEndian(Saturated(|bytes|)) + bytes[..Saturated(|bytes|)]
  }

  function PutEach(values: seq<string>): Bytes {
    if values == [] then [] else PutStr(values[0]) + PutEach(values[1..])
  }

  function PutStrs(values: seq<string>): Bytes {
    LittleEndian(Saturated(|values|)) + PutEach(values)
  }

  function PutOutcome(outcome: Outcome): Bytes {
    match outcome
    case Value(None) => [0]
    case Value(Some(value)) => [1] + PutStr(value)
    case Error(status, message) => [2] + (PutStr(status) + PutStr(message))
  }

  function PutEvent(event: Event): Bytes {
    match event
    case ExportCall(func, args) => [0] + (PutStr(func) + PutStrs(args))
    case ExportReturn(func, outcome) => [1] + (PutStr(func) + PutOutcome(outcome))
    case ImportCall(interface, func, args) => [2] + (PutStr(interface) + (PutStr(func) + PutStrs(args)))
    case ImportReturn(interface, func, outcome) => [3] + (PutStr(interface) + (PutStr(func) + PutOutcome(outcome)))
  }

  function PutEvents(events: seq<Event>): Bytes {
    if events == [] then [] else PutEvent(events[0]) + PutEvents(events[1..])
  }

  function PutHeader(header: Header): Bytes {
    PutStr(header.componentSha256) + (PutStr(header.plugin) + PutStr(header.manifestToml))
  }

  function ToBytes(trace: Trace): Bytes {
    MAGIC + (LittleEndian(FORMAT_VERSION)
    + (PutHeader(trace.header) + (LittleEndian(Saturated(|trace.events|)) + PutEvents(trace.events))))
  }

  // ---------------------------------------------------------------------------------------------
  // Reading
  // ---------------------------------------------------------------------------------------------

  datatype DecodeError =
    | EndsEarly(wanted: nat, offset: nat)
    | InvalidUtf8
    | UnknownOutcomeTag(tag: byte)
    | UnknownEventTag(tag: byte)
    | NotBinary
    | WrongVersion(version: nat)

  /** A value read, and the offset after it. */
  type Read<T> = Result<(T, nat), DecodeError>

  function Take(bytes: Bytes, at: nat, count: nat): (r: Read<Bytes>)
    ensures r.Ok? ==> r.value.1 == at + count <= |bytes| && |r.value.0| == count
  {
    if at + count <= |bytes| then Ok((bytes[at..at + count], at + count)) else Err(EndsEarly(count, at))
  }

  function ReadU8(bytes: Bytes, at: nat): Read<byte> {
    var (taken, next) :- Take(bytes, at, 1);
    Ok((taken[0], next))
  }

  function FromLittleEndian(b: Bytes): (n: nat)
    requires |b| == 4
    ensures n <= U32_MAX
  {
    var b0: nat, b1: nat, b2: nat, b3: nat := b[0], b[1], b[2], b[3];
    b0 + 256 * (b1 + 256 * (b2 + 256 * b3))
  }

  function ReadU32(bytes: Bytes, at: nat): (r: Read<nat>)
    ensures r.Ok? ==> r.value.0 <= U32_MAX
  {
    var (taken, next) :- Take(bytes, at, 4);
    Ok((FromLittleEndian(taken), next))
  }

  function ReadStr(bytes: Bytes, at: nat): Read<string> {
    var (len, from) :- ReadU32(bytes, at);
    var (taken, next) :- Take(bytes, from, len);
    match DecodeString(taken)
    case Some(text) => Ok((text, next))
    case None => Err(InvalidUtf8)
  }

  function ReadEach(bytes: Bytes, at: nat, count: nat): (r: Read<seq<string>>)
    ensures r.Ok? ==> |r.value.0| == count
    decreases count
  {
    if count == 0 then Ok(([], at))
    else
      var (first, from) :- ReadStr(bytes, at);
      var (rest, next) :- ReadEach(bytes, from, count - 1);
      Ok(([first] + rest, next))
  }

  function ReadStrs(bytes: Bytes, at: nat): Read<seq<string>> {
    var (count, from) :- ReadU32(bytes, at);
    ReadEach(bytes, from, count)
  }

  function ReadOutcome(bytes: Bytes, at: nat): Read<Outcome> {
    var (tag, from) :- ReadU8(bytes, at);
    if tag == 0 then Ok((Value(None), from))
    else if tag == 1 then
      var (value, next) :- ReadStr(bytes, from);
      Ok((Value(Some(value)), next))
    else if tag == 2 then
      var (status, mid) :- ReadStr(bytes, from);
      var (message, next) :- ReadStr(bytes, mid);
      Ok((Error(status, message), next))
    else Err(UnknownOutcomeTag(tag))
  }

  function ReadCall(bytes: Bytes, at: nat): Read<(string, seq<string>)> {
    var (func, mid) :- ReadStr(bytes, at);
    var (args, next) :- ReadStrs(bytes, mid);
    Ok(((func, args), next))
  }

  function ReadReturn(bytes: Bytes, at: nat): Read<(string, Outcome)> {
    var (func, mid) :- ReadStr(bytes, at);
    var (outcome, next) :- ReadOutcome(bytes, mid);
    Ok(((func, outcome), next))
  }

  function ReadEvent(bytes: Bytes, at: nat): Read<Event> {
    var (tag, from) :- ReadU8(bytes, at);
    if tag == 0 then
      var ((func, args), next) :- ReadCall(bytes, from);
      Ok((ExportCall(func, args), next))
    else if tag == 1 then
      var ((func, outcome), next) :- ReadReturn(bytes, from);
      Ok((ExportReturn(func, outcome), next))
    else if tag == 2 then
      var (interface, mid) :- ReadStr(bytes, from);
      var ((func, args), next) :- ReadCall(bytes, mid);
      Ok((ImportCall(interface, func, args), next))
    else if tag == 3 then
      var (interface, mid) :- ReadStr(bytes, from);
      var ((func, outcome), next) :- ReadReturn(bytes, mid);
      Ok((ImportReturn(interface, func, outcome), next))
    else Err(UnknownEventTag(tag))
  }

  function ReadEvents(bytes: Bytes, at: nat, count: nat): (r: Read<seq<Event>>)
    ensures r.Ok? ==> |r.value.0| == count
    decreases count
  {
    if count == 0 then Ok(([], at))
    else
      var (first, from) :- ReadEvent(bytes, at);
      var (rest, next) :- ReadEvents(bytes, from, count - 1);
      Ok(([first] + rest, next))
  }

  function ReadHeader(bytes: Bytes, at: nat): Read<Header> {
    var (sha256, a) :- ReadStr(bytes, at);
    var (plugin, b) :- ReadStr(bytes, a);
    var (manifest, next) :- ReadStr(bytes, b);
    Ok((Header(sha256, plugin, manifest), next))
  }

  /** A trace at the front of the bytes; what follows it is ignored. */
  function ReadTrace(bytes: Bytes): Read<Trace> {
    var (magic, a) :- Take(bytes, 0, 4);
    if magic != MAGIC then Err(NotBinary)
    else
      var (version, b) :- ReadU32(bytes, a);
      if version != FORMAT_VERSION then Err(WrongVersion(version))
      else
        var (header, c) :- ReadHeader(bytes, b);
        var (count, d) :- ReadU32(bytes, c);
        var (events, next) :- ReadEvents(bytes, d, count);
        Ok((Trace(header, events), next))
  }

  function FromBytes(bytes: Bytes): Result<Trace, DecodeError> {
    var (trace, _) :- ReadTrace(bytes);
    Ok(trace)
  }

  // ---------------------------------------------------------------------------------------------
  // The reader, advancing its offset, and the decoder's loops
  // ---------------------------------------------------------------------------------------------

  /** A method's outcome and final offset are those of the reading function. */
  ghost predicate Reads<T>(spec: Read<T>, r: Result<T, DecodeError>, at: nat) {
    match spec
    case Ok((value, next)) => r == Ok(value) && at == next
    case Err(e) => r == Err(e)
  }

  class Reader {
    const bytes: Bytes
    var at: nat

    constructor (bytes: Bytes)
      ensures this.bytes == bytes && at == 0
    {
      this.bytes := bytes;
      at := 0;
    }

    method TakeBytes(count: nat) returns (r: Result<Bytes, DecodeError>)
      modifies this
      ensures Reads(Take(bytes, old(at), count), r, at)
    {
      var end := at + count;
      if end > |bytes| {
        return Err(EndsEarly(count, at));
      }
      r := Ok(bytes[at..end]);
      at := end;
    }

    method U8() returns (r: Result<byte, DecodeError>)
      modifies this
      ensures Reads(ReadU8(bytes, old(at)), r, at)
    {
      var taken :- TakeBytes(1);
      r := Ok(taken[0]);
    }

    method U32() returns (r: Result<nat, DecodeError>)
      modifies this
      ensures Reads(ReadU32(bytes, old(at)), r, at)
    {
      var taken :- TakeBytes(4);
      r := Ok(FromLittleEndian(taken));
    }

    method Str() returns (r: Result<string, DecodeError>)
      modifies this
      ensures Reads(ReadStr(bytes, old(at)), r, at)
    {
      var len :- U32();
      var taken :- TakeBytes(len);
      match DecodeString(taken) {
        case Some(text) => r := Ok(text);
        case None => r := Err(InvalidUtf8);
      }
    }

    method Strs() returns (r: Result<seq<string>, DecodeError>)
      modifies this
      ensures Reads(ReadStrs(bytes, old(at)), r, at)
    {
      var count :- U32();
      var values, left := [], count;
      ghost var whole := ReadEach(bytes, at, count);
      LeadsToStart(whole);
      while left > 0
        invariant left <= count
        invariant LeadsTo(values, ReadEach(bytes, at, left), whole)
      {
        ghost var before := at;
        var value :- Str();
        LeadsToPush(values, value, ReadEach(bytes, at, left - 1), ReadEach(bytes, before, left), whole);
        values := values + [value];
        left := left - 1;
      }
      LeadsToEnd(values, at, whole);
      r := Ok(values);
    }

    method ReadAnOutcome() returns (r: Result<Outcome, DecodeError>)
      modifies this
      ensures Reads(ReadOutcome(bytes, old(at)), r, at)
    {
      var tag :- U8();
      if tag == 0 {
        r := Ok(Value(None));
      } else if tag == 1 {
        var value :- Str();
        r := Ok(Value(Some(value)));
      } else if tag == 2 {
        var status :- Str();
        var message :- Str();
        r := Ok(Error(status, message));
      } else {
        r := Err(UnknownOutcomeTag(tag));
      }
    }

    method AnEvent() returns (r: Result<Event, DecodeError>)
      modifies this
      ensures Reads(ReadEvent(bytes, old(at)), r, at)
    {
      hide ReadStr, ReadStrs, ReadOutcome;
      var tag :- U8();
      if tag == 0 {
        var func :- Str();
        var args :- Strs();
        r := Ok(ExportCall(func, args));
      } else if tag == 1 {
        var func :- Str();
        var outcome :- ReadAnOutcome();
        r := Ok(ExportReturn(func, outcome));
      } else if tag == 2 {
        var interface :- Str();
        var func :- Str();
        var args :- Strs();
        r := Ok(ImportCall(interface, func, args));
      } else if tag == 3 {
        var interface :- Str();
        var func :- Str();
        var outcome :- ReadAnOutcome();
        r := Ok(ImportReturn(interface, func, outcome));
      } else {
        r := Err(UnknownEventTag(tag));
      }
    }
  }

  /** What a loop has read so far, followed by what is left, is the whole. */
  ghost predicate LeadsTo<T>(done: seq<T>, left: Read<seq<T>>, whole: Read<seq<T>>) {
    match left
    case Ok((rest, next)) => whole == Ok((done + rest, next))
    case Err(e) => whole == Err(e)
  }

  lemma {:induction false} LeadsToStart<T>(whole: Read<seq<T>>)
    ensures LeadsTo([], whole, whole)
  {
    if whole.Ok? {
      assert [] + whole.value.0 == whole.value.0;
    }
  }

  lemma {:induction false} LeadsToPush<T>(
    done: seq<T>, x: T, rest: Read<seq<T>>, left: Read<seq<T>>, whole: Read<seq<T>>)
    requires LeadsTo(done, left, whole)
    requires left == match rest case Ok((xs, next)) => Ok(([x] + xs, next)) case Err(e) => Err(e)
    ensures LeadsTo(done + [x], rest, whole)
  {
    if rest.Ok? {
      assert done + ([x] + rest.value.0) == done + [x] + rest.value.0;
    }
  }

  lemma {:induction false} LeadsToEnd<T>(done: seq<T>, at: nat, whole: Read<seq<T>>)
    requires LeadsTo(done, Ok(([], at)), whole)
    ensures whole == Ok((done, at))
  {
    assert done + [] == done;
  }

  method Decode(bytes: Bytes) returns (r: Result<Trace, DecodeError>)
    ensures r == FromBytes(bytes)
  {
    hide ReadStr, ReadEvent;
    var reader := new Reader(bytes);
    var magic :- reader.TakeBytes(4);
    if magic != MAGIC {
      return Err(NotBinary);
    }
    var version :- reader.U32();
    if version != FORMAT_VERSION {
      return Err(WrongVersion(version));
    }
    var sha256 :- reader.Str();
    var plugin :- reader.Str();
    var manifest :- reader.Str();
    var count :- reader.U32();
    var events, left := [], count;
    ghost var whole := ReadEvents(bytes, reader.at, count);
    LeadsToStart(whole);
    while left > 0
      invariant left <= count && fresh(reader) && reader.bytes == bytes
      invariant LeadsTo(events, ReadEvents(bytes, reader.at, left), whole)
    {
      ghost var before := reader.at;
      var event :- reader.AnEvent();
      LeadsToPush(events, event, ReadEvents(bytes, reader.at, left - 1), ReadEvents(bytes, before, left), whole);
      events := events + [event];
      left := left - 1;
    }
    LeadsToEnd(events, reader.at, whole);
    r := Ok(Trace(Header(sha256, plugin, manifest), events));
  }
}
