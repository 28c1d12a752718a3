/**
  What the binary encoding promises.

  A trace comes back from its bytes if and only if every length in it fits 32 bits; what follows the
  last event is ignored; and no strict prefix of an encoding is accepted.
  */
module BinaryTheorems {
  import opened Wrappers
  import opened Utf8
  import opened TraceModel
  import opened BinaryCodec

  // ---------------------------------------------------------------------------------------------
  // Lengths
  // ---------------------------------------------------------------------------------------------

  predicate FitsStr(s: string) {
    |EncodeString(s)| <= U32_MAX
  }

  predicate FitsStrs(values: seq<string>) {
    |values| <= U32_MAX && forall i | 0 <= i < |values| :: FitsStr(values[i])
  }

  predicate FitsOutcome(outcome: Outcome) {
    match outcome
    case Value(None) => true
    case Value(Some(value)) => FitsStr(value)
    case Error(status, message) => FitsStr(status) && FitsStr(message)
  }

  predicate FitsEvent(event: Event) {
    && FitsStr(event.func)
    && (event.ImportCall? || event.ImportReturn? ==> FitsStr(event.interface))
    && (if event.ExportCall? || event.ImportCall? then FitsStrs(event.args) else FitsOutcome(event.outcome))
  }

  predicate FitsHeader(header: Header) {
    FitsStr(header.componentSha256) && FitsStr(header.plugin) && FitsStr(header.manifestToml)
  }

  predicate Fits(trace: Trace) {
    && FitsHeader(trace.header)
    && |trace.events| <= U32_MAX
    && forall i | 0 <= i < |trace.events| :: FitsEvent(trace.events[i])
  }

  // ---------------------------------------------------------------------------------------------
  // Reading back what was written
  // ---------------------------------------------------------------------------------------------

  /** `part` stands in `bytes` at `at`. */
  predicate Holds(bytes: Bytes, at: nat, part: Bytes) {
    at + |part| <= |bytes| && bytes[at..at + |part|] == part
  }

  lemma {:induction false} HoldsSplit(bytes: Bytes, at: nat, a: Bytes, b: Bytes)
    requires Holds(bytes, at, a + b)
    ensures Holds(bytes, at, a) && Holds(bytes, at + |a|, b)
  {
    var whole := bytes[at..at + |a + b|];
    assert bytes[at..at + |a|] == whole[..|a|] == a;
    assert bytes[at + |a|..at + |a| + |b|] == whole[|a|..] == b;
  }

  lemma {:induction false} LittleEndianReads(n: nat)
    requires n <= U32_MAX
    ensures FromLittleEndian(LittleEndian(n)) == n
  {
    assert n == n % 256 + 256 * (n / 256);
    assert n / 256 == n / 256 % 256 + 256 * (n / 256 / 256);
    assert n / 256 / 256 == n / 256 / 256 % 256 + 256 * (n / 256 / 256 / 256);
  }

  lemma {:induction false} U32Reads(bytes: Bytes, at: nat, n: nat)
    requires n <= U32_MAX && Holds(bytes, at, LittleEndian(n))
    ensures ReadU32(bytes, at) == Ok((n, at + 4))
  {
    hide LittleEndian, FromLittleEndian;
    LittleEndianReads(n);
  }

  lemma {:induction false} U8Reads(bytes: Bytes, at: nat, tag: byte)
    requires Holds(bytes, at, [tag])
    ensures ReadU8(bytes, at) == Ok((tag, at + 1))
  {
    assert bytes[at..at + 1][0] == tag;
  }

  lemma {:induction false} StrReads(bytes: Bytes, at: nat, s: string)
    requires FitsStr(s) && Holds(bytes, at, PutStr(s))
    ensures ReadStr(bytes, at) == Ok((s, at + |PutStr(s)|))
  {
    hide LittleEndian, ReadU32, DecodeString, EncodeString;
    var encoded := EncodeString(s);
    assert encoded[..|encoded|] == encoded;
    HoldsSplit(bytes, at, LittleEndian(|encoded|), encoded);
    U32Reads(bytes, at, |encoded|);
    DecodeEncode(s);
  }

  lemma {:induction false} EachReads(bytes: Bytes, at: nat, values: seq<string>)
    requires (forall i | 0 <= i < |values| :: FitsStr(values[i])) && Holds(bytes, at, PutEach(values))
    ensures ReadEach(bytes, at, |values|) == Ok((values, at + |PutEach(values)|))
    decreases |values|
  {
    hide PutStr, ReadStr, FitsStr;
    if values != [] {
      HoldsSplit(bytes, at, PutStr(values[0]), PutEach(values[1..]));
      StrReads(bytes, at, values[0]);
      EachReads(bytes, at + |PutStr(values[0])|, values[1..]);
      assert [values[0]] + values[1..] == values;
    }
  }

  lemma {:induction false} StrsRead(bytes: Bytes, at: nat, values: seq<string>)
    requires FitsStrs(values) && Holds(bytes, at, PutStrs(values))
    ensures ReadStrs(bytes, at) == Ok((values, at + |PutStrs(values)|))
  {
    hide LittleEndian, ReadU32, ReadEach, PutEach;
    HoldsSplit(bytes, at, LittleEndian(|values|), PutEach(values));
    U32Reads(bytes, at, |values|);
    EachReads(bytes, at + 4, values);
  }

  lemma {:induction false} OutcomeReads(bytes: Bytes, at: nat, outcome: Outcome)
    requires FitsOutcome(outcome) && Holds(bytes, at, PutOutcome(outcome))
    ensures ReadOutcome(bytes, at) == Ok((outcome, at + |PutOutcome(outcome)|))
  {
    hide PutStr, ReadStr, FitsStr, ReadU8;
    match outcome {
      case Value(None) =>
        U8Reads(bytes, at, 0);
      case Value(Some(value)) =>
        HoldsSplit(bytes, at, [1], PutStr(value));
        U8Reads(bytes, at, 1);
        StrReads(bytes, at + 1, value);
      case Error(status, message) =>
        HoldsSplit(bytes, at, [2], PutStr(status) + PutStr(message));
        U8Reads(bytes, at, 2);
        HoldsSplit(bytes, at + 1, PutStr(status), PutStr(message));
        StrReads(bytes, at + 1, status);
        StrReads(bytes, at + 1 + |PutStr(status)|, message);
    }
  }

  lemma {:induction false} CallReads(bytes: Bytes, at: nat, func: string, args: seq<string>)
    requires FitsStr(func) && FitsStrs(args) && Holds(bytes, at, PutStr(func) + PutStrs(args))
    ensures ReadCall(bytes, at) == Ok(((func, args), at + |PutStr(func) + PutStrs(args)|))
  {
    hide PutStr, PutStrs, ReadStr, ReadStrs, FitsStr, FitsStrs;
    HoldsSplit(bytes, at, PutStr(func), PutStrs(args));
    StrReads(bytes, at, func);
    StrsRead(bytes, at + |PutStr(func)|, args);
  }

  lemma {:induction false} ReturnReads(bytes: Bytes, at: nat, func: string, outcome: Outcome)
    requires FitsStr(func) && FitsOutcome(outcome) && Holds(bytes, at, PutStr(func) + PutOutcome(outcome))
    ensures ReadReturn(bytes, at) == Ok(((func, outcome), at + |PutStr(func) + PutOutcome(outcome)|))
  {
    hide PutStr, PutOutcome, ReadStr, ReadOutcome, FitsStr, FitsOutcome;
    HoldsSplit(bytes, at, PutStr(func), PutOutcome(outcome));
    StrReads(bytes, at, func);
    OutcomeReads(bytes, at + |PutStr(func)|, outcome);
  }

  lemma {:induction false} ExportReads(bytes: Bytes, at: nat, event: Event)
    requires event.ExportCall? || event.ExportReturn?
    requires FitsEvent(event) && Holds(bytes, at, PutEvent(event))
    ensures ReadEvent(bytes, at) == Ok((event, at + |PutEvent(event)|))
  {
    hide PutStr, PutStrs, PutOutcome, ReadStr, ReadCall, ReadReturn, FitsStr, FitsStrs, FitsOutcome, ReadU8, Holds;
    match event {
      case ExportCall(func, args) =>
        HoldsSplit(bytes, at, [0], PutStr(func) + PutStrs(args));
        U8Reads(bytes, at, 0);
        CallReads(bytes, at + 1, func, args);
      case ExportReturn(func, outcome) =>
        HoldsSplit(bytes, at, [1], PutStr(func) + PutOutcome(outcome));
        U8Reads(bytes, at, 1);
        ReturnReads(bytes, at + 1, func, outcome);
    }
  }

  lemma {:induction false} ImportReads(bytes: Bytes, at: nat, event: Event)
    requires event.ImportCall? || event.ImportReturn?
    requires FitsEvent(event) && Holds(bytes, at, PutEvent(event))
    ensures ReadEvent(bytes, at) == Ok((event, at + |PutEvent(event)|))
  {
    hide PutStr, PutStrs, PutOutcome, ReadStr, ReadCall, ReadReturn, FitsStr, FitsStrs, FitsOutcome, ReadU8, Holds;
    match event {
      case ImportCall(interface, func, args) =>
        var tail := PutStr(func) + PutStrs(args);
        HoldsSplit(bytes, at, [2], PutStr(interface) + tail);
        U8Reads(bytes, at, 2);
        HoldsSplit(bytes, at + 1, PutStr(interface), tail);
        StrReads(bytes, at + 1, interface);
        CallReads(bytes, at + 1 + |PutStr(interface)|, func, args);
      case ImportReturn(interface, func, outcome) =>
        var tail := PutStr(func) + PutOutcome(outcome);
        HoldsSplit(bytes, at, [3], PutStr(interface) + tail);
        U8Reads(bytes, at, 3);
        HoldsSplit(bytes, at + 1, PutStr(interface), tail);
        StrReads(bytes, at + 1, interface);
        ReturnReads(bytes, at + 1 + |PutStr(interface)|, func, outcome);
    }
  }

  lemma {:induction false} EventReads(bytes: Bytes, at: nat, event: Event)
    requires FitsEvent(event) && Holds(bytes, at, PutEvent(event))
    ensures ReadEvent(bytes, at) == Ok((event, at + |PutEvent(event)|))
  {
    hide PutEvent, ReadEvent, FitsEvent, Holds;
    if event.ExportCall? || event.ExportReturn? {
      ExportReads(bytes, at, event);
    } else {
      ImportReads(bytes, at, event);
    }
  }

  lemma {:induction false} EventsRead(bytes: Bytes, at: nat, events: seq<Event>)
    requires (forall i | 0 <= i < |events| :: FitsEvent(events[i])) && Holds(bytes, at, PutEvents(events))
    ensures ReadEvents(bytes, at, |events|) == Ok((events, at + |PutEvents(events)|))
    decreases |events|
  {
    hide PutEvent, ReadEvent, FitsEvent;
    if events != [] {
      HoldsSplit(bytes, at, PutEvent(events[0]), PutEvents(events[1..]));
      EventReads(bytes, at, events[0]);
      EventsRead(bytes, at + |PutEvent(events[0])|, events[1..]);
      assert [events[0]] + events[1..] == events;
    }
  }

  lemma {:induction false} HeaderReads(bytes: Bytes, at: nat, header: Header)
    requires FitsHeader(header) && Holds(bytes, at, PutHeader(header))
    ensures ReadHeader(bytes, at) == Ok((header, at + |PutHeader(header)|))
  {
    hide PutStr, ReadStr, FitsStr;
    var a, b, c := PutStr(header.componentSha256), PutStr(header.plugin), PutStr(header.manifestToml);
    HoldsSplit(bytes, at, a, b + c);
    HoldsSplit(bytes, at + |a|, b, c);
    StrReads(bytes, at, header.componentSha256);
    StrReads(bytes, at + |a|, header.plugin);
    StrReads(bytes, at + |a| + |b|, header.manifestToml);
  }

  lemma {:induction false} TraceReads(bytes: Bytes, trace: Trace)
    requires Fits(trace) && Holds(bytes, 0, ToBytes(trace))
    ensures ReadTrace(bytes) == Ok((trace, |ToBytes(trace)|))
  {
    hide LittleEndian, PutHeader, PutEvents, ReadU32, ReadHeader, ReadEvents, FitsHeader, FitsEvent;
    var version, header := LittleEndian(FORMAT_VERSION), PutHeader(trace.header);
    var count, events := LittleEndian(|trace.events|), PutEvents(trace.events);
    HoldsSplit(bytes, 0, MAGIC, version + (header + (count + events)));
    HoldsSplit(bytes, 4, version, header + (count + events));
    U32Reads(bytes, 4, FORMAT_VERSION);
    HoldsSplit(bytes, 8, header, count + events);
    HeaderReads(bytes, 8, trace.header);
    HoldsSplit(bytes, 8 + |header|, count, events);
    U32Reads(bytes, 8 + |header|, |trace.events|);
    EventsRead(bytes, 12 + |header|, trace.events);
  }

  // ---------------------------------------------------------------------------------------------
  // More bytes change nothing
  // ---------------------------------------------------------------------------------------------

  /**
    More bytes change a read only if it wanted them: it then said how many, from an offset that is there,
    and they would go past the end.
    */
  ghost predicate Stable<T>(short: Read<T>, long: Read<T>, size: nat) {
    match short
    case Ok((_, next)) => long == short && next <= size
    case Err(EndsEarly(wanted, offset)) => offset <= size < offset + wanted
    case Err(e) => long == Err(e)
  }

  lemma {:induction false} TakeStable(bytes: Bytes, more: Bytes, at: nat, count: nat)
    requires at <= |bytes|
    ensures Stable(Take(bytes, at, count), Take(bytes + more, at, count), |bytes|)
  {
    if at + count <= |bytes| {
      assert (bytes + more)[at..at + count] == bytes[at..at + count];
    }
  }

  lemma {:induction false} U32Stable(bytes: Bytes, more: Bytes, at: nat)
    requires at <= |bytes|
    ensures Stable(ReadU32(bytes, at), ReadU32(bytes + more, at), |bytes|)
  {
    hide FromLittleEndian, Take;
    TakeStable(bytes, more, at, 4);
  }

  lemma {:induction false} StrStable(bytes: Bytes, more: Bytes, at: nat)
    requires at <= |bytes|
    ensures Stable(ReadStr(bytes, at), ReadStr(bytes + more, at), |bytes|)
  {
    hide ReadU32, DecodeString, Take;
    U32Stable(bytes, more, at);
    if ReadU32(bytes, at).Ok? {
      var (len, from) := ReadU32(bytes, at).value;
      TakeStable(bytes, more, from, len);
    }
  }

  lemma {:induction false} EachStable(bytes: Bytes, more: Bytes, at: nat, count: nat)
    requires at <= |bytes|
    ensures Stable(ReadEach(bytes, at, count), ReadEach(bytes + more, at, count), |bytes|)
    decreases count
  {
    hide ReadStr;
    if count > 0 {
      StrStable(bytes, more, at);
      if ReadStr(bytes, at).Ok? {
        EachStable(bytes, more, ReadStr(bytes, at).value.1, count - 1);
      }
    }
  }

  lemma {:induction false} StrsStable(bytes: Bytes, more: Bytes, at: nat)
    requires at <= |bytes|
    ensures Stable(ReadStrs(bytes, at), ReadStrs(bytes + more, at), |bytes|)
  {
    hide ReadU32, ReadEach;
    U32Stable(bytes, more, at);
    if ReadU32(bytes, at).Ok? {
      var (count, from) := ReadU32(bytes, at).value;
      EachStable(bytes, more, from, count);
    }
  }

  lemma {:induction false} OutcomeStable(bytes: Bytes, more: Bytes, at: nat)
    requires at <= |bytes|
    ensures Stable(ReadOutcome(bytes, at), ReadOutcome(bytes + more, at), |bytes|)
  {
    hide ReadStr, Take;
    TakeStable(bytes, more, at, 1);
    if Take(bytes, at, 1).Ok? {
      StrStable(bytes, more, at + 1);
      if ReadStr(bytes, at + 1).Ok? {
        StrStable(bytes, more, ReadStr(bytes, at + 1).value.1);
      }
    }
  }

  lemma {:induction false} CallStable(bytes: Bytes, more: Bytes, at: nat)
    requires at <= |bytes|
    ensures Stable(ReadCall(bytes, at), ReadCall(bytes + more, at), |bytes|)
    ensures Stable(ReadReturn(bytes, at), ReadReturn(bytes + more, at), |bytes|)
  {
    hide ReadStr, ReadStrs, ReadOutcome;
    StrStable(bytes, more, at);
    if ReadStr(bytes, at).Ok? {
      var mid := ReadStr(bytes, at).value.1;
      StrsStable(bytes, more, mid);
      OutcomeStable(bytes, more, mid);
    }
  }

  lemma {:induction false} EventStable(bytes: Bytes, more: Bytes, at: nat)
    requires at <= |bytes|
    ensures Stable(ReadEvent(bytes, at), ReadEvent(bytes + more, at), |bytes|)
  {
    hide ReadStr, ReadCall, ReadReturn, Take;
    TakeStable(bytes, more, at, 1);
    if Take(bytes, at, 1).Ok? {
      CallStable(bytes, more, at + 1);
      StrStable(bytes, more, at + 1);
      if ReadStr(bytes, at + 1).Ok? {
        CallStable(bytes, more, ReadStr(bytes, at + 1).value.1);
      }
    }
  }

  lemma {:induction false} EventsStable(bytes: Bytes, more: Bytes, at: nat, count: nat)
    requires at <= |bytes|
    ensures Stable(ReadEvents(bytes, at, count), ReadEvents(bytes + more, at, count), |bytes|)
    decreases count
  {
    hide ReadEvent;
    if count > 0 {
      EventStable(bytes, more, at);
      if ReadEvent(bytes, at).Ok? {
        EventsStable(bytes, more, ReadEvent(bytes, at).value.1, count - 1);
      }
    }
  }

  lemma {:induction false} HeaderStable(bytes: Bytes, more: Bytes, at: nat)
    requires at <= |bytes|
    ensures Stable(ReadHeader(bytes, at), ReadHeader(bytes + more, at), |bytes|)
  {
    hide ReadStr;
    StrStable(bytes, more, at);
    if ReadStr(bytes, at).Ok? {
      var a := ReadStr(bytes, at).value.1;
      StrStable(bytes, more, a);
      if ReadStr(bytes, a).Ok? {
        StrStable(bytes, more, ReadStr(bytes, a).value.1);
      }
    }
  }

  lemma {:induction false} TraceStable(bytes: Bytes, more: Bytes)
    ensures Stable(ReadTrace(bytes), ReadTrace(bytes + more), |bytes|)
  {
    hide Take, ReadU32, ReadHeader, ReadEvents;
    TakeStable(bytes, more, 0, 4);
    if Take(bytes, 0, 4).Ok? {
      U32Stable(bytes, more, 4);
      if ReadU32(bytes, 4).Ok? {
        var b := ReadU32(bytes, 4).value.1;
        HeaderStable(bytes, more, b);
        if ReadHeader(bytes, b).Ok? {
          var c := ReadHeader(bytes, b).value.1;
          U32Stable(bytes, more, c);
          if ReadU32(bytes, c).Ok? {
            var (count, d) := ReadU32(bytes, c).value;
            EventsStable(bytes, more, d, count);
          }
        }
      }
    }
  }

  // ---------------------------------------------------------------------------------------------
  // Whatever is read was written
  // ---------------------------------------------------------------------------------------------

  lemma {:induction false} HoldsJoin(bytes: Bytes, at: nat, a: Bytes, b: Bytes)
    requires Holds(bytes, at, a) && Holds(bytes, at + |a|, b)
    ensures Holds(bytes, at, a + b)
  {
    assert bytes[at..at + |a + b|] == bytes[at..at + |a|] + bytes[at + |a|..at + |a| + |b|];
  }

  /** What was read stands in the bytes as it would have been written, and reading stopped after it. */
  predicate Stands(bytes: Bytes, at: nat, part: Bytes, next: nat) {
    Holds(bytes, at, part) && next == at + |part|
  }

  lemma {:induction false} StandsJoin(bytes: Bytes, at: nat, a: Bytes, mid: nat, b: Bytes, next: nat)
    requires Stands(bytes, at, a, mid) && Stands(bytes, mid, b, next)
    ensures Stands(bytes, at, a + b, next)
  {
    hide Holds;
    HoldsJoin(bytes, at, a, b);
  }

  lemma {:induction false} LittleEndianWritten(b: Bytes)
    requires |b| == 4
    ensures LittleEndian(FromLittleEndian(b)) == b
  {
    var b0: nat, b1: nat, b2: nat, b3: nat := b[0], b[1], b[2], b[3];
    var n := FromLittleEndian(b);
    assert n / 256 == b1 + 256 * (b2 + 256 * b3) && n % 256 == b0;
    assert n / 256 / 256 == b2 + 256 * b3 && n / 256 % 256 == b1;
    assert n / 256 / 256 / 256 == b3 && n / 256 / 256 % 256 == b2;
  }

  lemma {:induction false} U32Written(bytes: Bytes, at: nat)
    requires ReadU32(bytes, at).Ok?
    ensures var (n, next) := ReadU32(bytes, at).value; Stands(bytes, at, LittleEndian(n), next)
  {
    hide LittleEndian, FromLittleEndian;
    LittleEndianWritten(bytes[at..at + 4]);
  }

  lemma {:induction false} U8Written(bytes: Bytes, at: nat)
    requires ReadU8(bytes, at).Ok?
    ensures var (tag, next) := ReadU8(bytes, at).value; Stands(bytes, at, [tag], next)
  {
  }

  lemma {:induction false} StrWritten(bytes: Bytes, at: nat)
    requires ReadStr(bytes, at).Ok?
    ensures var (text, next) := ReadStr(bytes, at).value; FitsStr(text) && Stands(bytes, at, PutStr(text), next)
  {
    U32Written(bytes, at);
    var (len, from) := ReadU32(bytes, at).value;
    var taken := bytes[from..from + len];
    hide LittleEndian, ReadU32, DecodeString, EncodeString;
    EncodeDecode(taken);
    assert taken[..len] == taken && Stands(bytes, from, taken, from + len);
    StandsJoin(bytes, at, LittleEndian(len), from, taken, from + len);
  }

  lemma {:induction false} EachWritten(bytes: Bytes, at: nat, count: nat)
    requires at <= |bytes| && ReadEach(bytes, at, count).Ok?
    ensures var (values, next) := ReadEach(bytes, at, count).value;
            Stands(bytes, at, PutEach(values), next) && forall i | 0 <= i < count :: FitsStr(values[i])
    decreases count
  {
    hide ReadStr, FitsStr, PutStr;
    if count > 0 {
      StrWritten(bytes, at);
      var (first, mid) := ReadStr(bytes, at).value;
      EachWritten(bytes, mid, count - 1);
      var (rest, next) := ReadEach(bytes, mid, count - 1).value;
      assert ([first] + rest)[1..] == rest;
      StandsJoin(bytes, at, PutStr(first), mid, PutEach(rest), next);
    }
  }

  lemma {:induction false} StrsWritten(bytes: Bytes, at: nat)
    requires ReadStrs(bytes, at).Ok?
    ensures var (values, next) := ReadStrs(bytes, at).value;
            FitsStrs(values) && Stands(bytes, at, PutStrs(values), next)
  {
    U32Written(bytes, at);
    var (count, from) := ReadU32(bytes, at).value;
    hide ReadU32, ReadEach, FitsStr, LittleEndian, PutEach;
    EachWritten(bytes, from, count);
    var (values, next) := ReadEach(bytes, from, count).value;
    StandsJoin(bytes, at, LittleEndian(count), from, PutEach(values), next);
  }

  lemma {:induction false} OutcomeWritten(bytes: Bytes, at: nat)
    requires ReadOutcome(bytes, at).Ok?
    ensures var (outcome, next) := ReadOutcome(bytes, at).value;
            FitsOutcome(outcome) && Stands(bytes, at, PutOutcome(outcome), next)
  {
    hide ReadU8, ReadStr, FitsStr, PutStr, Stands;
    U8Written(bytes, at);
    var (tag, from) := ReadU8(bytes, at).value;
    if tag == 1 {
      StrWritten(bytes, from);
      var (value, next) := ReadStr(bytes, from).value;
      StandsJoin(bytes, at, [1], from, PutStr(value), next);
    } else if tag == 2 {
      StrWritten(bytes, from);
      var (status, mid) := ReadStr(bytes, from).value;
      StrWritten(bytes, mid);
      var (message, next) := ReadStr(bytes, mid).value;
      StandsJoin(bytes, from, PutStr(status), mid, PutStr(message), next);
      StandsJoin(bytes, at, [2], from, PutStr(status) + PutStr(message), next);
    }
  }

  lemma {:induction false} CallWritten(bytes: Bytes, at: nat)
    ensures ReadCall(bytes, at).Ok? ==>
              var ((func, args), next) := ReadCall(bytes, at).value;
              FitsStr(func) && FitsStrs(args) && Stands(bytes, at, PutStr(func) + PutStrs(args), next)
    ensures ReadReturn(bytes, at).Ok? ==>
              var ((func, outcome), next) := ReadReturn(bytes, at).value;
              FitsStr(func) && FitsOutcome(outcome) && Stands(bytes, at, PutStr(func) + PutOutcome(outcome), next)
  {
    hide ReadStr, ReadStrs, ReadOutcome, FitsStr, FitsStrs, FitsOutcome, PutStr, PutStrs, PutOutcome, Stands;
    if ReadStr(bytes, at).Ok? {
      StrWritten(bytes, at);
      var (func, mid) := ReadStr(bytes, at).value;
      if ReadStrs(bytes, mid).Ok? {
        StrsWritten(bytes, mid);
        var (args, next) := ReadStrs(bytes, mid).value;
        StandsJoin(bytes, at, PutStr(func), mid, PutStrs(args), next);
      }
      if ReadOutcome(bytes, mid).Ok? {
        OutcomeWritten(bytes, mid);
        var (outcome, next) := ReadOutcome(bytes, mid).value;
        StandsJoin(bytes, at, PutStr(func), mid, PutOutcome(outcome), next);
      }
    }
  }

  lemma {:induction false} ExportWritten(bytes: Bytes, at: nat)
    requires ReadEvent(bytes, at).Ok? && ReadU8(bytes, at).value.0 < 2
    ensures var (event, next) := ReadEvent(bytes, at).value;
            FitsEvent(event) && Stands(bytes, at, PutEvent(event), next)
  {
    hide ReadU8, ReadStr, ReadCall, ReadReturn, FitsStr, FitsStrs, FitsOutcome, PutStr, PutStrs, PutOutcome, Stands;
    U8Written(bytes, at);
    var (tag, from) := ReadU8(bytes, at).value;
    CallWritten(bytes, from);
    if tag == 0 {
      var ((func, args), next) := ReadCall(bytes, from).value;
      StandsJoin(bytes, at, [0], from, PutStr(func) + PutStrs(args), next);
    } else {
      var ((func, outcome), next) := ReadReturn(bytes, from).value;
      StandsJoin(bytes, at, [1], from, PutStr(func) + PutOutcome(outcome), next);
    }
  }

  lemma {:induction false} ImportWritten(bytes: Bytes, at: nat)
    requires ReadEvent(bytes, at).Ok? && 2 <= ReadU8(bytes, at).value.0
    ensures var (event, next) := ReadEvent(bytes, at).value;
            FitsEvent(event) && Stands(bytes, at, PutEvent(event), next)
  {
    hide ReadU8, ReadStr, ReadCall, ReadReturn, FitsStr, FitsStrs, FitsOutcome, PutStr, PutStrs, PutOutcome, Stands;
    U8Written(bytes, at);
    var (tag, from) := ReadU8(bytes, at).value;
    StrWritten(bytes, from);
    var (interface, mid) := ReadStr(bytes, from).value;
    CallWritten(bytes, mid);
    if tag == 2 {
      var ((func, args), next) := ReadCall(bytes, mid).value;
      var tail := PutStr(func) + PutStrs(args);
      StandsJoin(bytes, from, PutStr(interface), mid, tail, next);
      StandsJoin(bytes, at, [2], from, PutStr(interface) + tail, next);
    } else {
      var ((func, outcome), next) := ReadReturn(bytes, mid).value;
      var tail := PutStr(func) + PutOutcome(outcome);
      StandsJoin(bytes, from, PutStr(interface), mid, tail, next);
      StandsJoin(bytes, at, [3], from, PutStr(interface) + tail, next);
    }
  }

  lemma {:induction false} EventsWritten(bytes: Bytes, at: nat, count: nat)
    requires at <= |bytes| && ReadEvents(bytes, at, count).Ok?
    ensures var (events, next) := ReadEvents(bytes, at, count).value;
            Stands(bytes, at, PutEvents(events), next) && forall i | 0 <= i < count :: FitsEvent(events[i])
    decreases count
  {
    hide ReadEvent, FitsEvent, PutEvent, ReadU8;
    if count > 0 {
      EventWritten(bytes, at);
      var (first, mid) := ReadEvent(bytes, at).value;
      EventsWritten(bytes, mid, count - 1);
      var (rest, next) := ReadEvents(bytes, mid, count - 1).value;
      assert ([first] + rest)[1..] == rest;
      StandsJoin(bytes, at, PutEvent(first), mid, PutEvents(rest), next);
    }
  }

  lemma {:induction false} EventWritten(bytes: Bytes, at: nat)
    requires ReadEvent(bytes, at).Ok?
    ensures var (event, next) := ReadEvent(bytes, at).value;
            FitsEvent(event) && Stands(bytes, at, PutEvent(event), next)
  {
    TagRead(bytes, at);
    hide ReadEvent, FitsEvent, PutEvent, ReadU8, Stands;
    if ReadU8(bytes, at).value.0 < 2 {
      ExportWritten(bytes, at);
    } else {
      ImportWritten(bytes, at);
    }
  }

  lemma {:induction false} TagRead(bytes: Bytes, at: nat)
    requires ReadEvent(bytes, at).Ok?
    ensures ReadU8(bytes, at).Ok?
  {
    hide ReadU8;
  }

  lemma {:induction false} HeaderWritten(bytes: Bytes, at: nat)
    requires ReadHeader(bytes, at).Ok?
    ensures var (header, next) := ReadHeader(bytes, at).value;
            FitsHeader(header) && Stands(bytes, at, PutHeader(header), next)
  {
    hide ReadStr, FitsStr, PutStr, Stands;
    StrWritten(bytes, at);
    var (sha256, a) := ReadStr(bytes, at).value;
    StrWritten(bytes, a);
    var (plugin, b) := ReadStr(bytes, a).value;
    StrWritten(bytes, b);
    var (manifest, next) := ReadStr(bytes, b).value;
    StandsJoin(bytes, a, PutStr(plugin), b, PutStr(manifest), next);
    StandsJoin(bytes, at, PutStr(sha256), a, PutStr(plugin) + PutStr(manifest), next);
  }

  /** Nothing is accepted but what encoding a trace gives: the very bytes, up to where reading stops. */
  lemma {:induction false} TraceWritten(bytes: Bytes)
    requires ReadTrace(bytes).Ok?
    ensures var (trace, next) := ReadTrace(bytes).value; Fits(trace) && Stands(bytes, 0, ToBytes(trace), next)
  {
    U32Written(bytes, 4);
    var (version, b) := ReadU32(bytes, 4).value;
    assert Stands(bytes, 0, MAGIC, 4) && version == FORMAT_VERSION;
    hide ReadU32, ReadHeader, ReadEvents, FitsHeader, FitsEvent, LittleEndian, PutHeader, PutEvents, Stands;
    HeaderWritten(bytes, b);
    var (header, c) := ReadHeader(bytes, b).value;
    U32Written(bytes, c);
    var (count, d) := ReadU32(bytes, c).value;
    assert d <= |bytes| by {
      StandsWithin(bytes, c, LittleEndian(count), d);
    }
    EventsWritten(bytes, d, count);
    var (events, next) := ReadEvents(bytes, d, count).value;
    StandsJoin(bytes, c, LittleEndian(count), d, PutEvents(events), next);
    var tail := LittleEndian(count) + PutEvents(events);
    StandsJoin(bytes, b, PutHeader(header), c, tail, next);
    StandsJoin(bytes, 4, LittleEndian(version), b, PutHeader(header) + tail, next);
    StandsJoin(bytes, 0, MAGIC, 4, LittleEndian(version) + (PutHeader(header) + tail), next);
  }

  lemma {:induction false} StandsWithin(bytes: Bytes, at: nat, part: Bytes, next: nat)
    requires Stands(bytes, at, part, next)
    ensures next <= |bytes|
  {
  }

  lemma {:induction false} DecodedFits(bytes: Bytes)
    requires FromBytes(bytes).Ok?
    ensures Fits(FromBytes(bytes).value)
  {
    hide ReadTrace, Fits, ToBytes;
    TraceWritten(bytes);
  }

  // ---------------------------------------------------------------------------------------------
  // The promises
  // ---------------------------------------------------------------------------------------------

  /** A trace survives encoding and decoding if and only if every length in it fits 32 bits. */
  lemma {:induction false} BinaryRoundTrip(trace: Trace)
    ensures FromBytes(ToBytes(trace)) == Ok(trace) <==> Fits(trace)
  {
    hide ReadTrace, ToBytes, Fits;
    var bytes := ToBytes(trace);
    if Fits(trace) {
      assert bytes[0..|bytes|] == bytes;
      TraceReads(bytes, trace);
    }
    if FromBytes(bytes) == Ok(trace) {
      DecodedFits(bytes);
    }
  }

  /** What follows an encoding is ignored, and what is missing from one is noticed. */
  lemma {:induction false} PrefixesRejected(trace: Trace, cut: nat, more: Bytes)
    requires Fits(trace) && cut < |ToBytes(trace)|
    ensures match FromBytes(ToBytes(trace)[..cut])
            case Err(EndsEarly(wanted, offset)) => offset <= cut < offset + wanted
            case _ => false
    ensures FromBytes(ToBytes(trace) + more) == Ok(trace)
  {
    hide ReadTrace, ToBytes, Fits;
    var bytes := ToBytes(trace);
    assert bytes[0..|bytes|] == bytes;
    TraceReads(bytes, trace);
    TraceStable(bytes, more);
    TraceStable(bytes[..cut], bytes[cut..]);
    assert bytes[..cut] + bytes[cut..] == bytes;
  }

  /**
    The bytes accepted, exactly: a decoder yields a trace when the trace fits and the bytes begin with
    its encoding, and only then. So the magic, the version and every tag are the written ones.
    */
  lemma {:induction false} AcceptsExactly(bytes: Bytes, trace: Trace)
    ensures FromBytes(bytes) == Ok(trace) <==> Fits(trace) && ToBytes(trace) <= bytes
  {
    hide ReadTrace, ToBytes, Fits;
    if FromBytes(bytes) == Ok(trace) {
      TraceWritten(bytes);
      assert bytes[0..|ToBytes(trace)|] == ToBytes(trace);
    }
    if Fits(trace) && ToBytes(trace) <= bytes {
      TraceReads(bytes, trace);
    }
  }

  /** So they open with the letters WTTR and a 1; and any other version is refused by its number. */
  lemma {:induction false} OpensWithVersionOne(bytes: Bytes, version: nat, rest: Bytes)
    requires version <= U32_MAX
    ensures FromBytes(bytes).Ok? ==> 8 <= |bytes| && bytes[..8] == [0x57, 0x54, 0x54, 0x52, 1, 0, 0, 0]
    ensures version != 1 ==>
              FromBytes([0x57, 0x54, 0x54, 0x52] + LittleEndian(version) + rest) == Err(WrongVersion(version))
  {
    hide ReadHeader, ReadEvents, PutHeader, PutEvents, FitsHeader, FitsEvent;
    if FromBytes(bytes).Ok? {
      var trace := FromBytes(bytes).value;
      AcceptsExactly(bytes, trace);
      assert ToBytes(trace)[..8] == MAGIC + LittleEndian(FORMAT_VERSION);
      assert bytes[..8] == ToBytes(trace)[..8];
    }
    var other := [0x57, 0x54, 0x54, 0x52] + LittleEndian(version) + rest;
    assert other[0..4] == MAGIC && other[4..8] == LittleEndian(version);
    U32Reads(other, 4, version);
  }

  lemma {:induction false} EventsUpTo(bytes: Bytes, at: nat, events: seq<Event>, n: nat, e: DecodeError)
    requires (forall i | 0 <= i < |events| :: FitsEvent(events[i])) && Holds(bytes, at, PutEvents(events))
    requires |events| < n && ReadEvent(bytes, at + |PutEvents(events)|) == Err(e)
    ensures ReadEvents(bytes, at, n) == Err(e)
    decreases |events|
  {
    hide PutEvent, ReadEvent, FitsEvent, Holds;
    if events != [] {
      HoldsSplit(bytes, at, PutEvent(events[0]), PutEvents(events[1..]));
      EventReads(bytes, at, events[0]);
      EventsUpTo(bytes, at + |PutEvent(events[0])|, events[1..], n - 1, e);
    }
  }

  lemma {:induction false} TraceUpTo(bytes: Bytes, trace: Trace, n: nat, e: DecodeError)
    requires FitsHeader(trace.header) && forall i | 0 <= i < |trace.events| :: FitsEvent(trace.events[i])
    requires |trace.events| < n <= U32_MAX && Holds(bytes, 0, Announcing(trace, n))
    requires ReadEvent(bytes, |Announcing(trace, n)|) == Err(e)
    ensures FromBytes(bytes) == Err(e)
  {
    hide LittleEndian, PutHeader, PutEvents, ReadU32, ReadHeader, ReadEvents, ReadEvent, FitsHeader, FitsEvent;
    var version, header := LittleEndian(FORMAT_VERSION), PutHeader(trace.header);
    var count, events := LittleEndian(n), PutEvents(trace.events);
    HoldsSplit(bytes, 0, MAGIC, version + (header + (count + events)));
    HoldsSplit(bytes, 4, version, header + (count + events));
    U32Reads(bytes, 4, FORMAT_VERSION);
    HoldsSplit(bytes, 8, header, count + events);
    HeaderReads(bytes, 8, trace.header);
    HoldsSplit(bytes, 8 + |header|, count, events);
    U32Reads(bytes, 8 + |header|, n);
    EventsUpTo(bytes, 12 + |header|, trace.events, n, e);
  }

  /** An encoding that announces `n` events, as far as those it has. */
  function Announcing(trace: Trace, n: nat): Bytes
    requires n <= U32_MAX
  {
    MAGIC + (LittleEndian(FORMAT_VERSION) + (PutHeader(trace.header) + (LittleEndian(n) + PutEvents(trace.events))))
  }

  /** An event or an outcome by a tag there is none for is refused by that tag, after however many good events. */
  lemma {:induction false} UnknownTagsRefused(trace: Trace, n: nat, func: string, tag: byte, rest: Bytes)
    requires Fits(trace) && |trace.events| < n <= U32_MAX && FitsStr(func)
    ensures 3 < tag ==> FromBytes(Announcing(trace, n) + ([tag] + rest)) == Err(UnknownEventTag(tag))
    ensures 2 < tag ==>
              FromBytes(Announcing(trace, n) + ([1] + (PutStr(func) + ([tag] + rest)))) == Err(UnknownOutcomeTag(tag))
  {
    hide Announcing, PutStr, ReadStr, ReadStrs, FitsStr, FitsEvent, FitsHeader, ReadU8;
    var front := Announcing(trace, n);
    var event, outcome := front + ([tag] + rest), front + ([1] + (PutStr(func) + ([tag] + rest)));
    assert Holds(event, 0, front) && Holds(outcome, 0, front);
    assert Holds(event, |front|, [tag]) && Holds(outcome, |front|, [1]);
    U8Reads(event, |front|, tag);
    U8Reads(outcome, |front|, 1);
    var at := |front| + 1 + |PutStr(func)|;
    assert Holds(outcome, |front| + 1, PutStr(func)) && Holds(outcome, at, [tag]);
    StrReads(outcome, |front| + 1, func);
    U8Reads(outcome, at, tag);
    hide Holds;
    if 3 < tag {
      TraceUpTo(event, trace, n, UnknownEventTag(tag));
    }
    if 2 < tag {
      TraceUpTo(outcome, trace, n, UnknownOutcomeTag(tag));
    }
  }
}
