/** One reader for both encodings: the first bytes tell them apart. */
module TraceDecoding {
  import opened Wrappers
  import opened Strings
  import opened Utf8
  import opened TraceModel
  import BinaryCodec
  import BinaryTheorems
  import TextCodec
  import TextTheorems

  datatype AnyError = Binary(binary: BinaryCodec.DecodeError) | NotUtf8 | Text(text: TextCodec.ParseError)

  predicate IsBinary(bytes: seq<byte>) {
    BinaryCodec.MAGIC <= bytes
  }

  function Decode(bytes: seq<byte>): Result<Trace, AnyError> {
    if IsBinary(bytes) then
      match BinaryCodec.FromBytes(bytes)
      case Ok(trace) => Ok(trace)
      case Err(e) => Err(Binary(e))
    else
      match DecodeString(bytes)
      case None => Err(NotUtf8)
      case Some(text) =>
        match TextCodec.FromText(text)
        case Ok(trace) => Ok(trace)
        case Err(e) => Err(Text(e))
  }

  lemma {:induction false} TextIsNotBinary(trace: Trace)
    ensures !IsBinary(EncodeString(TextCodec.ToText(trace)))
  {
    hide TextCodec.EventsLines, TextCodec.ManifestLines;
    var text := TextCodec.ToText(trace);
    assert text[0] == 'w';
    var bytes := EncodeString(text);
    assert Encode('w') == [0x77];
    assert bytes[0] == 0x77;
    assert BinaryCodec.MAGIC[0] == 0x57;
  }

  /** Each encoding is recognised, and reads back exactly the traces it can carry. */
  lemma {:induction false} EitherEncoding(trace: Trace)
    ensures Decode(BinaryCodec.ToBytes(trace)) == Ok(trace) <==> BinaryTheorems.Fits(trace)
    ensures Decode(EncodeString(TextCodec.ToText(trace))) == Ok(trace) <==> TextTheorems.WellFormed(trace)
  {
    hide BinaryCodec.FromBytes, TextCodec.FromText, TextCodec.ToText, BinaryTheorems.Fits, TextTheorems.WellFormed;
    assert BinaryCodec.MAGIC <= BinaryCodec.ToBytes(trace);
    BinaryTheorems.BinaryRoundTrip(trace);
    TextIsNotBinary(trace);
    DecodeEncode(TextCodec.ToText(trace));
    TextTheorems.TextRoundTrip(trace);
  }
}
