# watoots, modelled and proved

watoots is a sandboxed plugin host. It loads WebAssembly components, checks their imports against a
manifest, runs them under budgets, and can record every crossing between host and plugin as a trace
and replay it later. This project models the parts of it whose promises range over unbounded inputs
and runs, and proves them.

* **Record and replay.** `Recording.dfy` has a guest as an arbitrary deterministic transition system,
  the live runs it can have, and the recorder. `Replay.dfy` has the cursor and the replay loop.
  `ReplayTheorems.dfy` proves that recordings replay, `ReplayConverse.dfy` and `ReplayDrift.dfy` that
  its conditions are needed, `ReplaySoundness.dfy` says exactly what a faithful report means,
  `ReplayExactness.dfy` joins the two, and `ReplayReports.dfy` says what each divergence claims.
* **Trace encodings.** `Strings.dfy`, `TextCodec.dfy`, `TextMethods.dfy` and `TextTheorems.dfy` for the
  line-oriented one, `TextRefusals.dfy` for what it refuses and where, `BinaryCodec.dfy` and
  `BinaryTheorems.dfy` for the binary one, `TraceDecoding.dfy` for the reader that takes either.
  `Utf8.dfy` is UTF-8 and the validator one plugin carries.
* **Compiling.** `CompiledCache.dfy` is the bounded cache, `CompileProtocol.dfy` the coalescing of
  concurrent compiles as a state machine over atomic steps, `FlightTable.dfy` what it leaves behind,
  `Compiling.dfy` the same as one caller runs it.
* **Plugin lifetime.** `Imports.dfy` is the grant relation; `Lifecycle.dfy` is loading, calling and
  reloading with its audit trail; `LifecycleTheorems.dfy` is what every run keeps.
* **Typed values.** `ComponentTypes.dfy` and `Typecheck.dfy`; `Generator.dfy` for values made from
  bytes, `Making.dfy` for which value that is, `MakingTheorems.dfy` for the values that can be made,
  `Drawing.dfy` for which bytes and types end in a refusal, `Supported.dfy` for the check up front.
* **Accounting.** `Deadline.dfy` for the shared epoch deadline, `Profile.dfy` and `ProfileTheorems.dfy`
  for the profiler.
* **Byte-level plugins.** `Qoi.dfy`, `QoiTheorems.dfy` and `QoiDecoders.dfy` for the image decoder in
  three languages; `WaveReader.dfy`, `WaveTheorems.dfy` and `WaveEscapes.dfy` for the hand-written reader;
  `Asset.dfy` and `AssetTheorems.dfy` for the image pipeline.

Code that changes things in place is modelled in place, by classes and methods proved against
functions; the promises are lemmas about those functions. What lies outside (compiling, the guest,
the clock, signature verification, how a hook turns out) is a parameter, and every theorem holds for
all its values.

Where a promise turned out not to hold as written, the code was kept, a lemma gives the input, and the
exact condition is proved, for all inputs:

* an answer reaches the guest in replay as it did live if and only if its recording does not mislead
  (`ReplayTheorems.SameReply`): a recording without misleading answers replays (`RecordingsReplay`), and
  each misleading answer diverges for some guest (`ReplayConverse.MisleadingDiverges`, with inputs in
  `ExtraValuesDiverge`, `QuotedBudgetDiverges`, `NamedAfterBudgetDiverges`);
* among those, a recording replays if and only if the application registered its interfaces under the
  names the component imports (`ReplayDrift.FaithfulExactlyWhenServed`, `CompatibleVersionDiverges`);
* the flight table is empty when all work is over if and only if no two callers share a key
  (`FlightTable.EmptiesExactly`, `SharedKeyCanStay`);
* a type the fuzzer accepts up front is refused by some bytes if and only if drawing can come to a part
  the walk overlooks (`Supported.AcceptedCanBeRefused`, `DeepHandleAccepted`, `HandleUnderOptions`);
* an escape is read as UTF-8 if and only if its kept bits are a scalar value
  (`WaveTheorems.EscapesThatAreUtf8`, `BorrowedBytes`);
* a character literal is skipped if and only if its last byte is not one that skipping looks at, the
  very end of a text aside (`WaveTheorems.CharacterLiteralSkipped`, `CharacterLiteralIsNotSkipped`);
* the two size tests in 64 bits agree with the exact ones if and only if the wrapped count does not hit
  what is allowed (`AssetTheorems.CeilingTestExact`, `ValidateTestExact`, `WrappedSizePasses`).

`dafny verify dfyconfig.toml` checks the whole project with Dafny 4.11.

## Model

| member | source | states |
|---|---|---|
| Recording.Recorder.Encode | crates/trace/src/recorder.rs:87-98 | A value is written as its WAVE text; one that has none writes a placeholder and poisons the recording, and nothing else does. |
| Recording.Recorder.EncodeList | crates/trace/src/recorder.rs:100-102 | Arguments are written one for one, in order; the recording stays clean exactly when all of them have a spelling. |
| Recording.Recorder.EncodeResult | crates/trace/src/recorder.rs:104-117 | Of a result only the first value is written; of a failure its status name and message. |
| Recording.Recorder.OnEvent | crates/trace/src/recorder.rs:119-152 | Every crossing is appended, in the order it happened, and the poison flag is sticky. |
| Recording.Recorder.Finish | crates/trace/src/recorder.rs:47-56 | A trace is handed back exactly when nothing in it had to be invented. |
| Recording.Record | crates/trace/src/recorder.rs:119-153 | Recording a whole session (instantiation, then any number of export calls with their imports) yields the encoding of exactly its crossings, if and only if all of them can be spelled. |
| Replay.Cursor.SkipUnserved | crates/trace/src/replay.rs:94-117 | The cursor comes to rest on the first position that is not part of a `wasi:` import crossing. |
| Replay.Cursor.Expect | crates/trace/src/replay.rs:122-172 | The cursor answers an import from the trace, or records a divergence at its position, in every case of the source: trace over, another event, no answer recorded. |
| Replay.Cursor.CheckReturn | crates/trace/src/replay.rs:182-224 | An export result is judged by outcome and first value or status only; position plays no part. |
| Replay.Cursor.RunGuest | crates/trace/src/replay.rs:234-281 | The guest runs to its next return against the recorded answers; the loop over its imports refines the recursive specification. |
| Replay.RunReplay | crates/trace/src/replay.rs:291-380 | The whole replay: a wrong component refused, which is exactly a header that names a hash and another one; failed instantiation an error; then every recorded export call in order, arguments that do not reach the guest included, its return paired by name. |
| ReplayTheorems.SaidInError | crates/host/src/plugin.rs:1109-1113 | An error of a host function is taken for a spent transfer budget exactly when the plugin's name, the function's or the message says so. |
| ReplayTheorems.SaidInParseError | crates/host/src/wave.rs:40-43 | A parse error quotes the text: it says so exactly when the text does, or what is wrong with it. |
| ReplayTheorems.SameReply | crates/host/src/plugin.rs:1348-1376 | A recorded answer reaches the guest as the live one did if and only if its recording does not mislead. It does mislead when the text of the first value reads as an answer that was not given, or the other way round; and when both are traps, but only one of the two messages says that the transfer budget was spent. |
| ReplayTheorems.ExpectRecorded | crates/trace/src/replay.rs:122-172 | Asked for the import recorded where it stands, behind any `wasi:` crossings, the cursor answers with what was recorded and matches two events. |
| ReplayTheorems.DriveLive | crates/trace/src/replay.rs:234-281 | A stretch of any live run of any deterministic guest, replayed over its own recording, ends in the same guest state with no divergence. |
| ReplayTheorems.RecordingsReplay | crates/trace/src/replay.rs:291-380 | Completeness: for every guest and every recorded run in which no recorded answer misleads and every interface was registered under the name imported, failures and trapping answers included, replay reports no divergence and `matched` is the number of events that are not `wasi:` import events. |
| ReplayTheorems.RecordThenReplay | crates/trace/src/replay.rs:291-380 | The same through the code path: recorder, then cursor, on every session. |
| ReplayConverse.MisleadingDiverges | crates/trace/src/recorder.rs:104-117 | The condition of `RecordingsReplay` is needed: for every plugin name, declaration and registration, and every recorded answer that misleads or came from an interface of another name, there is a guest, and a recorded session with just that answer, whose replay diverges. |
| ReplayConverse.ExtraValuesDiverge | crates/trace/src/recorder.rs:104-117 | Such an answer: two values where one is declared are recorded as the first; live the call trapped, replayed it returns. |
| ReplayConverse.QuotedBudgetDiverges | crates/host/src/wave.rs:40-43 | Another: a value of another type whose text has the words of a spent budget. Live a plain trap, replayed a spent limit, because the parse error quotes it. |
| ReplayConverse.NamedAfterBudgetDiverges | crates/host/src/plugin.rs:1348-1353 | Another: any value of another type, for a plugin whose name has those words; the shim puts it before every error. |
| ReplayConverse.CompatibleVersionDiverges | crates/host/src/host.rs:796-800 | Another: an interface registered under a compatible version links, and is recorded under a name replay does not serve. |
| ReplayDrift.DriftDiverges | crates/trace/src/replay.rs:234-255 | Such a recording never replays faithfully, whatever the guest does. |
| ReplayDrift.FaithfulExactlyWhenServed | crates/trace/src/replay.rs:234-255 | Of all sessions of all guests in which no recorded answer misleads, exactly those replay faithfully whose application imports were all served under the names imported. |
| ReplaySoundness.DriveIsLive | crates/trace/src/replay.rs:234-281 | Replaying is running: what the guest does in a replay is a live run against the recorded answers. |
| ReplaySoundness.ExpectExact | crates/trace/src/replay.rs:122-172 | One import adds no divergence if and only if it is the next one recorded, arguments included. |
| ReplaySoundness.DriveExact | crates/trace/src/replay.rs:234-281 | A stretch adds no divergence if and only if the application imports made are a prefix of those recorded from there on, each with its recorded answer. |
| ReplaySoundness.CallExact | crates/trace/src/replay.rs:338-370 | One replayed export call adds no divergence if and only if its imports are a prefix of those recorded after it and its result agrees. |
| ReplaySoundness.CallsExact | crates/trace/src/replay.rs:338-370 | Over all recorded calls: no divergence if and only if every call made a prefix of its recorded imports and every result agrees; and what `matched` then counts. |
| ReplaySoundness.CallsAreLive | crates/trace/src/replay.rs:338-370 | Every logged call is one the guest made: a live run from where the call before it came to rest, against the recorded answers, ending in the logged result; or arguments that never reached it. |
| ReplaySoundness.FaithfulMeans | crates/trace/src/replay.rs:43-46 | Soundness, both ways, for every trace (hand-edited ones included) and every guest: the trace is of this component or names none; what `is_faithful` means, exactly; and that instantiation and all logged calls are one run of the guest against the recorded answers, each call starting where the one before came to rest. |
| ReplaySoundness.FaithfulAndFull | crates/trace/src/replay.rs:182-224 | On a well-bracketed trace a faithful replay made all recorded imports if and only if `matched` equals the number of served events. |
| ReplayExactness.RecordingsAreBracketed | crates/host/src/plugin.rs:902-961 | What call path and recorder write is always well bracketed. |
| ReplayExactness.RecordingsReplayInFull | crates/trace/src/replay.rs:291-380 | So a recorded run, replayed, makes every recorded import again, in instantiation and in each call. |
| ReplayExactness.FaithfulIsNotFull | crates/trace/src/replay.rs:43-46 | `is_faithful` alone does not say that: a guest that makes none of the recorded imports is reported faithful, with a smaller `matched`. |
| ReplayReports.ReportsAreJustified | crates/trace/src/replay.rs:122-224 | Every divergence reported, by any replay of any trace, is borne out by the recording at its position: the trace is over there, or holds that other event, or the import before it has no answer; a result or status that differs is one some call is recorded to have ended with, by the first return of its name after it. |
| CompiledCaches.InsertNew | crates/host/src/compile_cache.rs:42-57 | A new key goes to the end of the queue, in place of the oldest one when the cache holds 32. |
| CompiledCaches.InsertKeepsValid | crates/host/src/compile_cache.rs:42-57 | Insertion keeps the queue duplicate-free, equal to the map's keys and at most 32 long; the new entry is there and at most the oldest other one is gone. |
| CompiledCaches.Survives | crates/host/src/compile_cache.rs:42-57 | An entry outlives any run of insertions too short to push it off the queue. |
| CompiledCaches.CompiledCache.Insert | crates/host/src/compile_cache.rs:42-57 | The in-place insertion with its eviction loop does that. |
| CompileProtocol.StepLocks | crates/host/src/host.rs:600-607 | Every step keeps the locks right: whoever is inside a flight holds its lock, and a lock's holder is inside its flight. |
| CompileProtocol.RunInv | crates/host/src/host.rs:589-624 | The protocol's invariant holds under every schedule of any number of callers, failed builds and evictions included. |
| CompileProtocol.EveryCallerGetsItsOwn | crates/host/src/host.rs:589-624 | A caller that is done has the component for its own bytes, or a build of its key failed. |
| CompileProtocol.AtMostOneBuild | crates/host/src/host.rs:589-624 | A key with no failed build and no eviction is built at most once, whatever the interleaving. |
| CompileProtocol.DoneMeansStored | crates/host/src/host.rs:612-624 | A caller that is done and saw no failure leaves its key stored. |
| CompileProtocol.SomebodyCanMove | crates/host/src/host.rs:600-607 | No deadlock: while any caller is not done, one can move. |
| CompileProtocol.NeverStuck | crates/host/src/host.rs:589-624 | From wherever a schedule has led, all callers can still finish. |
| FlightTable.SharedKeyCanStay | crates/host/src/host.rs:171-175 | The comment that the flight table is empty whenever nothing builds does not hold: for any callers two of which share a key, a schedule after which all are done and the entry remains. |
| FlightTable.LeftExactly | crates/host/src/host.rs:600-624 | An entry can outlive all work if and only if two callers share its key. |
| FlightTable.EmptiesExactly | crates/host/src/host.rs:171-175 | When the comment does hold: under every schedule, with whatever failures and evictions, the table is empty once all work is over, if and only if no two callers ask for the same key. |
| Compiling.Compiler.Compile | crates/host/src/host.rs:589-624 | `compile` as one caller runs it, on the shared tables in place. |
| Compiling.CompileIsTheProtocol | crates/host/src/host.rs:589-624 | The method is the protocol with one caller: same tables, same builds, same component. |
| TextMethods.QuoteInto | crates/trace/src/text.rs:89-103 | The escaping loop computes the specified quoted form. |
| TextMethods.UnquoteFrom | crates/trace/src/text.rs:106-130 | The unescaping loop accepts and computes exactly what the specification does, errors included. |
| TextMethods.PushManifest | crates/trace/src/text.rs:18-67 | The manifest block, split at newlines and indented. |
| TextMethods.Print | crates/trace/src/text.rs:18-103 | The printer that pushes to a buffer produces the specified text. |
| TextMethods.TakeArgs | crates/trace/src/text.rs:250-286 | The cursor over the lines takes exactly the leading argument lines and stops on the first other one. |
| TextMethods.TakeStanza | crates/trace/src/text.rs:133-324 | One stanza: what it adds, how many lines it takes, or the error with its line number. |
| TextMethods.Parse | crates/trace/src/text.rs:133-324 | The parser that advances a line iterator accepts, rejects and computes exactly what the specification does. |
| TextTheorems.UnquoteQuote | crates/trace/src/text.rs:89-130 | Every string survives quoting; its quoted form fits on a line and has no outer white space. |
| TextTheorems.RoundTripStrips | crates/trace/src/text.rs:133-324 | For every trace whose parts fit their lines, printing and parsing gives it back without the carriage returns that ended values or manifest lines. |
| TextTheorems.AcceptedFits | crates/trace/src/text.rs:133-324 | Whatever is accepted fits: names without outer white space, interfaces and statuses that are single words, single-line values. |
| TextTheorems.TextRoundTrip | crates/trace/src/text.rs:18-324 | `from_text(to_text(t)) == t` if and only if the trace is well-formed, over all event lists, arguments, messages and manifests. |
| TextTheorems.PrintAfterParse | crates/trace/src/text.rs:18-324 | Print after parse is canonical on accepted texts, always so without carriage returns. |
| TextRefusals.VersionsExactly | crates/trace/src/text.rs:137-152 | Which first lines are versions: the magic and a decimal numeral, with the plus sign, leading zeros and outer space its reader allows. Of 1 it is accepted, of any other number that fits 32 bits refused as that version; and of nothing else. |
| TextRefusals.OnlyVersionOne | crates/trace/src/text.rs:137-152 | So of whole texts: accepted ones open with version 1, other versions are refused by their number, and texts without the magic are no traces. |
| TextRefusals.ReadsOn | crates/trace/src/text.rs:154-324 | Reading is one pass: what an accepted text adds, and how lines after it are read and numbered, does not depend on each other. |
| TextRefusals.ErrorLine | crates/trace/src/text.rs:154-324 | The line an error names is the first that is too much: the lines before it are accepted, and with it they are not. |
| TextRefusals.HeadsRefused | crates/trace/src/text.rs:154-324 | First lines of stanzas that are refused, with the error and its line: an unknown keyword, a component without its hash prefix, an import without its function, a return without outcome. |
| TextRefusals.OutcomesRefused | crates/trace/src/text.rs:288-324 | Outcome lines that are refused: an unknown keyword, an error without a status. |
| TextRefusals.ArgLinesExactly | crates/trace/src/text.rs:272-281 | Which lines carry an argument: the keyword `arg`, indented anyhow, alone or with one space before a value, which keeps its own spaces. |
| TextRefusals.RefusedAfter | crates/trace/src/text.rs:154-324 | And so after any accepted text, under its own line number. |
| TextRefusals.EscapesRefused | crates/trace/src/text.rs:106-130 | A backslash before any character but the five that are escaped is refused by that character, after whatever went before; at the end it is refused as well. |
| BinaryCodec.Reader.TakeBytes | crates/trace/src/binary.rs:108-122 | Taking past the end is an error that says how much was wanted and where; otherwise the bytes, and the offset moves by them. |
| BinaryCodec.Reader.Str | crates/trace/src/binary.rs:133-137 | A length-prefixed string, rejected when it is not UTF-8. |
| BinaryCodec.Reader.AnEvent | crates/trace/src/binary.rs:158-203 | One event by its tag; an unknown tag is named. |
| BinaryCodec.Decode | crates/trace/src/binary.rs:158-203 | The advancing reader computes the specified decoding of every byte string. |
| BinaryTheorems.DecodedFits | crates/trace/src/binary.rs:158-203 | Whatever decodes has only lengths that fit 32 bits. |
| BinaryTheorems.BinaryRoundTrip | crates/trace/src/binary.rs:23-203 | `from_bytes(to_bytes(t)) == t` if and only if every length in the trace fits 32 bits. |
| BinaryTheorems.PrefixesRejected | crates/trace/src/binary.rs:108-203 | Every strict prefix of an encoding is rejected as ending early, with an offset that is there and a count that would go past the end; bytes after an encoding are ignored. |
| BinaryTheorems.AcceptsExactly | crates/trace/src/binary.rs:158-203 | `from_bytes(b) == t` if and only if the lengths of t fit and b begins with its encoding: no other bytes decode, to t or to anything. |
| BinaryTheorems.OpensWithVersionOne | crates/trace/src/binary.rs:158-170 | What decodes opens with the letters WTTR and a 32-bit 1; any other version is refused by its number. |
| BinaryTheorems.UnknownTagsRefused | crates/trace/src/binary.rs:139-203 | An event or outcome with a tag there is none for is refused by that tag, after however many good events. |
| TraceDecoding.TextIsNotBinary | crates/trace/src/binary.rs:17-19 | No printed trace is taken for a binary one. |
| TraceDecoding.EitherEncoding | crates/trace/src/lib.rs:63-70 | `decode` recognises each encoding and returns the same trace from either, exactly for the traces each can carry. |
| Utf8.DecodeEncode | examples/plugins/cpp-asset/asset.cc:606-647 | Decoding gives back every string that was encoded (section 3 of RFC 3629). |
| Utf8.EncodeDecode | examples/plugins/cpp-asset/asset.cc:606-647 | And accepts nothing else: what decodes was encoded, so no overlong form, surrogate or code point past U+10FFFF. |
| Utf8.EncodeInjective | examples/plugins/cpp-asset/asset.cc:606-647 | No two strings have the same bytes. |
| Utf8.TakeOne | examples/plugins/cpp-asset/asset.cc:606-645 | One turn of the validator's cursor loop finds exactly the well-formed characters and their lengths. |
| Utf8.IsUtf8 | examples/plugins/cpp-asset/asset.cc:606-647 | The validator accepts exactly the byte strings that encode some string of Unicode scalar values. |
| QoiTheorems.ParseSerialized | examples/plugins/cpp-qoi/qoi.cc:141-196 | Each chunk kind reads back as itself (QOI specification 1.0). |
| QoiTheorems.SerializeParsed | examples/plugins/cpp-qoi/qoi.cc:141-196 | Whatever chunk is read, the bytes read are its serialisation: the reading has no other inverse. |
| QoiTheorems.DecodesToMeaning | examples/plugins/cpp-qoi/qoi.cc:81-212 | Every chunk sequence that covers the image decodes, from its serialisation, to exactly the pixels its chunks mean. |
| QoiTheorems.DecodedWasSerialized | examples/plugins/cpp-qoi/qoi.cc:81-212 | Success means exactly width * height * 4 bytes, and that the file carries a chunk sequence that means them. |
| QoiTheorems.Slots | examples/plugins/cpp-qoi/qoi.cc:71 | Which slot of the index a pixel has: slot 0 for all zeros, and 3, 5, 7 or 11 further, around 64, for each step of red, green, blue or alpha. |
| QoiTheorems.LookingBack | examples/plugins/cpp-qoi/qoi.cc:141-196 | After any pixels, an index chunk stands for the last one seen in its slot, transparent black if none was, and a run for the last one seen at all, opaque black before any. |
| QoiTheorems.IndexBringsBack | examples/plugins/cpp-qoi/qoi.cc:141-196 | So a pixel comes back by its slot, whatever was seen before it, as long as no other pixel of that slot has been seen since. |
| QoiDecoders.EmitRun | examples/plugins/cpp-qoi/qoi.cc:186-191 | A run stops at the end of the buffer, never past it. |
| QoiDecoders.ReadChunkCpp | examples/plugins/cpp-qoi/qoi.cc:141-196 | In wrapping 8-bit arithmetic, step by step, the specified pixel. |
| QoiDecoders.OverflowCheck | examples/plugins/cpp-qoi/qoi.cc:107-112 | The size test in 64-bit arithmetic is exact. |
| QoiDecoders.HashCpp | examples/plugins/cpp-qoi/qoi.cc:71 | The C++ decoder's own hash is the specified one. |
| QoiDecoders.BodyCpp | examples/plugins/cpp-qoi/qoi.cc:121-198 | The decode loop over pixel buffer and index array terminates, stays inside both, and computes the specified pixels or failure. |
| QoiDecoders.DecodeCpp | examples/plugins/cpp-qoi/qoi.cc:81-212 | The C++ decoder computes `DecodeFile` on every input. |
| QoiDecoders.HashJs | examples/plugins/js-qoi/qoi.js:47 | So is the JavaScript one. |
| QoiDecoders.RememberJs | examples/plugins/js-qoi/qoi.js:98-104 | The flat index array keeps standing for the index of pixels. |
| QoiDecoders.ReadChunkJs | examples/plugins/js-qoi/qoi.js:110-157 | Number arithmetic masked once at the end gives the same pixel as wrapping at every step. |
| QoiDecoders.DecodeJs | examples/plugins/js-qoi/qoi.js:57-169 | The JavaScript decoder computes `DecodeFile` on every input, its size test rounding to doubles included. |
| QoiDecoders.HashPy | examples/plugins/py-qoi/app.py:35-36 | And the Python one. |
| QoiDecoders.DecodePy | examples/plugins/py-qoi/app.py:48-126 | The Python decoder computes `DecodeFile` on every input. |
| QoiDecoders.DecodeWithAll | examples/plugins/cpp-qoi/qoi.cc:81-212 | On every input the three decoders agree: same image, or same failure and same count. |
| ComponentTypes.CaseNamed | crates/host/src/typecheck.rs:171-183 | Looking a case up finds the first of that name, or none. |
| Typecheck.FitsByParts | crates/host/src/typecheck.rs:90-230 | A value inhabits its type exactly when it departs from it neither here nor in any part. |
| Typecheck.ConformsExactly | crates/host/src/typecheck.rs:90-230 | `conforms` succeeds if and only if the value inhabits the type; its mismatch is the one first disagreement, everything before it at every level being fine. |
| Typecheck.FirstIsUnique | crates/host/src/typecheck.rs:84-87 | There is only one first disagreement, so path and fault are determined. |
| Typecheck.CheckArgsExactly | crates/host/src/typecheck.rs:24-56 | `check_args` passes exactly the lists that fit; otherwise it names the count, or the smallest offending argument and its first disagreement. |
| Making.Cast | crates/host/src/fuzz.rs:192-199 | A cast keeps the low bits and lands in the width's range. |
| Making.EveryCharacterIsDrawn | crates/host/src/fuzz.rs:374-385 | The fold loses nothing: every character is drawn by some bytes. |
| MakingTheorems.MadeExactly | crates/host/src/fuzz.rs:190-392 | The values some bytes make of a type, at every depth and cap: exactly those of the type that nest and count within them, with no case or element past what one byte can choose. Every integer of every width, every float bit pattern and character, every flag set, both sides of a result, every text of the table and every other up to the cap, or to what a byte counts, are among them. |
| MakingTheorems.ReachableIsGood | crates/host/src/fuzz.rs:190-299 | All of them inhabit the type, have a WAVE spelling and keep to the depth and the cap, given that the cases of a variant have names of their own. |
| MakingTheorems.SpentMakesSimplest | crates/host/src/fuzz.rs:120-125 | From a spent buffer the value is the simplest there is: zeros, nothing in lists, options `none`, first cases and ok sides. |
| MakingTheorems.EdgesInTwoBytes | crates/host/src/fuzz.rs:109-118 | One table covers both edges of every width: two bytes draw the least and the greatest integer of each, signed or not, and no more are used. |
| Generators.Generator.Raw | crates/host/src/fuzz.rs:341-347 | The next bytes, least significant first, zero past the end. |
| Generators.Generator.Character | crates/host/src/fuzz.rs:374-385 | Which character the bytes give: the table's, or four bytes little-endian, folded when that is a surrogate or past the last character; and what it costs. |
| Generators.Generator.Repeat | crates/host/src/fuzz.rs:301-307 | As many values as asked for, each drawn where the one before ended, or the refusal of one of them. |
| Generators.Generator.ValueAt | crates/host/src/fuzz.rs:190-299 | On every buffer, from every offset, the value `Making.Draw` says, ending where `Drawing.End` says; refused exactly when `Drawing.End` says, and then on a type that cannot be spelled or has no cases. |
| Generators.Generator.Value | crates/host/src/fuzz.rs:180-183 | So whatever the bytes the value is within reach of its type, depth and cap, inhabits the type and has a WAVE spelling; a refusal means the type can be refused; and a spent buffer gives the simplest value. |
| Generators.Generator.Values | crates/host/src/fuzz.rs:186-188 | An argument list is drawn value after value, like the parts of a tuple, and passes `check_args`. |
| Drawing.OnlyWhenItCan | crates/host/src/fuzz.rs:190-355 | No bytes lead to a refusal of a type in which drawing comes to no bad part at this depth and cap. |
| Drawing.RefusesExactly | crates/host/src/fuzz.rs:190-355 | Some bytes make the generator refuse the type if and only if, at this depth and cap, drawing can come to a part that has no spelling or no cases. |
| Supported.RefusableHasBadPart | crates/host/src/fuzz.rs:190-355 | The types that can be refused are those with an unspellable or uninhabited part that drawing can come to: past no option or list at the floor, no list under a cap of none, no empty fixed-length list and no case after the 256th. |
| Supported.SupportedExactly | crates/host/src/fuzz.rs:407-452 | `supported_one` accepts exactly the types with no unspellable part in the levels it looks at. |
| Supported.AcceptedCanBeRefused | crates/host/src/fuzz.rs:400-452 | For every depth and cap, some bytes make the generator refuse a type `supported` accepts if and only if drawing can come to an unspellable part four or more levels down, or to a choice without cases. |
| Supported.HandleUnderOptions | crates/host/src/fuzz.rs:266-274 | How deep a handle lies does not tell by itself: under n options it is overlooked from four on, and refused by some bytes exactly when the generator goes n deep. |
| Supported.DeepHandleAccepted | crates/host/src/fuzz.rs:407-410 | Such a type: a handle under four tuples, accepted up front although no value of it can be spelled. |
| Imports.UnversionedParses | crates/host/src/imports.rs:32-58 | Dropping the version keeps the interface, for every name that parses. |
| Imports.VersionedParses | crates/host/src/imports.rs:32-58 | A version is read back as written, and changes nothing else. |
| Imports.ParsesExactly | crates/host/src/imports.rs:32-58 | Which strings name which interface, in which version: exactly the ones put together from parts that are not empty and hold no delimiter of their own. |
| Imports.VersionsDoNotMatter | crates/host/src/imports.rs:154-232 | Two versions of one interface are classified alike. |
| Imports.DecidedByName | crates/host/src/imports.rs:154-232 | What is let in, by name: an interface without functions, one the application serves, and of the callable others exactly `wasi:io/`, exit, standard streams and terminal always; `wasi:filesystem/` with a directory; `wasi:sockets/` and `wasi:http/` with the network; `wasi:random/`, `wasi:cli/environment` and `wasi:logging/logging` each with its own permission; the monotonic clock with either clock setting; wall clock, system clock and timezone with `wall`. Every other name never. |
| Imports.WiderManifest | crates/host/src/imports.rs:531-575 | What loads under a manifest loads under every wider one: the grant relation is monotone. |
| Imports.DeniedByDefault | crates/host/src/imports.rs:551-575 | Without a grant exactly the served and the ambient interfaces are let in; `clocks = "monotonic"` adds `wasi:clocks/monotonic-clock` and nothing else. |
| Lifecycle.Host.InstantiatePlugin | crates/host/src/host.rs:435-554 | Building a plugin: which check fails first, what is said about it and in what order, and the plugin built when none does. |
| Lifecycle.Plugin.Call | crates/host/src/plugin.rs:902-961 | An error before the guest is entered leaves the totals alone; any other call, trapped ones included, settles them. |
| Lifecycle.Plugin.SaveState | crates/host/src/plugin.rs:707-735 | No hook, a hook of the wrong shape, and a hook that is called. |
| Lifecycle.Plugin.RestoreState | crates/host/src/plugin.rs:739-773 | The same, and a state of another type refused before the call. |
| Lifecycle.Plugin.ReloadWith | crates/host/src/plugin.rs:627-683 | The reload in place: whole new state, result and audit events, for every way each step can turn out. |
| LifecycleTheorems.BuiltVouched | crates/host/src/host.rs:435-577 | Whatever is built has every import let in by its name (`Imports.DecidedByName`) and, where keys are configured, bytes that verify. |
| LifecycleTheorems.BuildsExactly | crates/host/src/host.rs:435-577 | A build succeeds if and only if the bytes are trusted, compile, ask only for what is let in, and the manifest expands and the component instantiates; the first of these that fails is the error, so bytes that do not verify are not even compiled. `loaded unverified` is said exactly when code runs without any key configured. |
| LifecycleTheorems.RefusedByName | crates/host/src/host.rs:486-512 | Code that verifies and compiles is refused for its imports if and only if one of them is not let in, and the refusal lists exactly the names of those. |
| LifecycleTheorems.DecisionsSaid | crates/host/src/host.rs:480-492 | Before any verdict on code that verifies and compiles, each of its imports is said to be let in or not, by name and in the order declared. |
| LifecycleTheorems.CulpritIsFirst | crates/host/src/host.rs:486-512 | The import a verdict names is the first one, in the order declared, that is not let in. |
| LifecycleTheorems.CallKeepsCode | crates/host/src/plugin.rs:877-961 | A call keeps the code and the reload count and only raises totals and peak, trapped or not; it counts as one call exactly when it was entered, and otherwise changes nothing. |
| LifecycleTheorems.TakeoverGrows | crates/host/src/plugin.rs:781-795 | A replacement that takes over is one reload on, with no total and no peak below what it was, and keeps its own code. |
| LifecycleTheorems.ReloadReplacesOrKeeps | crates/host/src/plugin.rs:627-683 | A reload runs the new bytes, fully checked and one reload on; or keeps name, code, grants and reload count. Totals never fall either way. |
| LifecycleTheorems.RefusedReplacementTouchesNothing | crates/host/src/plugin.rs:633-647 | A replacement that cannot be built leaves even the totals as they were. |
| LifecycleTheorems.ReloadCountsItsCalls | crates/host/src/plugin.rs:707-795 | A reload that succeeds adds to `calls` exactly the hooks it called; one that restored a state had hooks of one state type. |
| LifecycleTheorems.ReloadSucceedsExactly | crates/host/src/plugin.rs:627-683 | A reload succeeds if and only if the replacement can be built, the outgoing code gives up its state or has no hook, and the replacement takes a state of that very type or has no hook for one. |
| LifecycleTheorems.OtherTypesStayOut | crates/host/src/plugin.rs:761-770 | A state of another type never reaches the replacement: the reload fails with that reason, and all that has happened is the call of the outgoing hook. |
| LifecycleTheorems.ReloadAddsUp | crates/host/src/plugin.rs:781-795 | What a reload adds to calls, fuel, messages, bytes and peak: the outgoing hook's call in any case, the replacement's start and hook once it has taken over. |
| LifecycleTheorems.RunVouched | crates/host/src/plugin.rs:627-683 | In every run of loads, calls and reloads every running plugin has granted imports and verified bytes. |
| LifecycleTheorems.RunTotals | crates/host/src/plugin.rs:781-795 | In every run a plugin keeps its name, its totals and peak never fall, and `reloads` counts exactly the successful reloads. |
| LifecycleTheorems.RunAddsUp | crates/host/src/plugin.rs:781-961 | Over any run a plugin's totals are exactly what its calls and hooks have cost, and its peak the highest of theirs: nothing is lost in a reload and nothing counted twice. |
| LifecycleTheorems.BuildVerdict | crates/host/src/host.rs:450-554 | Building says one verdict when it refuses, naming the first denied import when that is why, and one when it loads. |
| LifecycleTheorems.ReloadVerdict | crates/host/src/plugin.rs:627-699 | A reload says exactly one verdict, and it is what happened. |
| LifecycleTheorems.RunVerdicts | crates/host/src/host.rs:450-554 | With a hook installed the trail holds exactly one verdict for every load and reload attempted. |
| LifecycleTheorems.EveryRun | crates/host/src/host.rs:435-577 | All of that from a host that has loaded nothing; without a hook the trail stays empty. |
| Deadlines.EpochTicks | crates/host/src/epoch.rs:25-30 | Ticks are rounded up, at least one and at most 64 bits. |
| Deadlines.Deadline.Next | crates/host/src/profile.rs:215-229 | The next slice in place. |
| Deadlines.Deadline.Rearm | crates/host/src/profile.rs:206-212 | A new call gets its first slice from the whole budget, whatever the call before left. |
| Deadlines.SamplingDoesNotMoveTheInterrupt | crates/host/src/profile.rs:187-229 | The slices of a call are each at most the interval, number ceil(budget / interval), add up to the budget exactly, and then stop; without sampling there is one. |
| Deadlines.ManifestTimeouts | crates/host/src/epoch.rs:25-30 | So for every timeout and sampling interval a manifest can ask for, bound, count, sum and stop alike; and the sum is the timeout, rounded up by less than a tick. |
| Deadlines.NoTimeoutNeverStops | crates/host/src/profile.rs:207-212 | Without a timeout sampling goes on for ever, an interval at a time. |
| Deadlines.NoIntervalNeverStops | crates/host/src/profile.rs:215-229 | An interval of no ticks would never draw the budget down, which is why `epoch_ticks` rounds up to one. |
| Profiles.ProfileState.OnCallHook | crates/host/src/profile.rs:292-329 | One transition of the window counters, in place. |
| Profiles.ProfileState.Finish | crates/host/src/profile.rs:367-388 | The call folded into total and row, and its windows dropped. |
| ProfileTheorems.CallsConserve | crates/host/src/profile.rs:42-66 | After any number of calls, whatever hooks fired under a monotone clock, guest + host + WAVE + marshalling is wall, in the total and in every row, and the total is the sum of the rows. |
| ProfileTheorems.ImportsWithinHost | crates/host/src/profile.rs:318-328 | From the first call on the import rows together never exceed the host bucket. |
| ProfileTheorems.ProfileConserves | crates/host/src/profile.rs:292-388 | From a profile that has seen nothing, after any calls: all of that at once. |
| ProfileTheorems.BucketsMeanWhatTheySay | crates/host/src/profile.rs:292-388 | For nested windows each bucket grows by exactly the time it is named for, and the remainder by the time no window was open. |
| ProfileTheorems.ImportRowsMeanWhatTheySay | crates/host/src/profile.rs:310-342 | For nested windows each import row grows by exactly the host windows that named that import last, one call and its length each; and all windows together, those that named none included, are the host bucket. |
| ProfileTheorems.ExportRowsMeanWhatTheySay | crates/host/src/profile.rs:353-388 | And the row of the export called grows by exactly what the total does, in every bucket; every other row stays. |
| WaveReaders.Quote | examples/common/wave_reader.hpp:39-64 | The quoting loop computes the specified form. |
| WaveReaders.WaveReader.Text | examples/common/wave_reader.hpp:182-199 | Reading a quoted string, escapes resolved, or failing for good. |
| WaveReaders.WaveReader.Number64 | examples/common/wave_reader.hpp:160-179 | Accepts exactly the digit runs whose value fits 64 bits, and returns that value. |
| WaveReaders.WaveReader.SkipValue | examples/common/wave_reader.hpp:206-231 | The depth-counting loop computes the specified stopping point. |
| WaveTheorems.QuotedOnOneLine | examples/common/wave_reader.hpp:39-64 | A quoted string is on one line, whatever it quotes: no newline, tab or carriage return is left in it. |
| WaveTheorems.TextReadsQuoted | examples/common/wave_reader.hpp:182-199 | Whatever the bytes and whatever follows, a quoted string is read back as it was. |
| WaveTheorems.QuoteThenText | examples/common/wave_reader.hpp:39-199 | The same through the code: quote, then read. |
| WaveTheorems.SkipStopsAtDelimiter | examples/common/wave_reader.hpp:206-231 | Skipping any printed value, however nested, stops exactly at the delimiter that follows it. |
| WaveTheorems.CharacterLiteralSkipped | examples/common/wave_reader.hpp:206-231 | Which character literals are skipped up to their delimiter: exactly those whose last byte is no quote, comma or bracket; or an opening bracket at the very end of a text. |
| WaveTheorems.CodePointLiteralSkipped | examples/common/wave_reader.hpp:206-231 | A code point escape in one always is: its brackets come in pairs. |
| WaveTheorems.CharacterLiteralIsNotSkipped | examples/common/wave_reader.hpp:206-231 | So a character literal of an opening bracket, which the worlds in question do not have, is misread wherever anything follows it. |
| WaveTheorems.ScalarsEncode | examples/common/wave_reader.hpp:315-336 | `Utf8` produces the UTF-8 encoding of every scalar value. |
| WaveTheorems.EscapesThatAreUtf8 | examples/common/wave_reader.hpp:315-336 | For four-byte escapes: the bytes are one UTF-8 character exactly when the 22 bits they keep are a scalar value, and then that one. |
| WaveTheorems.LowEscapesThatAreUtf8 | examples/common/wave_reader.hpp:315-336 | For shorter ones: exactly when the code point is no surrogate. |
| WaveTheorems.DistinctScalars | examples/common/wave_reader.hpp:315-336 | No two scalar values share their bytes. |
| WaveTheorems.BorrowedBytes | examples/common/wave_reader.hpp:284-336 | Past the last scalar value an escape can produce the bytes of another one. |
| WaveEscapes.CodePointsReadBack | examples/common/wave_reader.hpp:284-312 | A code point escape of up to six digits, in either case and with leading zeros, is read as the UTF-8 of the number they spell. |
| WaveEscapes.OnlySpelledOnes | examples/common/wave_reader.hpp:284-312 | And nothing else is: what is read spells the number read, up to a closing brace or the end of the text. |
| WaveEscapes.EscapedCharacterReads | examples/common/wave_reader.hpp:182-336 | So every character, escaped by its number in a quoted string, is read as its UTF-8. |
| Assets.GrayscaleInPlace | examples/plugins/cpp-asset/asset.cc:289-301 | The in-place loop computes the specified luma, pixel by pixel. |
| Assets.InvertInPlace | examples/plugins/cpp-asset/asset.cc:304-309 | The in-place loop inverts every byte. |
| Assets.GainInPlace | examples/plugins/cpp-asset/asset.cc:330-369 | One channel of every whole pixel is scaled by the clamped factor, rounded half up and capped; nothing else changes. |
| Assets.LutInPlace | examples/plugins/cpp-asset/asset.cc:751-769 | Each channel is looked up in its own column. |
| Assets.ResizeRow | examples/plugins/cpp-asset/asset.cc:428-438 | One row of the copy loop: every source index read is in bounds. |
| Assets.SourceWithin | examples/plugins/cpp-asset/asset.cc:428-438 | The sampled source byte is inside the source for every coordinate, and is the same byte when the sizes agree. |
| Assets.ByteCopied | examples/plugins/cpp-asset/asset.cc:384-444 | The nearest-neighbour formula at every coordinate and channel. |
| Assets.Image.ResizeTo | examples/plugins/cpp-asset/asset.cc:384-444 | Resizing swaps the buffer: empty sizes, no source pixels and the ceiling included. |
| Assets.Image.Validate | examples/plugins/cpp-asset/asset.cc:778-790 | The buffer passes exactly when its length is what 64 bits keep of width * height * 3. |
| Assets.ApplySteps | examples/plugins/cpp-asset/asset.cc:847-886 | The steps in order, stopping at the first that fails; no partly transformed picture escapes. |
| AssetTheorems.GrayscaleIdempotent | examples/plugins/cpp-asset/asset.cc:289-301 | Graying twice is graying once. |
| AssetTheorems.InvertInvolution | examples/plugins/cpp-asset/asset.cc:304-309 | Inverting twice changes nothing. |
| AssetTheorems.ResizeIdentity | examples/plugins/cpp-asset/asset.cc:384-444 | Resizing to the same non-zero size changes nothing. |
| AssetTheorems.InvertCommutesWithResize | examples/plugins/cpp-asset/asset.cc:384-444 | Inverting before or after a resize is the same. |
| AssetTheorems.GrayscaleCommutesWithResize | examples/plugins/cpp-asset/asset.cc:384-444 | So is graying. |
| AssetTheorems.GrayscaleStep | examples/plugins/cpp-asset/asset.cc:289-301 | A grayscale step gives each pixel, in all channels, the whole number nearest to (299 r + 587 g + 114 b) / 1000, the upper one on a tie. |
| AssetTheorems.InvertStep | examples/plugins/cpp-asset/asset.cc:304-309 | An invert step takes every byte to 255 less it. |
| AssetTheorems.GainStep | examples/plugins/cpp-asset/asset.cc:330-369 | A gain step gives its channel the whole number nearest to the product with the factor brought between 0 and 4, at most 255, and leaves the other channels. |
| AssetTheorems.GainExtremes | examples/plugins/cpp-asset/asset.cc:330-342 | A factor that is no number, or infinite, does what 0 or 4 do. |
| AssetTheorems.LutStep | examples/plugins/cpp-asset/asset.cc:751-769 | A lookup step replaces each byte by the entry it selects, in the column of its own channel. |
| AssetTheorems.ResizeStep | examples/plugins/cpp-asset/asset.cc:384-444 | A resize step copies into every pixel and channel the source pixel whose coordinates are the whole part of their share of the source. |
| AssetTheorems.EmptyResize | examples/plugins/cpp-asset/asset.cc:391-396 | Towards no area it leaves a picture without pixels, whatever there was. |
| AssetTheorems.PipelineFailsAtOneStep | examples/plugins/cpp-asset/asset.cc:792-809 | For every list of steps: the length stays width * height * 3, and failure is exactly one step that could not be done on what the steps before it made. |
| AssetTheorems.CeilingTestExact | examples/plugins/cpp-asset/asset.cc:405-412 | The ceiling test on a 64-bit count agrees with the exact one if and only if the count fits, or exceeds the ceiling still. |
| AssetTheorems.ValidateTestExact | examples/plugins/cpp-asset/asset.cc:778-790 | That test agrees with the exact one if and only if the byte count fits 64 bits or the buffer has any length but the wrapped one. |
| AssetTheorems.WrappedSizePasses | examples/plugins/cpp-asset/asset.cc:778-790 | Dimensions that do not fit: 2147506637 by 2863280879 passes with 33530153 bytes. |
| AssetTheorems.ReadsBelowExactly | examples/plugins/cpp-asset/asset.cc:428-438 | All bytes a resize samples are below a length if and only if the last byte of the last pixel is. |
| AssetTheorems.ValidReadsBelow | examples/plugins/cpp-asset/asset.cc:428-438 | In a picture whose bytes fit its size they are below its length for every target, and for its own size not below less. |
| AssetTheorems.WrappedSizeReads | examples/plugins/cpp-asset/asset.cc:428-438 | Of the picture that passes by wrapping, a resize samples only within the buffer if and only if the target is a single pixel. |

## Left out

- Wasmtime, WASI and the WAVE grammar: libraries. A guest is an arbitrary deterministic transition system, and a value in a trace is its text.
- Typing of recorded values: a value is the one its text stands for where it crosses, or one of another type spelled alike; which texts are of a declared type, and which argument texts an export refuses, are parameters. That reading the text of a value of the declared type gives back that value is assumed.
- Replay bounds: a replay is run with a bound on the imports between two returns, because a guest may import for ever; the theorems hold for every bound at least as long as the recording.
- Multi-plugin recordings, application-served `wasi:` interfaces, resource handles and reloads during a recording: outside what a trace can carry.
- Messages: the words of divergences, mismatches and errors; their kinds, places and numbers are modelled. Of errors that reach a guest as traps, what is modelled is what is read back out of them: whether they have the words of a spent transfer budget. The plugin's and the function's name, an application's message and a text that does not parse are there as they are; what Wasmtime and the WAVE parser say of a type is a parameter. The escaping of a quoted text, the two numbers of a wrong count and the import's name in replay's own errors, which the place before them has already, neither make nor break those words.
- Imports of the host library that are not traced, which are all but logging: part of what the guest does.
- SHA-256, ECDSA and key parsing: a key function without collisions on the bytes in play, and verification as an arbitrary predicate.
- Disk: the file cache of compiled code, signature files, manifests and the command line.
- The C API, its wrappers, the registry and the lint plugins: they would add only easy members.
- Real time, threads and poisoned locks: critical sections are atomic steps, and the profiler's clock is a parameter.
- Saturation and overflow of lifetime counters and profile totals: counters are unbounded numbers.
- Floating point: generated floats are bit patterns, and the product of a gain is one of real numbers, which is what doubles make of a float and a byte; of the doubles of one decoder only the rounding of its size test is modelled.
- Allocation failure in the plugins: allocation succeeds.
- Substitution variables, limits other than fuel, and the audit events of calls (log lines, spent ceilings): how a step turns out is its parameter.
- The seed expansion of the generator: the buffer is arbitrary, so the results hold for every seed.
- Import rows filled during instantiation, which the profiler keeps while dropping the bucket: the accounting starts at the first call.
- Reading a colour table from a file: a table arrives read, or not.
- QoiDecoders.DecodeCpp: needs the data to fit the address space of a 32-bit guest, as every such guest's memory does.
- QoiDecoders.DecodeJs: stated for any rounding of sizes that is exact up to 2^53 and keeps larger ones at least there.
- Assets.Image.ResizeTo: leaves out the sizes whose wrapped byte count is within the ceiling, where the test is wrong (`AssetTheorems.CeilingTestExact`); what the copy loop would write then is not modelled, nor what the 32-bit casts make of an offset past the buffer; `AssetTheorems.ReadsBelowExactly` says when no offset is.
- Assets.ApplySteps: leaves out those sizes in its steps, and pictures that pass only because their byte count wraps (`AssetTheorems.ValidateTestExact`).
- Generators.Generator.Value: that a value inhabits its type is stated for types whose variants have distinct case names, as the component model requires; the same goes for `Generators.Generator.Values`.
- ProfileTheorems.BucketsMeanWhatTheySay: for windows that nest with the guest entered first; `ProfileTheorems.CallsConserve` asks for no nesting.
- Compiling.Compiler.Compile: one caller at a time; concurrent callers are `CompileProtocol`.
