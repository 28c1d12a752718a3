/** What a trace holds: who was recorded, and every crossing between host and plugin as an event. */
module TraceModel {
  import opened Wrappers

  /** What a call produced; a value is WAVE text, or absent when the function returns nothing. */
  datatype Outcome =
    | Value(text: Option<string>)
    | Error(status: string, message: string)

  datatype Event =
    | ExportCall(func: string, args: seq<string>)
    | ExportReturn(func: string, outcome: Outcome)
    | ImportCall(interface: string, func: string, args: seq<string>)
    | ImportReturn(interface: string, func: string, outcome: Outcome)

  datatype Header = Header(componentSha256: string, plugin: string, manifestToml: string)

  datatype Trace = Trace(header: Header, events: seq<Event>)

  const FORMAT_VERSION := 1

  /** Interfaces in the `wasi:` namespace are served by the host library, never by the application. */
  predicate IsWasi(interface: string) {
    "wasi:" <= interface
  }
}
