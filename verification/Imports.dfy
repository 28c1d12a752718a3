/**
  What a component's imports need, and whether the manifest covers them.

  Grants are matched by interface, without the version; everything not recognised is denied.
  */
module Imports {
  import opened Wrappers

  // ---------------------------------------------------------------------------------------------
  // Interface names
  // ---------------------------------------------------------------------------------------------

  datatype InterfaceRef = InterfaceRef(namespace: string, package: string, interface: string, version: Option<string>) {

    function Unversioned(): string {
      namespace + ":" + package + "/" + interface
    }
  }

  /** Split around the first occurrence of a character. */
  function SplitOnce(s: string, c: char): (r: Option<(string, string)>)
    ensures r.Some? ==> c !in r.value.0 && s == r.value.0 + [c] + r.value.1
    ensures r.None? <==> c !in s
  {
    if s == "" then None
    else if s[0] == c then
      assert s == "" + [c] + s[1..];
      Some(("", s[1..]))
    else
      assert s == [s[0]] + s[1..];
      match SplitOnce(s[1..], c)
      case None => None
      case Some((head, tail)) =>
        assert s == ([s[0]] + head) + [c] + tail;
        Some(([s[0]] + head, tail))
  }

  /** `namespace:package/interface`, with or without `@version`; `None` for any other shape. */
  function Parse(raw: string): Option<InterfaceRef> {
    match SplitOnce(raw, '/')
    case None => None
    case Some((packagePath, rest)) =>
      match SplitOnce(packagePath, ':')
      case None => None
      case Some((namespace, package)) =>
        var (interface, version) :=
          match SplitOnce(rest, '@')
          case Some((interface, version)) => (interface, Some(version))
          case None => (rest, None);
        if namespace == "" || package == "" || interface == "" then None
        else Some(InterfaceRef(namespace, package, interface, version))
  }

  lemma {:induction false} SplitAt(head: string, c: char, tail: string)
    requires c !in head
    ensures SplitOnce(head + [c] + tail, c) == Some((head, tail))
  {
    var s := head + [c] + tail;
    if head != "" {
      assert s[1..] == head[1..] + [c] + tail;
      SplitAt(head[1..], c, tail);
      assert [s[0]] + head[1..] == head;
    }
  }

  /** Dropping the version keeps the interface: what is matched is all that is left. */
  lemma {:induction false} UnversionedParses(raw: string)
    requires Parse(raw).Some?
    ensures var iface := Parse(raw).value;
            Parse(iface.Unversioned()) == Some(iface.(version := None))
  {
    hide SplitOnce;
    var iface := Parse(raw).value;
    var (path, rest) := SplitOnce(raw, '/').value;
    assert path == iface.namespace + [':'] + iface.package;
    assert iface.Unversioned() == path + ['/'] + iface.interface;
    SplitAt(path, '/', iface.interface);
    SplitAt(iface.namespace, ':', iface.package);
    assert '@' !in iface.interface;
  }

  /** The parts are what a name can be taken apart into. */
  predicate Spelled(iface: InterfaceRef) {
    && iface.namespace != "" && iface.package != "" && iface.interface != ""
    && ':' !in iface.namespace && '/' !in iface.namespace && '/' !in iface.package && '@' !in iface.interface
  }

  /** A version only ever comes after an `@`: it is read back as written. */
  lemma {:induction false} VersionedParses(iface: InterfaceRef, version: string)
    requires Spelled(iface)
    ensures Parse(iface.Unversioned()) == Some(iface.(version := None))
    ensures Parse(iface.Unversioned() + "@" + version) == Some(iface.(version := Some(version)))
  {
    hide SplitOnce;
    var path, full := iface.namespace + [':'] + iface.package, iface.interface + ['@'] + version;
    assert iface.Unversioned() == path + ['/'] + iface.interface;
    assert iface.Unversioned() + "@" + version == path + ['/'] + full;
    SplitAt(path, '/', iface.interface);
    SplitAt(path, '/', full);
    SplitAt(iface.namespace, ':', iface.package);
    SplitAt(iface.interface, '@', version);
  }

  /** The whole name, with the version if there is one. */
  function Written(iface: InterfaceRef): string {
    iface.Unversioned() + (if iface.version.Some? then "@" + iface.version.value else "")
  }

  lemma {:induction false} ParsedIsWritten(raw: string)
    requires Parse(raw).Some?
    ensures Spelled(Parse(raw).value) && raw == Written(Parse(raw).value)
  {
    hide SplitOnce;
    var iface := Parse(raw).value;
    var (path, rest) := SplitOnce(raw, '/').value;
    assert path == iface.namespace + [':'] + iface.package;
    if iface.version.Some? {
      assert rest == iface.interface + ['@'] + iface.version.value;
      assert raw == iface.Unversioned() + ("@" + iface.version.value);
    } else {
      assert raw == iface.Unversioned() + "";
    }
  }

  lemma {:induction false} WrittenParses(iface: InterfaceRef)
    requires Spelled(iface)
    ensures Parse(Written(iface)) == Some(iface)
  {
    hide SplitOnce;
    var path := iface.namespace + [':'] + iface.package;
    if iface.version.Some? {
      var full := iface.interface + ['@'] + iface.version.value;
      assert Written(iface) == path + ['/'] + full;
      SplitAt(path, '/', full);
      SplitAt(iface.interface, '@', iface.version.value);
    } else {
      assert Written(iface) == path + ['/'] + iface.interface;
      SplitAt(path, '/', iface.interface);
    }
    SplitAt(iface.namespace, ':', iface.package);
  }

  /** Which names are names of which interface, in which version: exactly. */
  lemma {:induction false} ParsesExactly(raw: string, iface: InterfaceRef)
    ensures Parse(raw) == Some(iface) <==> Spelled(iface) && raw == Written(iface)
  {
    hide Parse, Written, Spelled;
    if Parse(raw) == Some(iface) {
      ParsedIsWritten(raw);
    }
    if Spelled(iface) && raw == Written(iface) {
      WrittenParses(iface);
    }
  }

  // ---------------------------------------------------------------------------------------------
  // Requirements and grants
  // ---------------------------------------------------------------------------------------------

  datatype Requirement =
    | Ambient
    | TypesOnly
    | HostProvided
    | Filesystem
    | Network
    | MonotonicClock
    | WallClock
    | Random
    | Environment
    | Logging
    | Unrecognized

  datatype Clocks = NoClock | Monotonic | Wall

  /** What the manifest grants: whether directories, the network, randomness, an environment or a log level. */
  datatype Permissions = Permissions(fs: bool, net: bool, clocks: Clocks, random: bool, env: bool, logging: bool)

  datatype ComponentImport = ComponentImport(name: string, hasFunctions: bool)

  predicate Starts(s: string, prefix: string) {
    prefix <= s
  }

  /** Leaving, the standard streams and the terminal. */
  predicate IsProcessInterface(interface: string) {
    || interface == "exit"
    || Starts(interface, "stdin") || Starts(interface, "stdout") || Starts(interface, "stderr")
    || Starts(interface, "terminal")
  }

  /** What tells the time of day, or where the host is. */
  predicate IsWallInterface(interface: string) {
    interface == "wall-clock" || interface == "system-clock" || interface == "timezone"
  }

  /** What a callable `wasi:` interface needs. */
  function WasiRequirement(package: string, interface: string): Requirement {
    if package == "io" then Ambient
    else if package == "cli" then
      if interface == "environment" then Environment
      else if IsProcessInterface(interface) then Ambient
      else Unrecognized
    else if package == "filesystem" then Filesystem
    else if package == "sockets" then Network
    else if package == "http" then Network
    else if package == "logging" && interface == "logging" then Logging
    else if package == "clocks" then
      if interface == "monotonic-clock" then MonotonicClock
      else if IsWallInterface(interface) then WallClock
      else Unrecognized
    else if package == "random" then Random
    else Unrecognized
  }

  function Classify(imp: ComponentImport, provided: set<string>): Requirement {
    match Parse(imp.name)
    case None => Unrecognized
    case Some(iface) =>
      if !imp.hasFunctions then TypesOnly
      else if iface.Unversioned() in provided then HostProvided
      else if iface.namespace != "wasi" then Unrecognized
      else WasiRequirement(iface.package, iface.interface)
  }

  predicate IsGranted(requirement: Requirement, p: Permissions) {
    match requirement
    case Ambient => true
    case TypesOnly => true
    case HostProvided => true
    case Filesystem => p.fs
    case Network => p.net
    case MonotonicClock => p.clocks.Monotonic? || p.clocks.Wall?
    case WallClock => p.clocks.Wall?
    case Random => p.random
    case Environment => p.env
    case Logging => p.logging
    case Unrecognized => false
  }

  datatype Decision = Decision(name: string, requirement: Requirement, granted: bool)

  function Decide(imp: ComponentImport, p: Permissions, provided: set<string>): (decision: Decision)
    ensures decision.name == imp.name
  {
    var requirement := Classify(imp, provided);
    Decision(imp.name, requirement, IsGranted(requirement, p))
  }

  function Check(imports: seq<ComponentImport>, p: Permissions, provided: set<string>): (decisions: seq<Decision>)
    ensures |decisions| == |imports|
    ensures forall i | 0 <= i < |imports| :: decisions[i] == Decide(imports[i], p, provided)
  {
    seq(|imports|, i requires 0 <= i < |imports| => Decide(imports[i], p, provided))
  }

  predicate IsSatisfied(decisions: seq<Decision>) {
    forall i | 0 <= i < |decisions| :: decisions[i].granted
  }

  // ---------------------------------------------------------------------------------------------
  // What the grant relation keeps
  // ---------------------------------------------------------------------------------------------

  /** Versions are not looked at: two names for one interface are classified alike. */
  lemma {:induction false} VersionsDoNotMatter(a: ComponentImport, b: ComponentImport, provided: set<string>)
    requires a.hasFunctions == b.hasFunctions
    requires Parse(a.name).Some? && Parse(b.name).Some?
    requires Parse(a.name).value.Unversioned() == Parse(b.name).value.Unversioned()
    ensures Classify(a, provided) == Classify(b, provided)
  {
    UnversionedParses(a.name);
    UnversionedParses(b.name);
  }

  predicate AtMost(p: Permissions, q: Permissions) {
    && (p.fs ==> q.fs) && (p.net ==> q.net) && (p.random ==> q.random) && (p.env ==> q.env)
    && (p.logging ==> q.logging)
    && (p.clocks.Monotonic? ==> q.clocks.Monotonic? || q.clocks.Wall?) && (p.clocks.Wall? ==> q.clocks.Wall?)
  }

  /** Granting more never denies: what loads under a manifest loads under any wider one. */
  lemma {:induction false} WiderManifest(
    imports: seq<ComponentImport>, p: Permissions, q: Permissions, provided: set<string>, more: set<string>)
    requires AtMost(p, q) && provided <= more
    requires IsSatisfied(Check(imports, p, provided))
    ensures IsSatisfied(Check(imports, q, more))
  {
    hide Parse, InterfaceRef.Unversioned;
    forall i | 0 <= i < |imports| ensures Check(imports, q, more)[i].granted {
      assert Check(imports, p, provided)[i].granted;
      WiderGrant(imports[i], p, q, provided, more);
    }
  }

  lemma {:induction false} WiderGrant(
    imp: ComponentImport, p: Permissions, q: Permissions, provided: set<string>, more: set<string>)
    requires AtMost(p, q) && provided <= more
    ensures Decide(imp, p, provided).granted ==> Decide(imp, q, more).granted
  {
    hide Parse, InterfaceRef.Unversioned, WasiRequirement;
  }

  // ---------------------------------------------------------------------------------------------
  // Which names are let in
  // ---------------------------------------------------------------------------------------------

  /** The name of a WASI interface, without a version; or how the names in a package begin. */
  function Wasi(package: string, interface: string): string {
    "wasi" + ":" + package + "/" + interface
  }

  /** Names that need no grant: streams and polling, leaving, the standard streams, the terminal. */
  predicate AmbientName(name: string) {
    || Starts(name, Wasi("io", ""))
    || name == Wasi("cli", "exit")
    || Starts(name, Wasi("cli", "stdin"))
    || Starts(name, Wasi("cli", "stdout"))
    || Starts(name, Wasi("cli", "stderr"))
    || Starts(name, Wasi("cli", "terminal"))
  }

  /** Elapsed time with either setting, the time of day only with `wall`. */
  predicate ClockName(name: string, clocks: Clocks) {
    || (!clocks.NoClock? && name == Wasi("clocks", "monotonic-clock"))
    || (clocks.Wall? && name == Wasi("clocks", "wall-clock"))
    || (clocks.Wall? && name == Wasi("clocks", "system-clock"))
    || (clocks.Wall? && name == Wasi("clocks", "timezone"))
  }

  /** The callable interfaces a manifest lets in, by name: no other name is. */
  predicate LetIn(name: string, p: Permissions) {
    || AmbientName(name)
    || ClockName(name, p.clocks)
    || (p.fs && Starts(name, Wasi("filesystem", "")))
    || (p.net && Starts(name, Wasi("sockets", "")))
    || (p.net && Starts(name, Wasi("http", "")))
    || (p.random && Starts(name, Wasi("random", "")))
    || (p.env && name == Wasi("cli", "environment"))
    || (p.logging && name == Wasi("logging", "logging"))
  }

  /** An interface by its whole name. */
  lemma {:induction false} NameOf(iface: InterfaceRef, package: string, interface: string)
    requires Spelled(iface) && '/' !in package
    ensures iface.Unversioned() == Wasi(package, interface) <==>
              iface.namespace == "wasi" && iface.package == package && iface.interface == interface
  {
    hide SplitOnce;
    if iface.Unversioned() == Wasi(package, interface) {
      SplitAt(iface.namespace + ":" + iface.package, '/', iface.interface);
      SplitAt("wasi" + ":" + package, '/', interface);
      SplitAt(iface.namespace, ':', iface.package);
      SplitAt("wasi", ':', package);
    }
  }

  /** An interface by how its name begins: up to and into what follows the slash. */
  lemma {:induction false} FrontOf(iface: InterfaceRef, package: string, front: string)
    requires Spelled(iface) && '/' !in package
    ensures Starts(iface.Unversioned(), Wasi(package, front)) <==>
              iface.namespace == "wasi" && iface.package == package && Starts(iface.interface, front)
  {
    var name, head := iface.Unversioned(), Wasi(package, front);
    if Starts(name, head) {
      var rest := name[|head|..];
      assert name == head + rest == Wasi(package, front + rest);
      NameOf(iface, package, front + rest);
    }
    if iface.namespace == "wasi" && iface.package == package && Starts(iface.interface, front) {
      assert iface.interface == front + iface.interface[|front|..];
      assert name == head + iface.interface[|front|..];
    }
  }

  lemma {:induction false} AmbientByParts(iface: InterfaceRef)
    requires Spelled(iface)
    ensures AmbientName(iface.Unversioned()) <==>
              && iface.namespace == "wasi"
              && (iface.package == "io" || (iface.package == "cli" && IsProcessInterface(iface.interface)))
  {
    hide InterfaceRef.Unversioned, Spelled, Wasi;
    FrontOf(iface, "io", "");
    NameOf(iface, "cli", "exit");
    FrontOf(iface, "cli", "stdin");
    FrontOf(iface, "cli", "stdout");
    FrontOf(iface, "cli", "stderr");
    FrontOf(iface, "cli", "terminal");
  }

  lemma {:induction false} ClockByParts(iface: InterfaceRef, clocks: Clocks)
    requires Spelled(iface)
    ensures ClockName(iface.Unversioned(), clocks) <==>
              && iface.namespace == "wasi" && iface.package == "clocks"
              && ((!clocks.NoClock? && iface.interface == "monotonic-clock")
                  || (clocks.Wall? && IsWallInterface(iface.interface)))
  {
    hide InterfaceRef.Unversioned, Spelled, Wasi;
    NameOf(iface, "clocks", "monotonic-clock");
    NameOf(iface, "clocks", "wall-clock");
    NameOf(iface, "clocks", "system-clock");
    NameOf(iface, "clocks", "timezone");
  }

  /** What a package's name says of what it needs. */
  lemma {:induction false} NeedsByPackage(package: string, interface: string)
    ensures WasiRequirement(package, interface).Filesystem? <==> package == "filesystem"
    ensures WasiRequirement(package, interface).Network? <==> package == "sockets" || package == "http"
    ensures WasiRequirement(package, interface).Random? <==> package == "random"
    ensures !WasiRequirement(package, interface).TypesOnly? && !WasiRequirement(package, interface).HostProvided?
  {
    hide IsProcessInterface;
  }

  /** And what it takes the interface's name to say. */
  lemma {:induction false} NeedsByInterface(package: string, interface: string)
    ensures WasiRequirement(package, interface).Ambient? <==>
              package == "io" || (package == "cli" && IsProcessInterface(interface))
    ensures WasiRequirement(package, interface).Environment? <==> package == "cli" && interface == "environment"
    ensures WasiRequirement(package, interface).Logging? <==> package == "logging" && interface == "logging"
    ensures WasiRequirement(package, interface).MonotonicClock? <==>
              package == "clocks" && interface == "monotonic-clock"
    ensures WasiRequirement(package, interface).WallClock? <==>
              package == "clocks" && IsWallInterface(interface)
  {
    assert interface == "environment" ==> interface[0] == 'e' && interface[1] == 'n';
    assert IsProcessInterface(interface) ==> 1 < |interface| && (interface[0] != 'e' || interface[1] != 'n');
    hide IsProcessInterface;
  }

  lemma {:induction false} LetInByParts(iface: InterfaceRef, p: Permissions)
    requires Spelled(iface)
    ensures LetIn(iface.Unversioned(), p) <==>
              iface.namespace == "wasi" && IsGranted(WasiRequirement(iface.package, iface.interface), p)
  {
    hide InterfaceRef.Unversioned, Spelled, Wasi, WasiRequirement;
    hide AmbientName, ClockName, IsProcessInterface, IsWallInterface;
    AmbientByParts(iface);
    ClockByParts(iface, p.clocks);
    NeedsByPackage(iface.package, iface.interface);
    NeedsByInterface(iface.package, iface.interface);
    FrontOf(iface, "filesystem", "");
    FrontOf(iface, "sockets", "");
    FrontOf(iface, "http", "");
    FrontOf(iface, "random", "");
    NameOf(iface, "cli", "environment");
    NameOf(iface, "logging", "logging");
  }

  /** An import is let in when it names an interface without functions, a served one, or one the manifest lets in. */
  predicate Allowed(imp: ComponentImport, p: Permissions, provided: set<string>) {
    match Parse(imp.name)
    case None => false
    case Some(iface) => !imp.hasFunctions || iface.Unversioned() in provided || LetIn(iface.Unversioned(), p)
  }

  /** What is decided about an import, by its name alone. */
  lemma {:induction false} DecidedByName(imp: ComponentImport, p: Permissions, provided: set<string>)
    ensures Decide(imp, p, provided).granted <==> Allowed(imp, p, provided)
  {
    if Parse(imp.name).Some? {
      var iface := Parse(imp.name).value;
      ParsedIsWritten(imp.name);
      LetInByParts(iface, p);
      hide Parse, LetIn, WasiRequirement, InterfaceRef.Unversioned, Spelled;
    }
  }

  lemma {:induction false} SatisfiedByName(imports: seq<ComponentImport>, p: Permissions, provided: set<string>)
    ensures IsSatisfied(Check(imports, p, provided)) <==>
              forall i | 0 <= i < |imports| :: Allowed(imports[i], p, provided)
  {
    hide Decide, Allowed;
    var decisions := Check(imports, p, provided);
    forall i | 0 <= i < |imports| ensures decisions[i].granted <==> Allowed(imports[i], p, provided) {
      DecidedByName(imports[i], p, provided);
    }
  }

  const NOTHING := Permissions(false, false, NoClock, false, false, false)

  /**
    Without a grant nothing callable is let in but the interfaces the application serves and the
    ambient ones; and `clocks = "monotonic"` adds the one clock that does not tell the time.
    */
  lemma {:induction false} DeniedByDefault(imp: ComponentImport, provided: set<string>)
    requires imp.hasFunctions && Parse(imp.name).Some? && Parse(imp.name).value.Unversioned() !in provided
    ensures Decide(imp, NOTHING, provided).granted <==> AmbientName(Parse(imp.name).value.Unversioned())
    ensures Decide(imp, NOTHING.(clocks := Monotonic), provided).granted <==>
              || AmbientName(Parse(imp.name).value.Unversioned())
              || Parse(imp.name).value.Unversioned() == Wasi("clocks", "monotonic-clock")
  {
    DecidedByName(imp, NOTHING, provided);
    DecidedByName(imp, NOTHING.(clocks := Monotonic), provided);
    hide Parse, Decide, InterfaceRef.Unversioned, AmbientName, Wasi;
  }
}
