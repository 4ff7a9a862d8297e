/** Configuration file paths and the port allocator (src/dojo/lib/util.py).

    A path is the sequence of its parts, as pathlib parses it: an optional
    root followed by the segments between slashes. The configurations
    directory is a parameter. The filesystem is a map from path to file
    contents. Executing a configuration's Python file and serialising what it
    defines are uninterpreted functions of that file's text. */
module Util {
  import opened Outcomes

  type Path = seq<string>
  type Files = map<Path, string>

  const JsonExtension := ".json"
  const PythonExtension := ".py"

  // ---------------------------------------------------------------------------
  // Joining paths as pathlib does

  /** The index of the last '/' in `s`. */
  function LastSlash(s: string): (i: nat)
    requires '/' in s
    ensures i < |s| && s[i] == '/'
    ensures forall j :: i < j < |s| ==> s[j] != '/'
    decreases |s|
  {
    if s[|s| - 1] == '/' then |s| - 1
    else
      assert '/' in s[..|s| - 1] by {
        var j :| 0 <= j < |s| && s[j] == '/';
        assert s[..|s| - 1][j] == '/';
      }
      LastSlash(s[..|s| - 1])
  }

  /** The text after the last '/', or all of `s` when it has none. */
  function LastPiece(s: string): string {
    if '/' in s then s[LastSlash(s) + 1..] else s
  }

  /** The segment a piece between slashes gives: none for the empty piece and
      for ".", which pathlib drops. */
  function Keep(piece: string): seq<string> {
    if piece == "" || piece == "." then [] else [piece]
  }

  /** The segments of a path string: the pieces between slashes, without the
      empty ones and ".". ".." is kept, as pathlib keeps it. */
  function Segments(s: string): seq<string>
    decreases |s|
  {
    if '/' in s then Segments(s[..LastSlash(s)]) + Keep(LastPiece(s)) else Keep(s)
  }

  /** The segments before the last piece. */
  function Parent(s: string): seq<string> {
    if '/' in s then Segments(s[..LastSlash(s)]) else []
  }

  predicate Absolute(s: string) {
    |s| > 0 && s[0] == '/'
  }

  /** The root of an absolute path: exactly two leading slashes stay two,
      any other number is one. */
  function Root(s: string): string {
    if |s| >= 2 && s[0] == '/' && s[1] == '/' && (|s| == 2 || s[2] != '/') then "//" else "/"
  }

  /** `p / s`: an absolute `s` replaces `p`, a relative one appends its
      segments. */
  function Join(p: Path, s: string): Path {
    if Absolute(s) then [Root(s)] + Segments(s) else p + Segments(s)
  }

  /** `base.joinpath(name, name + extension)`. */
  function ConfigurationPath(base: Path, name: string, extension: string): Path {
    Join(Join(base, name), name + extension)
  }

  function JsonPath(base: Path, name: string): Path {
    ConfigurationPath(base, name, JsonExtension)
  }

  function PythonPath(base: Path, name: string): Path {
    ConfigurationPath(base, name, PythonExtension)
  }

  /** An extension the configuration files use: a '/'-free suffix of at least
      two characters, so the file name it ends is never dropped. */
  predicate FileExtension(extension: string) {
    |extension| >= 2 && '/' !in extension
  }

  /** A name pathlib reads as a single segment. */
  predicate SingleSegment(name: string) {
    name != "" && name != "." && '/' !in name
  }

  /** The directory the configuration files of `name` sit in. */
  function Directory(base: Path, name: string): Path {
    if Absolute(name) then [Root(name)] + Parent(name) else Join(base, name) + Parent(name)
  }

  /** A '/' with none after it is the last one. */
  lemma LastSlashAt(s: string, i: nat)
    requires i < |s| && s[i] == '/'
    requires forall j :: i < j < |s| ==> s[j] != '/'
    ensures '/' in s && LastSlash(s) == i
  {
    assert s[i] in s;
  }

  /** Appending a '/'-free extension leaves the last slash where it was and
      lengthens only the last piece. */
  lemma AppendKeepsSlashes(s: string, extension: string)
    requires '/' !in extension
    ensures Segments(s + extension) == Parent(s) + Keep(LastPiece(s) + extension)
  {
    var t := s + extension;
    forall j | |s| <= j < |t|
      ensures t[j] != '/'
    {
      assert t[j] == extension[j - |s|] && extension[j - |s|] in extension;
    }
    if '/' in s {
      var i := LastSlash(s);
      LastSlashAt(t, i);
      assert t[..i] == s[..i];
      assert t[i + 1..] == s[i + 1..] + extension;
      assert Segments(t) == Segments(s[..i]) + Keep(LastPiece(s) + extension);
    } else {
      assert '/' !in t by {
        forall j | 0 <= j < |s|
          ensures t[j] != '/'
        {
          assert t[j] == s[j] && s[j] in s;
        }
      }
      assert Segments(t) == Keep(t);
    }
  }

  /** Appending the extension never makes a relative name absolute, and
      leaves an absolute name's root alone. */
  lemma AppendKeepsRoot(name: string, extension: string)
    requires FileExtension(extension)
    ensures Absolute(name + extension) <==> Absolute(name)
    ensures Absolute(name) ==> Root(name + extension) == Root(name)
  {
    assert extension[0] != '/' by { assert extension[0] in extension; }
    if |name| == 0 {
      assert name + extension == extension;
    } else {
      assert (name + extension)[0] == name[0];
    }
    if |name| >= 3 {
      assert (name + extension)[..3] == name[..3];
    } else if |name| == 2 {
      assert (name + extension)[2] == extension[0];
    } else if |name| == 1 {
      assert (name + extension)[1] == extension[0];
    }
  }

  /** A one-segment name is its own last piece and adds one directory. */
  lemma SingleSegmentDirectory(base: Path, name: string)
    requires SingleSegment(name)
    ensures LastPiece(name) == name && Directory(base, name) == base + [name]
  {
    assert name[0] in name;
    assert Segments(name) == [name];
  }

  /** A configuration file is its directory followed by the name's last
      piece with the extension: whatever the name, the extension ends the
      path, and only the last segment depends on it. */
  lemma {:induction false} ConfigurationPathShape(base: Path, name: string, extension: string)
    requires FileExtension(extension)
    ensures ConfigurationPath(base, name, extension) == Directory(base, name) + [LastPiece(name) + extension]
  {
    AppendKeepsSlashes(name, extension);
    AppendKeepsRoot(name, extension);
    var piece := LastPiece(name) + extension;
    assert Keep(piece) == [piece];
    if Absolute(name) {
      assert ConfigurationPath(base, name, extension) == [Root(name)] + Segments(name + extension);
    } else {
      assert ConfigurationPath(base, name, extension) == Join(base, name) + Segments(name + extension);
    }
  }

  /** A one-segment name gives `base/name/name<extension>`. */
  lemma SingleSegmentPath(base: Path, name: string, extension: string)
    requires FileExtension(extension) && SingleSegment(name)
    ensures ConfigurationPath(base, name, extension) == base + [name, name + extension]
  {
    ConfigurationPathShape(base, name, extension);
    SingleSegmentDirectory(base, name);
  }

  /** A configuration's JSON and Python files are different files in the
      same directory; a name that is one segment puts them in the directory
      named after it, and different such names never share a JSON file. */
  lemma ConfigurationPathsAreDistinct(base: Path, name: string, other: string)
    ensures JsonPath(base, name) == Directory(base, name) + [LastPiece(name) + JsonExtension]
    ensures PythonPath(base, name) == Directory(base, name) + [LastPiece(name) + PythonExtension]
    ensures JsonPath(base, name) != PythonPath(base, name)
    ensures SingleSegment(name) ==> Directory(base, name) == base + [name]
    ensures SingleSegment(name) && SingleSegment(other) && name != other ==>
              JsonPath(base, name) != JsonPath(base, other)
  {
    ConfigurationPathShape(base, name, JsonExtension);
    ConfigurationPathShape(base, name, PythonExtension);
    if SingleSegment(name) {
      SingleSegmentDirectory(base, name);
    }
    if SingleSegment(other) {
      SingleSegmentPath(base, other, JsonExtension);
    }
    var j := LastPiece(name) + JsonExtension;
    var p := LastPiece(name) + PythonExtension;
    assert |j| != |p|;
    var n := |Directory(base, name)|;
    assert JsonPath(base, name)[n] == j && PythonPath(base, name)[n] == p;
    if SingleSegment(name) && SingleSegment(other) && name != other {
      assert JsonPath(base, name)[|base|] == name && JsonPath(base, other)[|base|] == other;
    }
  }

  /** pathlib splits "a/b" and "a//b" into the same segments. */
  lemma RepeatedSlashSplitsAlike()
    ensures LastPiece("a/b") == LastPiece("a//b") == "b"
    ensures Parent("a/b") == Parent("a//b") == ["a"]
    ensures Segments("a/b") == Segments("a//b") == ["a", "b"]
  {
    LastSlashAt("a/b", 1);
    LastSlashAt("a//b", 2);
    LastSlashAt("a/", 1);
    assert "a/b"[..1] == "a" && "a/b"[2..] == "b";
    assert "a//b"[..2] == "a/" && "a//b"[3..] == "b";
    assert "a/"[..1] == "a" && "a/"[2..] == "";
    assert Segments("a") == ["a"];
  }

  /** Names that pathlib splits the same way name the same file: "a/b" and
      "a//b" both give `base/a/b/a/b.json`. */
  lemma RepeatedSlashesShareFiles(base: Path)
    ensures "a/b" != "a//b"
    ensures JsonPath(base, "a/b") == JsonPath(base, "a//b") == base + ["a", "b", "a", "b" + JsonExtension]
  {
    RepeatedSlashSplitsAlike();
    assert |"a/b"| != |"a//b"|;
    assert !Absolute("a/b") && !Absolute("a//b");
    assert Directory(base, "a/b") == Directory(base, "a//b") == base + ["a", "b"] + ["a"];
    ConfigurationPathShape(base, "a/b", JsonExtension);
    ConfigurationPathShape(base, "a//b", JsonExtension);
  }

  /** An absolute name ignores the configurations directory altogether: the
      JSON file is the name's root, its segments before the last piece, and
      the last piece with the extension. */
  lemma AbsoluteNameIgnoresBase(base: Path, other: Path, name: string)
    requires Absolute(name)
    ensures JsonPath(base, name) == JsonPath(other, name)
    ensures JsonPath(base, name) == [Root(name)] + Parent(name) + [LastPiece(name) + JsonExtension]
  {
    ConfigurationPathShape(base, name, JsonExtension);
    ConfigurationPathShape(other, name, JsonExtension);
  }

  /** One instance: "/etc" gives `/etc.json` whatever the directory. */
  lemma EtcIgnoresBase(base: Path, other: Path)
    ensures JsonPath(base, "/etc") == JsonPath(other, "/etc") == ["/", "etc" + JsonExtension]
  {
    assert Absolute("/etc");
    AbsoluteNameIgnoresBase(base, other, "/etc");
    LastSlashAt("/etc", 0);
    assert "/etc"[..0] == "" && "/etc"[1..] == "etc";
    assert LastPiece("/etc") == "etc" && Parent("/etc") == Segments("") == [];
    assert Root("/etc") == "/";
  }

  /** How executing a configuration's Python file turns out. */
  datatype ConfigModule = ConfigModule(
    definesAllConfigs: string -> bool,   // whether the file's text defines `all_configs`
    serialize: string -> string)         // the JSON written for that file's `all_configs`

  /** `import_and_serialize_configs`: regenerates the JSON file from the Python
      file, or raises when the Python file is missing or lacks `all_configs`. */
  function ImportAndSerializeConfigs(files: Files, base: Path, name: string, loader: ConfigModule): (r: Result<Files>)
    ensures r.Err? <==>
              PythonPath(base, name) !in files || !loader.definesAllConfigs(files[PythonPath(base, name)])
    ensures r.Ok? ==>
              r.value == files[JsonPath(base, name) := loader.serialize(files[PythonPath(base, name)])]
  {
    var python := PythonPath(base, name);
    if python !in files then
      Err(RuntimeError("File '" + name + "' not found in configurations folder. Please check the path and try again."))
    else if loader.definesAllConfigs(files[python]) then
      Ok(files[JsonPath(base, name) := loader.serialize(files[python])])
    else
      Err(RuntimeError("The variable 'all_configs' is not found in the specified file."))
  }

  /** `ensure_json_configuration`: the JSON path, regenerated only when the
      file is missing. */
  function EnsureJsonConfiguration(files: Files, base: Path, name: string, loader: ConfigModule): (r: Result<(Path, Files)>)
    ensures r.Ok? ==> r.value.0 == JsonPath(base, name) && JsonPath(base, name) in r.value.1
    ensures JsonPath(base, name) in files ==> r == Ok((JsonPath(base, name), files))
    ensures r.Ok? ==> forall p :: p in files && p != JsonPath(base, name) ==> p in r.value.1 && r.value.1[p] == files[p]
    ensures r.Err? <==> JsonPath(base, name) !in files
                        && (PythonPath(base, name) !in files || !loader.definesAllConfigs(files[PythonPath(base, name)]))
  {
    var path := JsonPath(base, name);
    if path in files then Ok((path, files))
    else
      match ImportAndSerializeConfigs(files, base, name, loader)
      case Ok(written) => Ok((path, written))
      case Err(e) => Err(e)
  }

  /** `read_configuration_file`: the contents of the JSON file. */
  function ReadConfigurationFile(files: Files, base: Path, name: string): (r: Result<string>)
    ensures r.Ok? <==> JsonPath(base, name) in files
    ensures r.Ok? ==> r.value == files[JsonPath(base, name)]
  {
    var path := JsonPath(base, name);
    if path in files then Ok(files[path]) else Err(FileNotFound(path))
  }

  /** Once the JSON configuration has been ensured it can be read, and
      ensuring it again changes nothing. */
  lemma EnsuredConfigurationIsReadable(files: Files, base: Path, name: string, loader: ConfigModule)
    ensures var r := EnsureJsonConfiguration(files, base, name, loader);
      && (r.Ok? ==> ReadConfigurationFile(r.value.1, base, name).Ok?)
      && (r.Ok? ==> EnsureJsonConfiguration(r.value.1, base, name, loader) == r)
  {
  }

  // ---------------------------------------------------------------------------
  // The port allocator

  /** The counter's initial value. */
  const FirstCounter := 8282

  /** The largest port a socket accepts; a larger one raises OverflowError. */
  const MaxPort := 65535

  /** The allocator after one call: the counter's new value and the outcome. */
  datatype Allocation = Allocation(counter: int, port: Result<int>)

  /** `set_first_available_env_manager_port` as a function of the counter and
      the probe: advance the counter, probe the port it names, and stop at the
      first port the probe finds unused. Past the largest port the probe
      raises. */
  function Allocate(last: int, inUse: int -> bool): (a: Allocation)
    ensures a.port.Ok? ==>
              && a.counter == a.port.value
              && last < a.port.value <= MaxPort
              && !inUse(a.port.value)
              && forall q :: last < q < a.port.value ==> inUse(q)
    ensures a.port.Err? ==>
              && a.port.fault == OverflowError
              && a.counter == (if last < MaxPort then MaxPort else last) + 1
              && forall q :: last < q <= MaxPort ==> inUse(q)
    decreases if last < MaxPort then MaxPort - last else 0
  {
    var candidate := last + 1;
    if candidate > MaxPort then Allocation(candidate, Err(OverflowError))
    else if !inUse(candidate) then Allocation(candidate, Ok(candidate))
    else Allocate(candidate, inUse)
  }

  /** The outcomes of successive calls, each with the probe as it stands at
      that call. */
  function AllocateAll(last: int, probes: seq<int -> bool>): seq<Result<int>>
    decreases |probes|
  {
    if probes == [] then []
    else
      var a := Allocate(last, probes[0]);
      [a.port] + AllocateAll(a.counter, probes[1..])
  }

  /** Successive calls hand out strictly increasing ports, all above the
      counter they started from, so no port is handed out twice. */
  lemma {:induction false} AllocationsIncrease(last: int, probes: seq<int -> bool>)
    ensures var rs := AllocateAll(last, probes);
      && |rs| == |probes|
      && (forall i :: 0 <= i < |rs| && rs[i].Ok? ==> last < rs[i].value)
      && (forall i, j :: 0 <= i < j < |rs| && rs[i].Ok? && rs[j].Ok? ==> rs[i].value < rs[j].value)
    decreases |probes|
  {
    if probes != [] {
      var a := Allocate(last, probes[0]);
      AllocationsIncrease(a.counter, probes[1..]);
      var rs := AllocateAll(last, probes);
      var tail := AllocateAll(a.counter, probes[1..]);
      assert rs == [a.port] + tail;
      assert last < a.counter;
      forall i, j | 0 <= i < j < |rs| && rs[i].Ok? && rs[j].Ok?
        ensures rs[i].value < rs[j].value
      {
        assert rs[j] == tail[j - 1];
        if i > 0 { assert rs[i] == tail[i - 1]; }
      }
    }
  }

  /** The module-level counter `last_agent_env_port`. */
  class PortAllocator {
    var lastPort: int

    constructor ()
      ensures lastPort == FirstCounter
    {
      lastPort := FirstCounter;
    }

    /** The `while True` loop: advance the counter before each probe and
        return the first port the probe reports as not in use. */
    method SetFirstAvailableEnvManagerPort(inUse: int -> bool) returns (r: Result<int>)
      modifies this
      ensures Allocate(old(lastPort), inUse) == Allocation(lastPort, r)
      ensures r.Ok? ==> lastPort == r.value && r.value > old(lastPort) && !inUse(r.value)
    {
      while true
        invariant Allocate(old(lastPort), inUse) == Allocate(lastPort, inUse)
        decreases if lastPort < MaxPort then MaxPort - lastPort else 0
      {
        lastPort := lastPort + 1;
        if lastPort > MaxPort {
          return Err(OverflowError);
        }
        if !inUse(lastPort) {
          return Ok(lastPort);
        }
      }
    }
  }
}
