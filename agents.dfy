/** The decision logic of the agent-management handlers
    (src/dojo/api/endpoints/agent_management.py).

    Subprocesses (`git`, `pip`), the filesystem and the package metadata are
    not run: their outcomes are inputs. URL parsing and rendering are
    uninterpreted functions. */
module AgentManagement {
  import opened Outcomes

  /** One installed agent module; equality is field by field, as for a
      Python dataclass. */
  datatype PackageEntry = PackageEntry(
    moduleName: string,
    packageName: string,
    packageVersion: string,
    editable: bool,
    codePath: string,
    gitRepo: bool)

  datatype AgentMethod = Git | PyPI

  /** The body of an add request. `editable` is read by the handler but is not
      a declared field of the request schema: `None` stands for the attribute
      being absent. An absent `user` or `access_token` reads as "". */
  datatype AgentAddition = AgentAddition(
    agentMethod: AgentMethod,
    path: string,
    user: string := "",
    accessToken: string := "",
    editable: Option<bool> := None)

  /** The body of a remove request. */
  datatype AgentRemoval = AgentRemoval(name: string, deleteCode: bool := false, force: bool := false)

  /** The library functions the handler applies to paths and URLs. */
  datatype UrlLibrary = UrlLibrary(
    normpath: string -> string,
    unparse: seq<string> -> string,     // urlunparse of the six URL components
    toPathname: string -> string)       // url2pathname

  /** A side effect a handler asks of the host. */
  datatype Effect = MakeDirectory(path: string) | Command(argv: seq<string>) | RemoveTree(path: string)

  // ---------------------------------------------------------------------------
  // Credentials in the network location

  const DefaultUser := "__user"

  /** The network location after credential injection: a non-empty location
      without '@' gets `user:token@` in front when a token is given, with a
      default user name when none is given; any other location is kept. */
  function WithCredentials(netloc: string, user: string, token: string): (r: string)
    ensures netloc == "" || '@' in netloc || token == "" ==> r == netloc
    ensures netloc != "" && '@' !in netloc && token != "" ==>
              r == (if user == "" then DefaultUser else user) + ":" + token + "@" + netloc
  {
    if netloc != "" && '@' !in netloc && token != "" then
      (if user == "" then DefaultUser else user) + ":" + token + "@" + netloc
    else netloc
  }

  /** The part of a network location after its last '@': the host and port. */
  function HostPart(s: string): (r: string)
    ensures '@' !in r
    ensures |r| <= |s| && r == s[|s| - |r|..]
  {
    if s == [] then []
    else if s[|s| - 1] == '@' then []
    else HostPart(s[..|s| - 1]) + [s[|s| - 1]]
  }

  /** The part of a network location before its last '@', if it has one. */
  function UserInfo(s: string): (r: Option<string>)
    ensures r.Some? ==> |r.value| + 1 + |HostPart(s)| == |s| && s == r.value + "@" + HostPart(s)
    ensures r.None? <==> '@' !in s
  {
    var h := HostPart(s);
    if |h| == |s| then
      assert s == h;
      None
    else
      var u := s[..|s| - |h| - 1];
      assert s[|s| - |h| - 1] == '@' by { HostPartStopsAtAt(s); }
      assert s == u + "@" + h;
      Some(u)
  }

  lemma {:induction false} HostPartStopsAtAt(s: string)
    ensures |HostPart(s)| < |s| ==> s[|s| - |HostPart(s)| - 1] == '@'
    ensures |HostPart(s)| == |s| ==> '@' !in s
  {
    if s != [] && s[|s| - 1] != '@' {
      var p := s[..|s| - 1];
      var c := s[|s| - 1];
      HostPartStopsAtAt(p);
      var h := HostPart(p);
      assert HostPart(s) == h + [c];
      if |h| < |p| {
        assert s[|s| - |HostPart(s)| - 1] == p[|p| - |h| - 1];
      } else {
        assert s == p + [c];
      }
    }
  }

  lemma {:induction false} HostPartAfterAt(prefix: string, host: string)
    requires '@' !in host
    ensures HostPart(prefix + "@" + host) == host
    decreases |host|
  {
    var s := prefix + "@" + host;
    if host == [] {
      assert s[|s| - 1] == '@';
    } else {
      var h := host[..|host| - 1];
      var c := host[|host| - 1];
      assert host == h + [c];
      assert s == (prefix + "@" + h) + [c];
      assert s[..|s| - 1] == prefix + "@" + h && s[|s| - 1] == c != '@';
      HostPartAfterAt(prefix, h);
    }
  }

  lemma {:induction false} HostPartWithoutAt(s: string)
    requires '@' !in s
    ensures HostPart(s) == s
    decreases |s|
  {
    if s != [] {
      HostPartWithoutAt(s[..|s| - 1]);
      assert s == s[..|s| - 1] + [s[|s| - 1]];
    }
  }

  /** A location written `userinfo@host`, with no '@' in the host, splits
      back into the two. */
  lemma SplitAtLastAt(userinfo: string, host: string)
    requires '@' !in host
    ensures HostPart(userinfo + "@" + host) == host
    ensures UserInfo(userinfo + "@" + host) == Some(userinfo)
  {
    HostPartAfterAt(userinfo, host);
    var s := userinfo + "@" + host;
    assert s[..|s| - |host| - 1] == userinfo;
  }

  /** Injection never changes the host: the part after the last '@' is the
      same before and after, and an injected location splits back into the
      credentials and the original location. */
  lemma CredentialsKeepHost(netloc: string, user: string, token: string)
    ensures HostPart(WithCredentials(netloc, user, token)) == HostPart(netloc)
    ensures netloc != "" && '@' !in netloc && token != "" ==>
              UserInfo(WithCredentials(netloc, user, token))
                == Some((if user == "" then DefaultUser else user) + ":" + token)
  {
    if netloc != "" && '@' !in netloc && token != "" {
      var u := (if user == "" then DefaultUser else user) + ":" + token;
      SplitAtLastAt(u, netloc);
      HostPartWithoutAt(netloc);
    }
  }

  /** Injecting the same credentials twice changes nothing, and a location
      that got credentials keeps them whatever is injected next. */
  lemma CredentialsIdempotent(netloc: string, user: string, token: string, user2: string, token2: string)
    ensures WithCredentials(WithCredentials(netloc, user, token), user, token) == WithCredentials(netloc, user, token)
    ensures var once := WithCredentials(netloc, user, token);
      once != netloc ==> WithCredentials(once, user2, token2) == once
  {
  }

  // ---------------------------------------------------------------------------
  // Where the code goes, and how it is installed

  /** `os.path.basename`: the longest suffix without '/'. */
  function Basename(p: string): (r: string)
    ensures '/' !in r
    ensures |r| <= |p| && r == p[|p| - |r|..]
    ensures |r| < |p| ==> p[|p| - |r| - 1] == '/'
  {
    if p == [] then []
    else if p[|p| - 1] == '/' then []
    else Basename(p[..|p| - 1]) + [p[|p| - 1]]
  }

  /** The directory a remote agent is cloned into: the last segment of the
      normalised URL path, under "agents/". */
  function CloneDirectory(lib: UrlLibrary, urlPath: string): string {
    "agents/" + Basename(lib.normpath(urlPath))
  }

  /** The install command line: "-e" exactly for an editable install. */
  function PipInstallCommand(editable: bool, localPath: string): seq<string> {
    ["pip", "install"] + (if editable then ["-e"] else []) + [localPath]
  }

  /** The pip command line, built by appends. */
  method BuildPipCommand(editable: bool, localPath: string) returns (cmd: seq<string>)
    ensures cmd == PipInstallCommand(editable, localPath)
    ensures |cmd| == if editable then 4 else 3
    ensures cmd[..2] == ["pip", "install"]
    ensures cmd[|cmd| - 1] == localPath
    ensures editable ==> cmd[2] == "-e"
  {
    cmd := ["pip", "install"];
    if editable {
      cmd := cmd + ["-e"];
    }
    cmd := cmd + [localPath];
  }

  // ---------------------------------------------------------------------------
  // The packages an installation added

  /** The entries of `current` left once each is paired, in order, with an
      equal entry of `previous` not paired before. */
  function Unmatched(current: seq<PackageEntry>, previous: multiset<PackageEntry>): seq<PackageEntry> {
    if current == [] then []
    else if current[0] in previous then Unmatched(current[1..], previous - multiset{current[0]})
    else [current[0]] + Unmatched(current[1..], previous)
  }

  /** `s` is `t` with some entries dropped, the rest in their order. */
  predicate Subsequence<T(==)>(s: seq<T>, t: seq<T>)
    decreases |t|
  {
    if s == [] then true
    else if t == [] then false
    else (s[0] == t[0] && Subsequence(s[1..], t[1..])) || Subsequence(s, t[1..])
  }

  /** The unmatched entries are the multiset difference of the listings. */
  lemma {:induction false} UnmatchedIsDifference(current: seq<PackageEntry>, previous: multiset<PackageEntry>)
    ensures multiset(Unmatched(current, previous)) == multiset(current) - previous
    decreases |current|
  {
    if current != [] {
      var x := current[0];
      assert current == [x] + current[1..];
      if x in previous {
        UnmatchedIsDifference(current[1..], previous - multiset{x});
      } else {
        UnmatchedIsDifference(current[1..], previous);
      }
    }
  }

  /** The unmatched entries keep the order of the new listing. */
  lemma {:induction false} UnmatchedKeepsOrder(current: seq<PackageEntry>, previous: multiset<PackageEntry>)
    ensures Subsequence(Unmatched(current, previous), current)
    decreases |current|
  {
    if current != [] {
      var rest := current[1..];
      if current[0] in previous {
        UnmatchedKeepsOrder(rest, previous - multiset{current[0]});
        SubsequenceSkip(Unmatched(rest, previous - multiset{current[0]}), current);
      } else {
        UnmatchedKeepsOrder(rest, previous);
        var u := Unmatched(current, previous);
        assert u[0] == current[0] && u[1..] == Unmatched(rest, previous);
      }
    }
  }

  lemma {:induction false} SubsequenceSkip<T>(s: seq<T>, t: seq<T>)
    requires t != [] && Subsequence(s, t[1..])
    ensures Subsequence(s, t)
  {
  }

  /** When the listing did not change, nothing is new. */
  lemma UnmatchedOfSame(current: seq<PackageEntry>)
    ensures Unmatched(current, multiset(current)) == []
  {
    UnmatchedIsDifference(current, multiset(current));
  }

  /** The multiset of the entries still unmarked. */
  function Remaining(slots: seq<Option<PackageEntry>>): multiset<PackageEntry> {
    if slots == [] then multiset{} else Remaining(slots[..|slots| - 1]) + Held(slots[|slots| - 1])
  }

  /** The entry a slot still holds, as a multiset. */
  function Held(slot: Option<PackageEntry>): multiset<PackageEntry> {
    if slot.Some? then multiset{slot.value} else multiset{}
  }

  lemma {:induction false} RemainingOfAll(previous: seq<PackageEntry>, slots: seq<Option<PackageEntry>>)
    requires |slots| == |previous|
    requires forall i :: 0 <= i < |slots| ==> slots[i] == Some(previous[i])
    ensures Remaining(slots) == multiset(previous)
    decreases |slots|
  {
    if slots != [] {
      var n := |slots| - 1;
      RemainingOfAll(previous[..n], slots[..n]);
      assert previous == previous[..n] + [previous[n]];
    }
  }

  /** Marking an entry takes exactly that entry out of the unmarked ones. */
  lemma {:induction false} RemainingMark(slots: seq<Option<PackageEntry>>, j: nat)
    requires j < |slots| && slots[j].Some?
    ensures Remaining(slots) == Remaining(slots[j := None]) + multiset{slots[j].value}
    decreases |slots|
  {
    var n := |slots| - 1;
    if j < n {
      assert slots[..n][j] == slots[j];
      RemainingMark(slots[..n], j);
      RemainingMarkEarlier(slots, j);
    } else {
      RemainingMarkLast(slots);
    }
  }

  lemma RemainingMarkLast(slots: seq<Option<PackageEntry>>)
    requires |slots| > 0 && slots[|slots| - 1].Some?
    ensures Remaining(slots) == Remaining(slots[|slots| - 1 := None]) + multiset{slots[|slots| - 1].value}
  {
    var n := |slots| - 1;
    assert slots[n := None][..n] == slots[..n];
  }

  lemma RemainingMarkEarlier(slots: seq<Option<PackageEntry>>, j: nat)
    requires j < |slots| - 1 && slots[j].Some?
    requires Remaining(slots[..|slots| - 1]) == Remaining(slots[..|slots| - 1][j := None]) + multiset{slots[j].value}
    ensures Remaining(slots) == Remaining(slots[j := None]) + multiset{slots[j].value}
  {
    var n := |slots| - 1;
    var marked := slots[j := None];
    assert marked[..n] == slots[..n][j := None];
    assert marked[n] == slots[n];
  }

  lemma {:induction false} RemainingAbsent(slots: seq<Option<PackageEntry>>, x: PackageEntry)
    requires forall k :: 0 <= k < |slots| ==> slots[k] != Some(x)
    ensures x !in Remaining(slots)
    decreases |slots|
  {
    if slots != [] {
      RemainingAbsent(slots[..|slots| - 1], x);
    }
  }

  /** One step of the diff: the first new entry either uses up an equal
      unmarked old entry or is kept. */
  lemma UnmatchedStep(current: seq<PackageEntry>, n: nat, previous: multiset<PackageEntry>)
    requires n < |current|
    ensures current[n] in previous ==>
              Unmatched(current[n..], previous) == Unmatched(current[n + 1..], previous - multiset{current[n]})
    ensures current[n] !in previous ==>
              Unmatched(current[n..], previous) == [current[n]] + Unmatched(current[n + 1..], previous)
  {
    assert current[n..][0] == current[n] && current[n..][1..] == current[n + 1..];
  }

  /** The inner loop of the diff: mark the first unmarked old entry equal to
      `pkg`, if there is one. */
  method MarkFirst(slots: array<Option<PackageEntry>>, pkg: PackageEntry) returns (identical: bool, ghost index: nat)
    modifies slots
    ensures identical ==> index < slots.Length && old(slots[index]) == Some(pkg)
                          && slots[..] == old(slots[..])[index := None]
                          && forall k :: 0 <= k < index ==> old(slots[k]) != Some(pkg)
    ensures !identical ==> slots[..] == old(slots[..]) && forall k :: 0 <= k < slots.Length ==> slots[k] != Some(pkg)
  {
    identical := false;
    var i := 0;
    index := 0;
    while i < slots.Length
      invariant 0 <= i <= slots.Length
      invariant slots[..] == old(slots[..])
      invariant forall k :: 0 <= k < i ==> slots[k] != Some(pkg)
    {
      if slots[i].Some? && slots[i].value == pkg {
        identical := true;
        slots[i] := None;
        index := i;
        return;
      }
      i := i + 1;
    }
  }

  /** The outer loop's invariant survives one new entry. */
  lemma DiffStep(result: seq<PackageEntry>, current: seq<PackageEntry>, n: nat,
                 before: seq<Option<PackageEntry>>, after: seq<Option<PackageEntry>>, identical: bool, index: nat)
    requires n < |current|
    requires identical ==> index < |before| && before[index] == Some(current[n]) && after == before[index := None]
    requires !identical ==> after == before && forall k :: 0 <= k < |before| ==> before[k] != Some(current[n])
    ensures result + Unmatched(current[n..], Remaining(before))
            == (if identical then result else result + [current[n]]) + Unmatched(current[n + 1..], Remaining(after))
  {
    UnmatchedStep(current, n, Remaining(before));
    if identical {
      RemainingMark(before, index);
      assert Remaining(before) - multiset{current[n]} == Remaining(after);
    } else {
      RemainingAbsent(before, current[n]);
      var rest := Unmatched(current[n + 1..], Remaining(before));
      assert result + ([current[n]] + rest) == (result + [current[n]]) + rest;
    }
  }

  /** A fresh array holding every old entry, none of them marked yet. */
  method Unmarked(previous: seq<PackageEntry>) returns (slots: array<Option<PackageEntry>>)
    ensures fresh(slots) && Remaining(slots[..]) == multiset(previous)
  {
    slots := new Option<PackageEntry>[|previous|](i requires 0 <= i < |previous| => Some(previous[i]));
    RemainingOfAll(previous, slots[..]);
  }

  /** The new-package diff of `add_agent`: each new entry is matched with the
      first equal, unmarked old entry, which is then marked; unmatched new
      entries are kept, in order. */
  method NewPackages(current: seq<PackageEntry>, previous: seq<PackageEntry>) returns (result: seq<PackageEntry>)
    ensures result == Unmatched(current, multiset(previous))
  {
    var slots := Unmarked(previous);
    result := [];
    var n := 0;
    assert current[n..] == current;
    while n < |current|
      invariant 0 <= n <= |current|
      invariant result + Unmatched(current[n..], Remaining(slots[..])) == Unmatched(current, multiset(previous))
    {
      var pkg := current[n];
      ghost var before := slots[..];
      var identical, index := MarkFirst(slots, pkg);
      DiffStep(result, current, n, before, slots[..], identical, index);
      if !identical {
        result := result + [pkg];
      }
      n := n + 1;
    }
    assert current[n..] == [];
  }

  // ---------------------------------------------------------------------------
  // Adding an agent

  /** What the host reports while an agent is added. */
  datatype AddHost = AddHost(
    agentsDirExists: bool,
    mkdirError: Option<string>,   // the reason `os.mkdir` raised, if it did
    cloneStatus: int,
    cloneStderr: string,
    localPathExists: bool,
    oldPackages: seq<PackageEntry>,
    pipStatus: int,
    pipStderr: string,
    newPackages: seq<PackageEntry>)

  /** The URL components with credentials injected into the network location. */
  function WithCredentialsIn(agent: AgentAddition, parts: seq<string>): (r: seq<string>)
    requires |parts| == 6
    ensures |r| == 6 && r[1] == WithCredentials(parts[1], agent.user, agent.accessToken)
    ensures forall i :: 0 <= i < 6 && i != 1 ==> r[i] == parts[i]
  {
    parts[1 := WithCredentials(parts[1], agent.user, agent.accessToken)]
  }

  /** The clone command for a remote path. */
  function CloneCommand(lib: UrlLibrary, agent: AgentAddition, parts: seq<string>): seq<string>
    requires |parts| == 6
  {
    ["git", "clone", lib.unparse(WithCredentialsIn(agent, parts)), CloneDirectory(lib, parts[2])]
  }

  /** The path the handler installs from. */
  function LocalPath(lib: UrlLibrary, parts: seq<string>): string
    requires |parts| == 6
  {
    if parts[1] != "" then CloneDirectory(lib, parts[2]) else lib.toPathname(lib.unparse(parts))
  }

  /** Whether the code is on disk once the path has been handled: a remote
      path was cloned (after "agents" was found or made), a local one exists. */
  predicate Fetched(parts: seq<string>, host: AddHost)
    requires |parts| == 6
  {
    if parts[1] != "" then (host.agentsDirExists || host.mkdirError.None?) && host.cloneStatus == 0
    else host.localPathExists
  }

  /** What handling the path does to the host: for a remote path, make the
      "agents" directory when it is missing and, unless that fails, clone. */
  function FetchEffects(agent: AgentAddition, parts: seq<string>, lib: UrlLibrary, host: AddHost): seq<Effect>
    requires |parts| == 6
  {
    if parts[1] == "" then []
    else
      (if host.agentsDirExists then [] else [MakeDirectory("agents")])
      + (if host.agentsDirExists || host.mkdirError.None? then [Command(CloneCommand(lib, agent, parts))] else [])
  }

  /** The error handling the path raises when the code does not get on disk:
      a missing local path, a failed mkdir, or a failed clone. */
  function FetchFault(agent: AgentAddition, parts: seq<string>, lib: UrlLibrary, host: AddHost): Fault
    requires |parts| == 6
  {
    if parts[1] == "" then
      HttpError(409, "Required path does not exist '" + lib.toPathname(lib.unparse(parts)) + "'.")
    else if !host.agentsDirExists && host.mkdirError.Some? then
      HttpError(409, "Failed to create a directory for agent addition. Reason: " + host.mkdirError.value)
    else
      HttpError(409, "Failed to clone the repository at address '" + lib.unparse(WithCredentialsIn(agent, parts))
                     + "'. Reason: " + host.cloneStderr)
  }

  /** The remote branch of `add_agent`: make sure "agents" exists, then clone
      into "agents/<last path segment>" with credentials injected. */
  method CloneRemote(agent: AgentAddition, parts: seq<string>, lib: UrlLibrary, host: AddHost)
    returns (r: Result<string>, effects: seq<Effect>)
    requires |parts| == 6 && parts[1] != ""
    ensures r.Ok? <==> (host.agentsDirExists || host.mkdirError.None?) && host.cloneStatus == 0
    ensures r.Ok? ==> r.value == LocalPath(lib, parts)
    ensures r.Err? ==> r == Err(FetchFault(agent, parts, lib, host))
    ensures effects == FetchEffects(agent, parts, lib, host)
  {
    var urlPath := parts;
    urlPath := urlPath[1 := WithCredentials(urlPath[1], agent.user, agent.accessToken)];
    assert urlPath == WithCredentialsIn(agent, parts);
    effects := [];
    if !host.agentsDirExists {
      effects := effects + [MakeDirectory("agents")];
      if host.mkdirError.Some? {
        r := Err(HttpError(409, "Failed to create a directory for agent addition. Reason: " + host.mkdirError.value));
        return;
      }
    }
    var agentPath := Basename(lib.normpath(urlPath[2]));
    var finalUrl := lib.unparse(urlPath);
    effects := effects + [Command(["git", "clone", finalUrl, "agents/" + agentPath])];
    if host.cloneStatus != 0 {
      r := Err(HttpError(409, "Failed to clone the repository at address '" + finalUrl + "'. Reason: " + host.cloneStderr));
      return;
    }
    r := Ok("agents/" + agentPath);
  }

  /** The first half of `add_agent`: bring a remote path's code onto the
      disk, or check that a local path exists; either way, the path to
      install from. */
  method LocateCode(agent: AgentAddition, parts: seq<string>, lib: UrlLibrary, host: AddHost)
    returns (r: Result<string>, effects: seq<Effect>)
    requires |parts| == 6
    ensures r.Ok? <==> Fetched(parts, host)
    ensures r.Ok? ==> r.value == LocalPath(lib, parts)
    ensures r.Err? ==> r == Err(FetchFault(agent, parts, lib, host))
    ensures effects == FetchEffects(agent, parts, lib, host)
  {
    if parts[1] != "" {
      r, effects := CloneRemote(agent, parts, lib, host);
      return;
    }
    effects := [];
    var localPath := lib.toPathname(lib.unparse(parts));
    if !host.localPathExists {
      r := Err(HttpError(409, "Required path does not exist '" + localPath + "'."));
      return;
    }
    r := Ok(localPath);
  }

  /** `add_agent`, given the six components `urlparse` makes of the path.
      A remote path (non-empty network location) gets credentials and is
      cloned under "agents/"; a local path must exist. The code is then
      installed and the packages that appeared are returned. */
  method AddAgent(agent: AgentAddition, parts: seq<string>, lib: UrlLibrary, host: AddHost)
    returns (r: Result<seq<PackageEntry>>, effects: seq<Effect>)
    requires |parts| == 6
    ensures r.Ok? <==> Fetched(parts, host) && agent.editable.Some? && host.pipStatus == 0
    ensures r.Ok? ==> r.value == Unmatched(host.newPackages, multiset(host.oldPackages))
    ensures !Fetched(parts, host) ==> r == Err(FetchFault(agent, parts, lib, host))
    ensures Fetched(parts, host) && agent.editable.None? ==> r == Err(AttributeError("editable"))
    ensures Fetched(parts, host) && agent.editable.Some? && host.pipStatus != 0 ==>
              r == Err(HttpError(409, "Failed to install the required agent. Reason: '" + host.pipStderr + "'."))
    ensures effects ==
              FetchEffects(agent, parts, lib, host)
              + (if Fetched(parts, host) && agent.editable.Some?
                 then [Command(PipInstallCommand(agent.editable.value, LocalPath(lib, parts)))]
                 else [])
  {
    var located;
    located, effects := LocateCode(agent, parts, lib, host);
    if located.Err? {
      r := Err(located.fault);
      return;
    }
    if agent.editable.None? {
      r := Err(AttributeError("editable"));
      return;
    }
    var pipCommand := BuildPipCommand(agent.editable.value, located.value);
    effects := effects + [Command(pipCommand)];
    if host.pipStatus != 0 {
      r := Err(HttpError(409, "Failed to install the required agent. Reason: '" + host.pipStderr + "'."));
      return;
    }
    var added := NewPackages(host.newPackages, host.oldPackages);
    r := Ok(added);
  }

  // ---------------------------------------------------------------------------
  // Removing an agent

  /** The module names of a package, in listing order. */
  function ModulesOf(agents: seq<PackageEntry>, package: string): seq<string> {
    if agents == [] then []
    else
      var last := agents[|agents| - 1];
      ModulesOf(agents[..|agents| - 1], package) + (if last.packageName == package then [last.moduleName] else [])
  }

  /** The package names that occur in a listing. */
  function PackagesOf(agents: seq<PackageEntry>): set<string> {
    if agents == [] then {} else PackagesOf(agents[..|agents| - 1]) + {agents[|agents| - 1].packageName}
  }

  /** The last entry with the given module name, if any. */
  function LastWithModule(agents: seq<PackageEntry>, name: string): Option<PackageEntry> {
    if agents == [] then None
    else if agents[|agents| - 1].moduleName == name then Some(agents[|agents| - 1])
    else LastWithModule(agents[..|agents| - 1], name)
  }

  /** A package's module list holds exactly the module names listed under it,
      and a package occurs in the listing exactly when that list is not empty. */
  lemma {:induction false} ModulesOfListsPackage(agents: seq<PackageEntry>, package: string)
    ensures forall m :: m in ModulesOf(agents, package) <==>
              exists a :: a in agents && a.packageName == package && a.moduleName == m
    ensures package in PackagesOf(agents) <==> ModulesOf(agents, package) != []
    decreases |agents|
  {
    if agents != [] {
      var rest := agents[..|agents| - 1];
      var last := agents[|agents| - 1];
      assert agents == rest + [last];
      ModulesOfListsPackage(rest, package);
    }
  }

  /** The module picked for removal is the last entry with that module name;
      there is none exactly when no entry has it. */
  lemma {:induction false} LastWithModuleIsLast(agents: seq<PackageEntry>, name: string)
    ensures LastWithModule(agents, name).None? <==> forall a :: a in agents ==> a.moduleName != name
    ensures LastWithModule(agents, name).Some? ==>
              exists i :: 0 <= i < |agents| && agents[i] == LastWithModule(agents, name).value
                && agents[i].moduleName == name
                && forall j :: i < j < |agents| ==> agents[j].moduleName != name
    decreases |agents|
  {
    if agents != [] {
      var rest := agents[..|agents| - 1];
      var last := agents[|agents| - 1];
      assert agents == rest + [last];
      LastWithModuleIsLast(rest, name);
      if last.moduleName == name {
        assert agents[|agents| - 1] == last;
      } else if LastWithModule(rest, name).Some? {
        var i :| 0 <= i < |rest| && rest[i] == LastWithModule(rest, name).value && rest[i].moduleName == name
                 && forall j :: i < j < |rest| ==> rest[j].moduleName != name;
        assert agents[i] == rest[i];
      }
    }
  }

  lemma GroupStep(agents: seq<PackageEntry>, i: nat, name: string)
    requires i < |agents|
    ensures forall p :: ModulesOf(agents[..i + 1], p)
              == ModulesOf(agents[..i], p) + (if agents[i].packageName == p then [agents[i].moduleName] else [])
    ensures PackagesOf(agents[..i + 1]) == PackagesOf(agents[..i]) + {agents[i].packageName}
    ensures LastWithModule(agents[..i + 1], name)
              == if agents[i].moduleName == name then Some(agents[i]) else LastWithModule(agents[..i], name)
  {
    assert agents[..i + 1][..i] == agents[..i];
  }

  /** The loop of `remove_agent` that fills `by_package` and picks the module
      to remove. */
  method GroupByPackage(agents: seq<PackageEntry>, name: string)
    returns (byPackage: map<string, seq<string>>, target: Option<PackageEntry>)
    ensures byPackage.Keys == PackagesOf(agents)
    ensures forall p :: p in byPackage ==> byPackage[p] == ModulesOf(agents, p)
    ensures target == LastWithModule(agents, name)
  {
    byPackage := map[];
    target := None;
    var i := 0;
    while i < |agents|
      invariant 0 <= i <= |agents|
      invariant byPackage.Keys == PackagesOf(agents[..i])
      invariant forall p :: p in byPackage ==> byPackage[p] == ModulesOf(agents[..i], p)
      invariant target == LastWithModule(agents[..i], name)
    {
      var agent := agents[i];
      GroupStep(agents, i, name);
      if agent.packageName !in byPackage {
        ModulesOfListsPackage(agents[..i], agent.packageName);
        byPackage := byPackage[agent.packageName := []];
      }
      if agent.moduleName == name {
        target := Some(agent);
      }
      byPackage := byPackage[agent.packageName := byPackage[agent.packageName] + [agent.moduleName]];
      i := i + 1;
    }
    assert agents[..i] == agents;
  }

  /** The dictionary `remove_agent` answers with: `success` False with a
      reason, or True with a message. */
  datatype RemovalReply = Refused(reason: string) | Removed(message: string)
  {
    function Success(): bool { Removed? }
  }

  /** What the host reports while an agent is removed. */
  datatype RemoveHost = RemoveHost(agents: seq<PackageEntry>, uninstallStatus: int, uninstallStderr: string)

  function UninstallCommand(package: string): seq<string> {
    ["pip", "uninstall", "-y", package]
  }

  /** The package of the module picked for removal is in the grouping, with
      that module among its modules. */
  lemma TargetIsGrouped(agents: seq<PackageEntry>, name: string)
    requires LastWithModule(agents, name).Some?
    ensures var t := LastWithModule(agents, name).value;
      t.packageName in PackagesOf(agents) && t.moduleName in ModulesOf(agents, t.packageName)
  {
  }

  /** Whether removal gets past both guards: several modules in the package
      need `force`, and so does code deletion. */
  predicate Permitted(removal: AgentRemoval, agents: seq<PackageEntry>, t: PackageEntry) {
    && (|ModulesOf(agents, t.packageName)| <= 1 || removal.force)
    && (!removal.deleteCode || removal.force)
  }

  /** What removing `t` does to the host: uninstall its package once both
      guards pass, then delete its code when asked to, the uninstall
      succeeded and it has a code path. */
  function RemovalEffects(removal: AgentRemoval, host: RemoveHost, t: PackageEntry): seq<Effect> {
    if !Permitted(removal, host.agents, t) then []
    else
      [Command(UninstallCommand(t.packageName))]
      + (if host.uninstallStatus == 0 && removal.deleteCode && t.codePath != "" then [RemoveTree(t.codePath)] else [])
  }

  /** The reason given when the package has other modules and `force` is not set. */
  function SharedPackageReason(t: PackageEntry): string {
    "More then one module in the package '" + t.packageName + "', parent package of module '"
    + t.moduleName + "'. Use the 'force' parameter to proceed with removal."
  }

  /** The message of a successful removal, with or without deleted code. */
  function RemovedMessage(t: PackageEntry, codeDeleted: bool): string {
    if codeDeleted then
      "Module '" + t.moduleName + "' in the package '" + t.packageName
      + "' was removed including the code at '" + t.codePath + "'."
    else "Module '" + t.moduleName + "' in the package '" + t.packageName + "' was removed."
  }

  /** `remove_agent`. No matching module fails before anything is run; a
      package with several modules needs `force`, and that is checked before
      code deletion, which also needs `force`; the package is uninstalled and
      the code removed only when `delete_code` is set and the entry has a code
      path. */
  method RemoveAgent(removal: AgentRemoval, host: RemoveHost) returns (r: Result<RemovalReply>, effects: seq<Effect>)
    ensures LastWithModule(host.agents, removal.name).None? ==>
              r == Err(AttributeError("package_name")) && effects == []
    ensures LastWithModule(host.agents, removal.name).Some? ==>
              var t := LastWithModule(host.agents, removal.name).value;
              && effects == RemovalEffects(removal, host, t)
              && (|ModulesOf(host.agents, t.packageName)| > 1 && !removal.force ==> r == Ok(Refused(SharedPackageReason(t))))
              && (|ModulesOf(host.agents, t.packageName)| <= 1 && removal.deleteCode && !removal.force ==>
                    r == Ok(Refused("Code deletion requires forcing.")))
              && (Permitted(removal, host.agents, t) ==>
                    if host.uninstallStatus == 0
                    then r == Ok(Removed(RemovedMessage(t, removal.deleteCode && t.codePath != "")))
                    else r == Err(HttpError(409, "Failed to uninstall the required agent. Reason: '" + host.uninstallStderr + "'.")))
    ensures r.Ok? && r.value.Success() ==> host.uninstallStatus == 0 && |effects| > 0
    ensures removal.deleteCode && !removal.force ==> !(r.Ok? && r.value.Success())
  {
    var byPackage, target := GroupByPackage(host.agents, removal.name);
    effects := [];
    if target.None? {
      r := Err(AttributeError("package_name"));
      return;
    }
    var t := target.value;
    TargetIsGrouped(host.agents, removal.name);
    if |byPackage[t.packageName]| > 1 && !removal.force {
      r := Ok(Refused(SharedPackageReason(t)));
      return;
    }
    if removal.deleteCode && !removal.force {
      r := Ok(Refused("Code deletion requires forcing."));
      return;
    }
    effects := effects + [Command(UninstallCommand(t.packageName))];
    if host.uninstallStatus != 0 {
      r := Err(HttpError(409, "Failed to uninstall the required agent. Reason: '" + host.uninstallStderr + "'."));
      return;
    }
    if removal.deleteCode && t.codePath != "" {
      effects := effects + [RemoveTree(t.codePath)];
      r := Ok(Removed(RemovedMessage(t, true)));
    } else {
      r := Ok(Removed(RemovedMessage(t, false)));
    }
  }
}
