# AI-Dojo control plane: a Dafny model

This project models the core of the AI-Dojo control plane. The control plane is a FastAPI service that:
- starts one worker process per simulation environment;
- drives each worker over a pipe with a small set of control actions;
- installs and removes agent packages;
- finds free ports and configuration files for the environments.

The project has five files:

- `outcomes.dfy` (module `Outcomes`): optional values, and the exceptions the handlers raise (`Fault`). The exceptions are carried in a `Result` instead of being thrown.
- `controller.dfy` (module `Controller`) covers `src/dojo/controller.py`:
  - The action vocabulary and the engine states.
  - `Dispatch`, the worker's `match`. It calls one control operation of the engine, which is modelled as an uninterpreted function from action and state to reply and next state.
  - `CheckReply`, the reply check of `perform_action`.
  - The worker loop. `Serve` is its specification, a fold of `Receive` over the messages sent; `Loop` is the `while True` loop proved against it.
  - `EnvironmentWrapper`, a class. Its fields are the two pipe logs (messages sent, replies received) and the worker's state. Its invariant `Valid` ties those fields to `Serve`.
- `registry.dfy` (module `CystEnvironment`) covers `src/dojo/api/endpoints/cyst_environment.py`: the class `Registry` over the `environments` dictionary, and every HTTP handler as a method.
- `agents.dfy` (module `AgentManagement`) covers `src/dojo/api/endpoints/agent_management.py`:
  - Credential injection into the network location.
  - The clone directory and the pip command lines.
  - The new-package diff. It is an array-marking loop, proved equal to a specification `Unmatched`, and `Unmatched` is proved to be the multiset difference and to keep order.
  - Grouping modules by package, and the `add_agent` and `remove_agent` handlers.
  - Subprocess and filesystem outcomes are inputs (`AddHost`, `RemoveHost`). What the handler asks of the host is returned as a list of `Effect`s.
- `util.dfy` (module `Util`) covers `src/dojo/lib/util.py`:
  - The configuration paths, joined as pathlib joins them.
  - Regenerating, ensuring and reading the JSON configuration, over a filesystem held as a map.
  - The port allocator. It is a class holding the module-level counter; its loop is proved against the function `Allocate`.

Behaviour of the code that the model keeps:
- The action enumeration has no `CONFIGURE`. The `configure` handler looks the name up and then raises `AttributeError` before sending anything.
- The wrapper only ever sends an action or `None` down the pipe.
- The worker loop ends after the first falsy reply it sends. That reply is either the `None` it answers to the `None` that `close` sends, or a falsy value returned by an engine call. The model leaves the engine's return values open, so any control action may end the loop.
- `start` only launches the worker process. The worker replies with the engine's raw return values.
- If creating or configuring the engine raises, the worker never enters its loop and never replies.
- Every control action, COMMIT included, is forwarded to the engine whatever the engine's state.
- `create` reads `env.name`, but the request schema declares `id`. `add_agent` reads `agent.editable`, which the request schema does not declare. Both reads are modelled as an `Option` whose `None` gives `AttributeError`.
- A request to a worker that has left its loop gets no answer: the parent still holds the child's end of the pipe, so `recv` blocks. The model returns `Err(NoReply)` for it, and the request is logged but changes nothing else.
- Past port 65535 the socket probe raises `OverflowError`. So the allocator's `while True` loop always ends, either with a port or with that error.
- A configuration name is joined with pathlib, which splits it at '/', drops empty and "." pieces, and lets an absolute name replace the configurations directory. So "a/b" and "a//b" name the same file.

## Model

| member | source | states |
|---|---|---|
| Controller.Dispatch | src/dojo/controller.py:50-66 | every control action other than GET_STATE makes exactly the one same-named engine call and returns its reply and next state; GET_STATE makes no call, keeps the state and answers the state's name; `None` is answered with `None` and changes nothing |
| Controller.CheckReply | src/dojo/controller.py:36-38 | the reply becomes a 409 error carrying the state's name exactly when it is a pair whose success flag is false; every other reply, `None` included, is returned unchanged |
| Controller.ServeReplies | src/dojo/controller.py:48-70 | every reachable worker history obeys the exit rule (a reply is truthy exactly when another followed it or the loop still runs), at most one reply per message, earlier replies never change, and while the loop runs there is exactly one reply per message |
| Controller.ServeConcat | src/dojo/controller.py:48-70 | feeding the worker two batches of messages one after the other is the same as feeding it both at once |
| Controller.ServeIdle | src/dojo/controller.py:69-70 | once the loop has been left, further messages change nothing |
| Controller.Loop | src/dojo/controller.py:44-70 | the loop's result is the specification `Serve` of the messages received; it consumes one message per reply, all of them while it keeps running; the last reply is falsy exactly when it stopped, all earlier ones are truthy; the engine calls made are the control actions of the consumed messages, in order |
| Controller.EnvironmentWrapper.constructor | src/dojo/controller.py:22-29 | a new wrapper holds its name, platform and configuration, has sent nothing, is not started, and satisfies its invariant |
| Controller.EnvironmentWrapper.Start | src/dojo/controller.py:40-41 | starting marks the worker started and changes nothing else |
| Controller.EnvironmentWrapper.PerformAction | src/dojo/controller.py:31-38 | the message is appended to the pipe; a running worker appends the dispatched reply, moves to the dispatched state, keeps running exactly when the reply is truthy, and the caller gets `CheckReply` of that reply; a stopped worker never answers (`NoReply`) and its state is untouched; the invariant is preserved |
| CystEnvironment.Registry.constructor | src/dojo/controller.py:73 | the registry starts empty and valid |
| CystEnvironment.Registry.GetEnvironmentWrapper | src/dojo/api/endpoints/cyst_environment.py:17-21 | returns the registered wrapper exactly when the name is registered, otherwise a 404 naming it |
| CystEnvironment.Registry.Create | src/dojo/api/endpoints/cyst_environment.py:37-42 | a missing `name` attribute raises; a registered name gives 409 and changes nothing; otherwise exactly one new, started wrapper with the request's fields is registered under the name, its worker is in its loop exactly when set-up succeeded, and every other entry is kept |
| CystEnvironment.Registry.Act | src/dojo/api/endpoints/cyst_environment.py:50-115 | an unknown name gives 404 before anything is sent; otherwise exactly that worker receives the one action; the call fails exactly when the reply check of its dispatch fails, with that check's 409, and otherwise returns nothing, since the handler drops the reply (a stopped worker gives no answer); no other worker receives anything and the registry's entries do not change |
| CystEnvironment.Registry.Configure | src/dojo/api/endpoints/cyst_environment.py:59-60 | an unknown name gives 404; a known one raises `AttributeError` for the missing CONFIGURE action; nothing is sent and nothing changes |
| CystEnvironment.Registry.Close | src/dojo/api/endpoints/cyst_environment.py:86-88 | an unknown name gives 404; otherwise `None` is sent; a running worker answers `None`, leaves its loop, and the entry is removed; a stopped worker never answers and the entry stays; on any error the registry is unchanged; no other worker receives anything, on the 404 path included |
| CystEnvironment.Registry.Describe | src/dojo/api/endpoints/cyst_environment.py:123-141 | one GET_STATE request: the entry holds the state's name and platform type when the worker is running, no answer otherwise; no engine state, call log or running flag changes anywhere |
| CystEnvironment.Registry.GetEnvironment | src/dojo/api/endpoints/cyst_environment.py:138-141 | an unknown name gives 404 and nothing is sent; otherwise exactly that worker receives one GET_STATE and no other worker receives anything, and the answer is its state name and platform type (or no answer from a stopped worker); no engine state changes |
| CystEnvironment.Registry.ListEnvironments | src/dojo/api/endpoints/cyst_environment.py:123-130 | on success the listing's keys are exactly the registered names and each value is that worker's state name with its platform type; it succeeds exactly when every worker is still in its loop, and otherwise fails with no answer; no engine state changes |
| AgentManagement.WithCredentials | src/dojo/api/endpoints/agent_management.py:71-77 | a location without '@' gets `user:token@` in front when a token is given, with the default user `__user` when no user is given; any other location is kept |
| AgentManagement.CredentialsKeepHost | src/dojo/api/endpoints/agent_management.py:73-77 | injection never changes the part after the last '@', and an injected location splits back into exactly the injected credentials and the original location |
| AgentManagement.CredentialsIdempotent | src/dojo/api/endpoints/agent_management.py:73-77 | injecting the same credentials twice equals injecting them once, and credentials once injected are never replaced |
| AgentManagement.HostPart | src/dojo/api/endpoints/agent_management.py:73 | the host part is a suffix of the location and contains no '@' |
| AgentManagement.UserInfo | src/dojo/api/endpoints/agent_management.py:73 | a location has a user-info part exactly when it contains '@', and is then that part, '@', and the host part |
| AgentManagement.Basename | src/dojo/api/endpoints/agent_management.py:85 | the result is the longest suffix of the path without '/': a suffix, free of '/', and preceded by '/' when shorter than the path |
| AgentManagement.BuildPipCommand | src/dojo/api/endpoints/agent_management.py:101-104 | the command is `pip install`, then `-e` exactly for an editable install, then the local path |
| AgentManagement.UnmatchedIsDifference | src/dojo/api/endpoints/agent_management.py:114-130 | the new packages are the multiset difference of the listing after installation and the listing before |
| AgentManagement.UnmatchedKeepsOrder | src/dojo/api/endpoints/agent_management.py:114-130 | the new packages appear in the order of the listing after installation |
| AgentManagement.UnmatchedOfSame | src/dojo/api/endpoints/agent_management.py:114-130 | when the listing did not change, no package is new |
| AgentManagement.MarkFirst | src/dojo/api/endpoints/agent_management.py:117-125 | either exactly the first unmarked slot equal to the package is marked, or no unmarked slot equals it and nothing changes |
| AgentManagement.NewPackages | src/dojo/api/endpoints/agent_management.py:114-130 | the double loop with marking returns exactly `Unmatched` of the two listings |
| AgentManagement.CloneRemote | src/dojo/api/endpoints/agent_management.py:71-93 | succeeds exactly when the "agents" directory exists or is made and the clone succeeds, then answers "agents/" plus the last path segment; makes the directory only when missing and clones (with credentials injected) only when the directory is there; a failed mkdir or clone gives the 409 carrying its reason |
| AgentManagement.LocateCode | src/dojo/api/endpoints/agent_management.py:68-98 | a remote path is cloned, a local path must exist; succeeds exactly when the code is on disk, with the path to install from; otherwise the 409 for the missing path, the failed mkdir or the failed clone |
| AgentManagement.AddAgent | src/dojo/api/endpoints/agent_management.py:66-130 | succeeds exactly when the code is on disk, `editable` is present and pip succeeds, and then returns `Unmatched` of the package listings; a fetch failure gives its 409, a missing `editable` gives `AttributeError` after the fetch, and a failed pip gives the 409 carrying pip's error output; the effects are the fetch effects followed by the pip command exactly when pip is reached |
| AgentManagement.ModulesOfListsPackage | src/dojo/api/endpoints/agent_management.py:142-149 | a package's module list holds exactly the module names listed under it, and a package is grouped exactly when that list is not empty |
| AgentManagement.LastWithModuleIsLast | src/dojo/api/endpoints/agent_management.py:146-147 | the module picked is the last listed entry with that name, and there is none exactly when no entry has it |
| AgentManagement.GroupByPackage | src/dojo/api/endpoints/agent_management.py:142-149 | the grouping's keys are exactly the listed packages, each mapped to its module names in listing order, and the target is the last entry with the module name |
| AgentManagement.TargetIsGrouped | src/dojo/api/endpoints/agent_management.py:152 | the picked module's package is in the grouping and lists that module |
| AgentManagement.RemoveAgent | src/dojo/api/endpoints/agent_management.py:133-174 | no matching module raises before anything runs; a shared package without `force` is refused, and that guard comes before the code-deletion guard; uninstall runs exactly when both guards pass; code is deleted exactly when also the uninstall succeeded, `delete_code` is set and there is a code path; a failed uninstall gives the 409 carrying the uninstall's error output; success means the uninstall succeeded, and deleting code without `force` never succeeds |
| Util.ConfigurationPathShape | src/dojo/lib/util.py:16 | for every name, `joinpath(name, name + extension)` is the directory pathlib makes of the name followed by the name's last '/'-free piece with the extension, so only the last part depends on the extension |
| Util.SingleSegmentPath | src/dojo/lib/util.py:16 | a name without '/' (and not empty or ".") gives `base/name/name<extension>` |
| Util.ConfigurationPathsAreDistinct | src/dojo/lib/util.py:15-41 | for every name, the JSON and Python files are different files in the same directory; for one-segment names that directory is named after the configuration, and different names never share a JSON file |
| Util.RepeatedSlashesShareFiles | src/dojo/lib/util.py:41 | the different names "a/b" and "a//b" both give `base/a/b/a/b.json`, so distinctness does not hold beyond one-segment names |
| Util.AbsoluteNameIgnoresBase | src/dojo/lib/util.py:41 | every absolute name gives the same JSON path whatever the configurations directory: its root, its segments before the last piece, and the last piece with ".json" |
| Util.EtcIgnoresBase | src/dojo/lib/util.py:41 | the instance "/etc" gives `/etc.json` whatever the configurations directory |
| Util.ImportAndSerializeConfigs | src/dojo/lib/util.py:15-38 | fails exactly when the Python file is missing or does not define `all_configs`; otherwise writes the serialised configurations to the JSON file and changes no other file |
| Util.EnsureJsonConfiguration | src/dojo/lib/util.py:40-44 | returns the JSON path; an existing file is left alone; a missing one is regenerated, changing no other file; fails exactly when it is missing and cannot be regenerated |
| Util.ReadConfigurationFile | src/dojo/lib/util.py:50-53 | returns the JSON file's contents exactly when it exists, otherwise a file-not-found error |
| Util.EnsuredConfigurationIsReadable | src/dojo/lib/util.py:40-53 | after a successful ensure the configuration can be read, and ensuring again changes nothing |
| Util.Allocate | src/dojo/lib/util.py:56-65 | the port returned is the first candidate above the counter that the probe reports free, every skipped candidate was in use, and the counter ends on it; past 65535 the call fails with `OverflowError` after every candidate up to 65535 was in use |
| Util.AllocationsIncrease | src/dojo/lib/util.py:56-65 | successive calls return strictly increasing ports, all above the starting counter, so no port is handed out twice |
| Util.PortAllocator.constructor | src/dojo/lib/util.py:56 | the counter starts at 8282 |
| Util.PortAllocator.SetFirstAvailableEnvManagerPort | src/dojo/lib/util.py:57-65 | the loop's outcome and new counter are exactly `Allocate` of the old counter and the probe |

## Left out

- Concurrency. The per-wrapper lock, asyncio and `to_thread` are not modelled: every handler runs to completion on its own.
- The engine's internals. Its creation, configuration and control calls are an uninterpreted function of action and state, plus a flag saying whether set-up succeeded.
- The blocking nature of the RUN call and anything that happens while it runs.
- Printing inside the allocator, and the `host` argument of the socket probe. Whether a port is in use is an arbitrary predicate given by the caller.
- `list_agents`, which reads entry-point metadata and runs `git rev-parse`. Its results are inputs to `AddAgent` and `RemoveAgent`.
- The subprocesses (`git clone`, `pip install`, `pip uninstall`) and the filesystem calls (`os.mkdir`, `os.path.exists`, `shutil.rmtree`). Their outcomes are inputs; the calls themselves are returned as effects.
- `urlparse`, `urlunparse`, `url2pathname` and `os.path.normpath`. They are uninterpreted functions (`UrlLibrary`); the six URL components are a parameter.
- `os.path.basename` is modelled on '/'-separated strings only.
- `jsonpickle` serialisation and the dynamic import of the Python configuration. Both are uninterpreted functions of the file's text (`ConfigModule`).
- `list_configuration_files` and the value of the configurations base path. The base path is a parameter; `src/dojo/lib/constants.py` is not part of this model.
- Optional request fields (`user`, `access_token`, `code_path`) that are `None` are modelled as the empty string, which Python treats the same way in every test the handlers make.
- The HTTP status codes of successful responses and the JSON wrapping of results.
- Controller.EnvironmentWrapper.PerformAction: requires the worker to have been started. Every handler reaches a wrapper only through the registry, which holds started wrappers only.
- Path resolution by the operating system. Paths are pathlib's POSIX parts, so two paths that the system resolves to the same file through ".." or a symbolic link are different keys of the filesystem map.
- CystEnvironment.Registry.ListEnvironments: does not state that each worker receives exactly one GET_STATE. `Describe`, which the loop calls once per registered name, states it for one worker; carrying the count for every wrapper through the loop is left out to keep its frame reasoning small.
- Util.ConfigurationPathsAreDistinct: that different names give different JSON files is stated only for one-segment names, because it is false of others (`RepeatedSlashesShareFiles`).
- AgentManagement.RemoveAgent: the refusal message for a shared package and the success messages are stated through `SharedPackageReason` and `RemovedMessage`, not character by character.
