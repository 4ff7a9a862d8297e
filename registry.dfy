/** The environment registry and its HTTP handlers
    (src/dojo/api/endpoints/cyst_environment.py over the module-level
    `environments` dictionary of src/dojo/controller.py). */
module CystEnvironment {
  import opened Outcomes
  import opened Controller

  /** The body of a create request. The handler reads `name`, which the
      request schema does not declare (it declares `id`): `None` stands for the
      attribute being absent. */
  datatype EnvironmentRequest = EnvironmentRequest(name: Option<string>, platformType: string, configuration: string)

  /** One entry of a listing: the GET_STATE reply and the platform type name. */
  datatype EnvironmentInfo = EnvironmentInfo(state: Reply, platform: string)

  function NotFound(name: string): Fault {
    HttpError(404, "Environment " + name + " not found")
  }

  function AlreadyExists(name: string): Fault {
    HttpError(409, "Environment " + name + " already exists")
  }

  /** The `environments` dictionary and the handlers that use it. */
  class Registry {
    var environments: map<string, EnvironmentWrapper>

    /** Every registered wrapper is started, consistent with its worker and
        registered under its own name, so no wrapper is registered twice. */
    ghost predicate Valid()
      reads this, environments.Values
    {
      forall k :: k in environments ==>
        environments[k].Valid() && environments[k].started && environments[k].name == k
    }

    constructor ()
      ensures Valid() && environments == map[]
    {
      environments := map[];
    }

    /** `get_environment_wrapper`: the wrapper registered under `name`, or 404. */
    function GetEnvironmentWrapper(name: string): (r: Result<EnvironmentWrapper>)
      reads this
      ensures r.Ok? <==> name in environments
      ensures r.Ok? ==> r.value == environments[name]
      ensures r.Err? ==> r.fault == NotFound(name)
    {
      if name in environments then Ok(environments[name]) else Err(NotFound(name))
    }

    /** `create`: refuses a name already registered; otherwise builds a wrapper,
        starts its worker and registers it under that name, and nothing else. */
    method Create(request: EnvironmentRequest, engine: Engine, initial: EngineState, setupOk: bool)
      returns (r: Result<()>)
      requires Valid()
      modifies this
      ensures Valid()
      ensures request.name.None? ==> r == Err(AttributeError("name")) && environments == old(environments)
      ensures request.name.Some? && request.name.value in old(environments) ==>
                r == Err(AlreadyExists(request.name.value)) && environments == old(environments)
      ensures request.name.Some? && request.name.value !in old(environments) ==>
                var n := request.name.value;
                && r == Ok(())
                && n in environments
                && environments == old(environments)[n := environments[n]]
                && fresh(environments[n])
                && environments[n].started && environments[n].requests == []
                && environments[n].name == n && environments[n].platformType == request.platformType
                && environments[n].configuration == request.configuration
                && environments[n].engine == engine && environments[n].state == initial
                && environments[n].serving == setupOk
    {
      if request.name.None? {
        return Err(AttributeError("name"));
      }
      var n := request.name.value;
      if n in environments {
        return Err(AlreadyExists(n));
      }
      var ew := new EnvironmentWrapper(n, request.platformType, request.configuration, engine, initial, setupOk);
      ew.Start();
      environments := environments[n := ew];
      r := Ok(());
    }

    /** The handlers `init`, `reset`, `terminate`, `commit`, `pause` and `run`:
        look the name up (404 before any message is sent), then send the one
        action. The registry's entries never change. On success the handler
        returns nothing, so the checked reply is dropped and only its fault
        reaches the caller. */
    method Act(name: string, action: EnvironmentAction) returns (r: Result<()>)
      requires Valid()
      modifies environments.Values
      ensures Valid() && environments == old(environments)
      ensures name !in environments ==>
                r == Err(NotFound(name))
      ensures name in environments ==>
                var w := environments[name];
                && w.requests == old(w.requests) + [Action(action)]
                && (old(w.serving) ==>
                      var c := CheckReply(Dispatch(w.engine, Action(action), old(w.state)).reply);
                      (r.Err? <==> c.Err?) && (r.Err? ==> r == Err(c.fault)))
                && (!old(w.serving) ==> r == Err(NoReply))
      ensures forall k :: k in environments && k != name ==> environments[k].requests == old(environments[k].requests)
    {
      var found := GetEnvironmentWrapper(name);
      if found.Err? {
        return Err(found.fault);
      }
      var w := found.value;
      var reply := w.PerformAction(Action(action));
      r := if reply.Err? then Err(reply.fault) else Ok(());
    }

    /** `configure`: looks the name up, then fails on the action it names,
        which the action enumeration does not have; no message is sent. */
    method Configure(name: string) returns (r: Result<Reply>)
      requires Valid()
      ensures r == if name in environments then Err(AttributeError("CONFIGURE")) else Err(NotFound(name))
    {
      var found := GetEnvironmentWrapper(name);
      if found.Err? {
        return Err(found.fault);
      }
      r := Err(AttributeError("CONFIGURE"));
    }

    /** `close`: sends `None`, which ends a running worker's loop, and then
        drops the entry. If the call does not return, the entry stays. */
    method Close(name: string) returns (r: Result<Reply>)
      requires Valid()
      modifies this, environments.Values
      ensures Valid()
      ensures name !in old(environments) ==> r == Err(NotFound(name)) && environments == old(environments)
      ensures name in old(environments) ==>
                var w := old(environments)[name];
                && w.requests == old(w.requests) + [NoneMessage]
                && (old(w.serving) ==> r == Ok(NoneReply) && !w.serving && environments == old(environments) - {name})
                && (!old(w.serving) ==> r == Err(NoReply) && environments == old(environments))
      ensures r.Err? ==> environments == old(environments)
      ensures forall k :: k in old(environments) && k != name ==>
                old(environments)[k].requests == old(environments[k].requests)
    {
      var found := GetEnvironmentWrapper(name);
      if found.Err? {
        return Err(found.fault);
      }
      var w := found.value;
      r := w.PerformAction(NoneMessage);
      if r.Err? {
        return;
      }
      environments := environments - {name};
    }

    /** The entry both listing handlers build for one wrapper: its GET_STATE
        reply and platform type name. Asking leaves the engine as it was. */
    method Describe(name: string) returns (r: Result<EnvironmentInfo>)
      requires Valid() && name in environments
      modifies environments[name]
      ensures Valid()
      ensures forall k :: k in environments ==>
                var w := environments[k];
                w.state == old(w.state) && w.calls == old(w.calls) && w.serving == old(w.serving)
      ensures var w := environments[name];
        && w.requests == old(w.requests) + [Action(GetState)]
        && r == if w.serving then Ok(EnvironmentInfo(StateName(w.state.Name()), w.platformType)) else Err(NoReply)
    {
      var w := environments[name];
      var reply := w.PerformAction(Action(GetState));
      if reply.Err? {
        return Err(reply.fault);
      }
      r := Ok(EnvironmentInfo(reply.value, w.platformType));
    }

    /** `get_environment`: the GET_STATE reply and platform type of one
        environment; the engine's state is left as it was. */
    method GetEnvironment(name: string) returns (r: Result<EnvironmentInfo>)
      requires Valid()
      modifies environments.Values
      ensures Valid() && environments == old(environments)
      ensures forall k :: k in environments ==>
                var w := environments[k];
                w.state == old(w.state) && w.calls == old(w.calls) && w.serving == old(w.serving)
      ensures forall k :: k in environments ==>
                environments[k].requests == old(environments[k].requests) + (if k == name then [Action(GetState)] else [])
      ensures name !in environments ==> r == Err(NotFound(name))
      ensures name in environments ==>
                var w := environments[name];
                r == if w.serving then Ok(EnvironmentInfo(StateName(w.state.Name()), w.platformType)) else Err(NoReply)
    {
      var found := GetEnvironmentWrapper(name);
      if found.Err? {
        return Err(found.fault);
      }
      r := Describe(name);
    }

    /** `list_environments`: asks every registered worker for its state. When
        it returns, its keys are exactly the registry's and each value pairs
        that worker's GET_STATE reply with its platform type name; no engine
        state changes. */
    method ListEnvironments() returns (r: Result<map<string, EnvironmentInfo>>)
      requires Valid()
      modifies environments.Values
      ensures Valid() && environments == old(environments)
      ensures forall k :: k in environments ==>
                var w := environments[k];
                w.state == old(w.state) && w.calls == old(w.calls) && w.serving == old(w.serving)
      ensures r.Ok? ==>
                && r.value.Keys == environments.Keys
                && forall k :: k in r.value ==>
                     r.value[k] == EnvironmentInfo(StateName(environments[k].state.Name()), environments[k].platformType)
      ensures r.Ok? <==> forall k :: k in environments ==> environments[k].serving
      ensures r.Err? ==> r.fault == NoReply
    {
      var info: map<string, EnvironmentInfo> := map[];
      var pending := environments.Keys;
      while pending != {}
        invariant Valid() && environments == old(environments)
        invariant pending <= environments.Keys
        invariant info.Keys == environments.Keys - pending
        invariant forall k :: k in environments ==>
                    var w := environments[k];
                    w.state == old(w.state) && w.calls == old(w.calls) && w.serving == old(w.serving)
        invariant forall k :: k in info ==> environments[k].serving
        invariant forall k :: k in info ==>
                    info[k] == EnvironmentInfo(StateName(old(environments[k].state).Name()), environments[k].platformType)
        decreases pending
      {
        var k :| k in pending;
        assert environments[k] in environments.Values;
        var entry := Describe(k);
        if entry.Err? {
          assert k in environments && !environments[k].serving;
          return Err(entry.fault);
        }
        info := info[k := entry.value];
        pending := pending - {k};
      }
      r := Ok(info);
    }
  }
}
