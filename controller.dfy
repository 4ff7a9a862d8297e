/** The worker side of an environment and the wrapper that talks to it
    (src/dojo/controller.py).

    The simulation engine is a foreign library: it is modelled as an
    uninterpreted function `Engine` that, given a control call and the engine's
    current state, yields the value the call returns and the engine's next
    state.  The pipe between the wrapper and its worker process is modelled by
    the two logs it carries: the messages sent by the wrapper and the replies
    sent back by the worker. */
module Controller {
  import opened Outcomes

  /** The closed vocabulary of the control pipe, in declaration order. */
  datatype EnvironmentAction = Init | Terminate | Run | Commit | Pause | Reset | GetState

  /** The engine's own lifecycle states; only their names are observed here. */
  datatype EngineState = Created | Initialized | Running | Paused | Finished | Terminated
  {
    function Name(): string {
      match this
      case Created => "CREATED"
      case Initialized => "INIT"
      case Running => "RUNNING"
      case Paused => "PAUSED"
      case Finished => "FINISHED"
      case Terminated => "TERMINATED"
    }
  }

  /** What the wrapper puts on the pipe: an action or `None`. */
  datatype Message = Action(action: EnvironmentAction) | NoneMessage

  /** What the worker puts back on the pipe: `None`, a state name (the answer
      to GET_STATE), or the `(success, state)` pair the engine's control calls
      return. */
  datatype Reply = NoneReply | StateName(name: string) | Pair(ok: bool, state: EngineState)

  /** Python truthiness of a reply: `None` and the empty string are falsy, a
      two-element tuple never is. */
  predicate Truthy(r: Reply) {
    match r
    case NoneReply => false
    case StateName(s) => s != ""
    case Pair(_, _) => true
  }

  /** Truthiness of `reply[0]`: the first character of a non-empty string is
      itself a non-empty string, the first element of a pair is its flag. */
  predicate HeadTruthy(r: Reply)
    requires Truthy(r)
  {
    match r
    case StateName(_) => true
    case Pair(ok, _) => ok
  }

  /** The engine's control surface: the value a control call returns and the
      state the engine is in afterwards. */
  type Engine = (EnvironmentAction, EngineState) -> (Reply, EngineState)

  /** The outcome of handling one message in the worker: the reply it sends,
      the engine's state afterwards, and the control calls it made. */
  datatype Handled = Handled(reply: Reply, state: EngineState, calls: seq<EnvironmentAction>)

  /** The `match` over the received message. Every control action calls the
      same-named engine operation once and nothing else; GET_STATE reads the
      state without calling anything; `None` is answered with `None` and
      touches nothing. */
  function Dispatch(engine: Engine, m: Message, s: EngineState): (h: Handled)
    ensures m.Action? && m.action != GetState ==>
              h.calls == [m.action] && (h.reply, h.state) == engine(m.action, s)
    ensures m == Action(GetState) ==> h.calls == [] && h.state == s && h.reply == StateName(s.Name())
    ensures !m.Action? ==> h.calls == [] && h.state == s && h.reply == NoneReply
  {
    match m
    case Action(GetState) => Handled(StateName(s.Name()), s, [])
    case Action(a) =>
      var (reply, next) := engine(a, s);
      Handled(reply, next, [a])
    case NoneMessage => Handled(NoneReply, s, [])
  }

  /** The control call a message causes, if any. */
  function CallsFor(m: Message): seq<EnvironmentAction> {
    if m.Action? && m.action != GetState then [m.action] else []
  }

  /** The control calls a sequence of messages causes, in order. */
  function ControlCalls(msgs: seq<Message>): seq<EnvironmentAction> {
    if msgs == [] then [] else ControlCalls(msgs[..|msgs| - 1]) + CallsFor(msgs[|msgs| - 1])
  }

  /** The reply check `perform_action` makes once the reply is in: a truthy
      reply whose first component is falsy becomes a 409 error carrying the
      state's name; every other reply, `None` included, is returned as it is. */
  function CheckReply(reply: Reply): (r: Result<Reply>)
    ensures r.Err? <==> reply.Pair? && !reply.ok
    ensures r.Err? ==> r.fault == HttpError(409, reply.state.Name())
    ensures r.Ok? ==> r.value == reply
  {
    if Truthy(reply) && !HeadTruthy(reply) then Err(HttpError(409, reply.state.Name())) else Ok(reply)
  }

  /** Everything the worker has done so far: the replies it sent, the engine's
      state, the control calls made, and whether it is still in its loop. */
  datatype Trace = Trace(replies: seq<Reply>, state: EngineState, calls: seq<EnvironmentAction>, serving: bool)

  /** The worker right after start-up: the loop is entered only if creating and
      configuring the engine did not raise. */
  function Begin(initial: EngineState, setupOk: bool): Trace {
    Trace([], initial, [], setupOk)
  }

  /** One turn of the loop: receive, dispatch, send, and stop after a falsy
      reply. A worker that has left its loop receives nothing more. */
  function Receive(engine: Engine, t: Trace, m: Message): Trace {
    if !t.serving then t
    else
      var h := Dispatch(engine, m, t.state);
      Trace(t.replies + [h.reply], h.state, t.calls + h.calls, Truthy(h.reply))
  }

  /** The worker fed a sequence of messages. */
  function Serve(engine: Engine, t: Trace, msgs: seq<Message>): Trace
    decreases |msgs|
  {
    if msgs == [] then t else Serve(engine, Receive(engine, t, msgs[0]), msgs[1..])
  }

  /** The exit rule seen in a trace: a reply is truthy exactly when another
      one followed it or the worker is still serving. */
  predicate ExitRule(t: Trace) {
    forall i :: 0 <= i < |t.replies| ==> (Truthy(t.replies[i]) <==> (i < |t.replies| - 1 || t.serving))
  }

  lemma {:induction false} ServeConcat(engine: Engine, t: Trace, a: seq<Message>, b: seq<Message>)
    ensures Serve(engine, t, a + b) == Serve(engine, Serve(engine, t, a), b)
    decreases |a|
  {
    if a != [] {
      assert (a + b)[0] == a[0];
      assert (a + b)[1..] == a[1..] + b;
      ServeConcat(engine, Receive(engine, t, a[0]), a[1..], b);
    } else {
      assert a + b == b;
    }
  }

  /** Once the worker has left its loop, further messages change nothing. */
  lemma {:induction false} ServeIdle(engine: Engine, t: Trace, msgs: seq<Message>)
    requires !t.serving
    ensures Serve(engine, t, msgs) == t
    decreases |msgs|
  {
    if msgs != [] {
      ServeIdle(engine, t, msgs[1..]);
    }
  }

  /** One reply per message received, none after the loop is left, and the
      exit rule holds of every reachable trace. */
  lemma {:induction false} ServeReplies(engine: Engine, t: Trace, msgs: seq<Message>)
    requires ExitRule(t)
    ensures var u := Serve(engine, t, msgs);
      && ExitRule(u)
      && |t.replies| <= |u.replies| <= |t.replies| + |msgs|
      && u.replies[..|t.replies|] == t.replies
      && (u.serving ==> |u.replies| == |t.replies| + |msgs|)
    decreases |msgs|
  {
    if msgs != [] {
      var t' := Receive(engine, t, msgs[0]);
      assert ExitRule(t') by {
        if t.serving {
          var n := |t'.replies|;
          forall i | 0 <= i < n
            ensures Truthy(t'.replies[i]) <==> (i < n - 1 || t'.serving)
          {
            if i < n - 1 { assert t'.replies[i] == t.replies[i]; }
          }
        }
      }
      ServeReplies(engine, t', msgs[1..]);
      var u := Serve(engine, t', msgs[1..]);
      if !t'.serving {
        ServeIdle(engine, t', msgs[1..]);
      }
      assert u.replies[..|t'.replies|][..|t.replies|] == u.replies[..|t.replies|];
      assert t'.replies[..|t.replies|] == t.replies;
    }
  }

  /** Feeding one more message is one more turn of the loop. */
  lemma ServeSnoc(engine: Engine, t: Trace, msgs: seq<Message>, m: Message)
    ensures Serve(engine, t, msgs + [m]) == Receive(engine, Serve(engine, t, msgs), m)
  {
    ServeConcat(engine, t, msgs, [m]);
  }

  /** Once a prefix has ended the loop, the rest of the messages change nothing. */
  lemma ServeStopped(engine: Engine, t: Trace, msgs: seq<Message>, k: nat)
    requires k <= |msgs| && !Serve(engine, t, msgs[..k]).serving
    ensures Serve(engine, t, msgs) == Serve(engine, t, msgs[..k])
  {
    assert msgs == msgs[..k] + msgs[k..];
    ServeConcat(engine, t, msgs[..k], msgs[k..]);
    ServeIdle(engine, Serve(engine, t, msgs[..k]), msgs[k..]);
  }

  /** `EnvironmentWrapper.loop` after start-up, fed the messages `inbox` in
      order. It stops after sending a falsy reply, or when the inbox is used
      up (the worker then blocks in `recv`). */
  method Loop(engine: Engine, initial: EngineState, setupOk: bool, inbox: seq<Message>)
    returns (t: Trace, consumed: nat)
    ensures t == Serve(engine, Begin(initial, setupOk), inbox)
    ensures consumed == |t.replies| <= |inbox|
    ensures t.serving ==> consumed == |inbox|
    ensures !t.serving && consumed > 0 ==> !Truthy(t.replies[consumed - 1])
    ensures forall i :: 0 <= i < consumed - 1 ==> Truthy(t.replies[i])
    ensures t.calls == ControlCalls(inbox[..consumed])
  {
    t := Begin(initial, setupOk);
    consumed := 0;
    if !setupOk {
      ServeIdle(engine, t, inbox);
      return;
    }
    while consumed < |inbox|
      invariant consumed <= |inbox|
      invariant t.serving && |t.replies| == consumed
      invariant t == Serve(engine, Begin(initial, setupOk), inbox[..consumed])
      invariant forall i :: 0 <= i < consumed ==> Truthy(t.replies[i])
      invariant t.calls == ControlCalls(inbox[..consumed])
    {
      var m := inbox[consumed];
      ServeSnoc(engine, Begin(initial, setupOk), inbox[..consumed], m);
      assert inbox[..consumed + 1] == inbox[..consumed] + [m];
      t := Receive(engine, t, m);
      consumed := consumed + 1;
      if !t.serving {
        ServeStopped(engine, Begin(initial, setupOk), inbox, consumed);
        return;
      }
    }
    assert inbox[..consumed] == inbox;
  }

  /** `EnvironmentWrapper`: the parent's end of the pipe (the messages sent and
      the replies received) together with the state of the worker process it
      owns (the engine's state, the control calls made, whether the loop is
      still running). */
  class EnvironmentWrapper {
    const name: string
    const platformType: string
    const configuration: string
    const engine: Engine
    const initial: EngineState   // the engine right after create and configure
    const setupOk: bool          // whether create and configure returned normally
    var started: bool
    var requests: seq<Message>
    var replies: seq<Reply>
    var state: EngineState
    var calls: seq<EnvironmentAction>
    var serving: bool

    /** The pipe and the worker agree with the loop fed every message sent so
        far: one reply per message while the loop runs, none after it ends. */
    ghost predicate Valid()
      reads this
    {
      && Trace(replies, state, calls, serving) == Serve(engine, Begin(initial, setupOk), requests)
      && (!started ==> requests == [])
      && |replies| <= |requests|
      && (serving ==> |replies| == |requests|)
      && ExitRule(Trace(replies, state, calls, serving))
    }

    constructor (name: string, platformType: string, configuration: string,
                 engine: Engine, initial: EngineState, setupOk: bool)
      ensures Valid() && !started
      ensures this.name == name && this.platformType == platformType && this.configuration == configuration
      ensures this.engine == engine && this.initial == initial && this.setupOk == setupOk
      ensures requests == [] && replies == [] && state == initial && calls == [] && serving == setupOk
    {
      this.name := name;
      this.platformType := platformType;
      this.configuration := configuration;
      this.engine := engine;
      this.initial := initial;
      this.setupOk := setupOk;
      started := false;
      requests := [];
      replies := [];
      state := initial;
      calls := [];
      serving := setupOk;
    }

    /** `start`: launches the worker process. */
    method Start()
      requires Valid()
      modifies this
      ensures Valid() && started
      ensures requests == old(requests) && replies == old(replies) && state == old(state)
      ensures calls == old(calls) && serving == old(serving)
    {
      started := true;
    }

    /** `perform_action`: under the lock, send one message and wait for the
        worker's one reply, then apply the reply check. A worker that has left
        its loop never answers: the caller waits for ever. */
    method PerformAction(m: Message) returns (r: Result<Reply>)
      requires Valid() && started
      modifies this
      ensures Valid() && started
      ensures requests == old(requests) + [m]
      ensures old(serving) ==>
                var h := Dispatch(engine, m, old(state));
                && replies == old(replies) + [h.reply]
                && state == h.state
                && calls == old(calls) + h.calls
                && serving == Truthy(h.reply)
                && r == CheckReply(h.reply)
      ensures !old(serving) ==>
                r == Err(NoReply) && replies == old(replies) && state == old(state)
                && calls == old(calls) && !serving
    {
      ServeConcat(engine, Begin(initial, setupOk), requests, [m]);
      ServeReplies(engine, Begin(initial, setupOk), requests + [m]);
      requests := requests + [m];
      if !serving {
        r := Err(NoReply);
        return;
      }
      var h := Dispatch(engine, m, state);
      replies := replies + [h.reply];
      state := h.state;
      calls := calls + h.calls;
      serving := Truthy(h.reply);
      r := CheckReply(h.reply);
    }
  }
}
