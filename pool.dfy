/** `BasePool` of celery/concurrency/base.py: the lifecycle state of an execution pool,
    the backend hooks its lifecycle operations call, and the uniform submission surface
    `apply_async`. Backend hooks are the base class's no-ops; each call is recorded in a
    ghost log together with the state the hook saw. */
module Pool {
  import opened Wrappers
  import Json

  /** `RUN`, `CLOSE` and `TERMINATE` (the class constants 0x1, 0x2, 0x3). */
  datatype PoolState = RUN | CLOSE | TERMINATE

  /** The four lifecycle operations. */
  datatype Op = Start | Close | Stop | Terminate

  /** The backend hook each lifecycle operation calls. */
  datatype Hook = OnStart | OnClose | OnStop | OnTerminate

  /** A hook call and the value `_state` had while the hook ran. */
  datatype HookCall = HookCall(hook: Hook, saw: Option<PoolState>)

  function HookOf(op: Op): Hook
  {
    match op
    case Start => OnStart
    case Close => OnClose
    case Stop => OnStop
    case Terminate => OnTerminate
  }

  /** The state an operation assigns, whatever the state was. */
  function Target(op: Op): PoolState
  {
    match op
    case Start => RUN
    case Close => CLOSE
    case Stop => TERMINATE
    case Terminate => TERMINATE
  }

  /** `start` and `stop` call their hook before assigning `_state`; `close` and
      `terminate` assign it first. */
  predicate HookFirst(op: Op)
  {
    op == Start || op == Stop
  }

  /** One lifecycle operation from state `s`: the new state and the hook call it makes. */
  function Step(s: Option<PoolState>, op: Op): (Option<PoolState>, HookCall)
  {
    (Some(Target(op)), HookCall(HookOf(op), if HookFirst(op) then s else Some(Target(op))))
  }

  /** A sequence of lifecycle operations from `s`: the final state and the hook calls. */
  function Replay(s: Option<PoolState>, ops: seq<Op>): (Option<PoolState>, seq<HookCall>)
  {
    if ops == [] then (s, [])
    else
      var prev := Replay(s, ops[..|ops| - 1]);
      var next := Step(prev.0, ops[|ops| - 1]);
      (next.0, prev.1 + [next.1])
  }

  /** `active`: the pool is running. */
  predicate IsActive(s: Option<PoolState>)
  {
    s == Some(RUN)
  }

  /** Every operation makes exactly one hook call, and that call saw the state before the
      operation when the hook comes first and the operation's own state otherwise. */
  lemma {:induction false} ReplayHooks(s: Option<PoolState>, ops: seq<Op>)
    ensures |Replay(s, ops).1| == |ops|
    ensures forall k :: 0 <= k < |ops| ==>
      Replay(s, ops).1[k] ==
        HookCall(HookOf(ops[k]), if HookFirst(ops[k]) then Replay(s, ops[..k]).0 else Some(Target(ops[k])))
    decreases |ops|
  {
    if ops != [] {
      var n := |ops|;
      var init := ops[..n - 1];
      ReplayHooks(s, init);
      forall k | 0 <= k < n - 1 ensures init[..k] == ops[..k] && init[k] == ops[k] { }
      assert ops[..n - 1] == init;
    }
  }

  /** The state after a non-empty sequence of operations is the one the last operation
      assigns; no operation checks the state it starts from. */
  lemma {:induction false} ReplayState(s: Option<PoolState>, ops: seq<Op>)
    ensures ops == [] ==> Replay(s, ops).0 == s
    ensures ops != [] ==> Replay(s, ops).0 == Some(Target(ops[|ops| - 1]))
  {
  }

  /** A fresh pool is active exactly when its last lifecycle operation was `start`; in
      particular it is inactive before the first `start`. */
  lemma ActiveIffStartedLast(ops: seq<Op>)
    ensures IsActive(Replay(None, ops).0) <==> (ops != [] && ops[|ops| - 1] == Start)
    ensures Start !in ops ==> !IsActive(Replay(None, ops).0)
  {
    ReplayState(None, ops);
    if ops != [] && Start !in ops {
      assert ops[|ops| - 1] in ops;
    }
  }

  lemma ReplaySnoc(s: Option<PoolState>, ops: seq<Op>, op: Op)
    ensures Replay(s, ops + [op]) ==
      (Step(Replay(s, ops).0, op).0, Replay(s, ops).1 + [Step(Replay(s, ops).0, op).1])
  {
    assert (ops + [op])[..|ops|] == ops;
  }

  /** `start(); close(); terminate()` on a fresh pool passes through RUN, CLOSE and
      TERMINATE, and the hooks see None, CLOSE and TERMINATE. */
  lemma ForwardProgress(s: Option<PoolState>)
    ensures Replay(s, [Start]).0 == Some(RUN)
    ensures Replay(s, [Start, Close]).0 == Some(CLOSE)
    ensures Replay(s, [Start, Close, Terminate]) ==
      (Some(TERMINATE),
       [HookCall(OnStart, s), HookCall(OnClose, Some(CLOSE)), HookCall(OnTerminate, Some(TERMINATE))])
  {
    ReplaySnoc(s, [], Start);
    assert [] + [Start] == [Start];
    ReplaySnoc(s, [Start], Close);
    assert [Start] + [Close] == [Start, Close];
    ReplaySnoc(s, [Start, Close], Terminate);
    assert [Start, Close] + [Terminate] == [Start, Close, Terminate];
    var h0, h1, h2 := HookCall(OnStart, s), HookCall(OnClose, Some(CLOSE)), HookCall(OnTerminate, Some(TERMINATE));
    assert Replay(s, [Start]).1 == [] + [h0] == [h0];
    assert Replay(s, [Start, Close]).1 == [h0] + [h1] == [h0, h1];
    assert Replay(s, [Start, Close, Terminate]).1 == [h0, h1] + [h2] == [h0, h1, h2];
  }

  /** Transitions are not guarded: `start` after `terminate` makes the pool RUN again,
      and `close` after `terminate` makes it CLOSE. */
  lemma NotForwardOnly()
    ensures Replay(None, [Start, Terminate, Start]).0 == Some(RUN)
    ensures Replay(None, [Start, Terminate, Close]).0 == Some(CLOSE)
  {
    ReplayState(None, [Start, Terminate, Start]);
    ReplayState(None, [Start, Terminate, Close]);
  }

  function Repeat(op: Op, n: nat): (ops: seq<Op>)
    ensures |ops| == n && forall k :: 0 <= k < n ==> ops[k] == op
  {
    if n == 0 then [] else Repeat(op, n - 1) + [op]
  }

  /** Calling `terminate` `n` times after any history leaves the pool TERMINATE and calls
      the terminate hook once per call, each time seeing TERMINATE. */
  lemma {:induction false} TerminateRepeated(s: Option<PoolState>, ops: seq<Op>, n: nat)
    requires n >= 1
    ensures Replay(s, ops + Repeat(Terminate, n)).0 == Some(TERMINATE)
    ensures Replay(s, ops + Repeat(Terminate, n)).1 ==
      Replay(s, ops).1 + seq(n, _ => HookCall(OnTerminate, Some(TERMINATE)))
    decreases n
  {
    var all := ops + Repeat(Terminate, n);
    assert all[..|all| - 1] == ops + Repeat(Terminate, n - 1);
    if n > 1 {
      TerminateRepeated(s, ops, n - 1);
    } else {
      assert ops + Repeat(Terminate, 0) == ops;
    }
    var calls := seq(n, _ => HookCall(OnTerminate, Some(TERMINATE)));
    assert calls == seq(n - 1, _ => HookCall(OnTerminate, Some(TERMINATE))) + [HookCall(OnTerminate, Some(TERMINATE))];
  }

  /** The exceptions the base pool's own code raises. */
  datatype PyError =
    | NotImplementedError(message: string)
    | DuplicateKeyword(keyword: string)   // TypeError: on_apply() got multiple values for it

  /** The arguments `apply_async` hands to `on_apply`. */
  datatype OnApplyCall<A> = OnApplyCall(target: string, args: seq<A>, kwargs: map<string, A>,
                                        waitforslot: bool, callbacksPropagate: set<string>,
                                        options: map<string, A>)

  /** Python truthiness of an optional collection: None and empty are false. */
  predicate Truthy<T>(xs: Option<seq<T>>)
  {
    xs.Some? && xs.value != []
  }

  /** The keyword names `apply_async` passes to `on_apply` itself. */
  const RESERVED_KEYWORDS: set<string> := {"waitforslot", "callbacks_propagate"}

  /** What `apply_async` hands to `on_apply`, or the TypeError Python raises when a call
      option repeats one of the keywords `apply_async` passes itself. */
  function ApplyCall<A>(target: string, args: Option<seq<A>>, kwargs: Option<map<string, A>>,
                        options: map<string, A>, putlocks: bool,
                        callbacksPropagate: set<string>): (r: Result<OnApplyCall<A>, PyError>)
    ensures r.Failure? <==> exists k :: k in RESERVED_KEYWORDS && k in options
    ensures r.Failure? ==> r.error.DuplicateKeyword? && r.error.keyword in options && r.error.keyword in RESERVED_KEYWORDS
    ensures r.Success? ==> r.value.target == target && r.value.options == options
    ensures r.Success? ==> r.value.args == (if Truthy(args) then args.value else [])
    ensures r.Success? ==> r.value.kwargs == (if kwargs.Some? then kwargs.value else map[])
    ensures r.Success? ==> r.value.waitforslot == putlocks && r.value.callbacksPropagate == callbacksPropagate
  {
    assert "waitforslot" in RESERVED_KEYWORDS && "callbacks_propagate" in RESERVED_KEYWORDS;
    if "waitforslot" in options then Failure(DuplicateKeyword("waitforslot"))
    else if "callbacks_propagate" in options then Failure(DuplicateKeyword("callbacks_propagate"))
    else
      var kw := if kwargs.Some? then kwargs.value else map[];
      var positional := if Truthy(args) then args.value else [];
      Success(OnApplyCall(target, positional, kw, putlocks, callbacksPropagate, options))
  }

  /** The configured limit as `_get_info` publishes it: None becomes JSON null. */
  function LimitValue(limit: Option<int>): Json.Value
  {
    if limit.Some? then Json.Num(limit.value) else Json.Null
  }

  /** Reads a published `max-concurrency` back; None when the value is not one. */
  function ReadLimit(v: Json.Value): Option<Option<int>>
  {
    match v
    case Null => Some(None)
    case Num(n) => Some(Some(n))
    case _ => None
  }

  /** What the ghost log records. */
  datatype PoolEvent<A> =
    | HookEvent(call: HookCall)
    | DebugTrace(target: string)          // logger.debug("TaskPool: Apply ...")
    | ApplyEvent(request: OnApplyCall<A>)  // on_apply(...)

  class BasePool<A> {
    const limit: Option<int>
    const putlocks: bool
    const forkingEnable: bool
    const callbacksPropagate: set<string>
    const options: map<string, A>
    /** `self.__class__.__module__` and `self.__class__.__name__`. */
    const moduleName: string
    const className: string
    /** `__qualname__`, which `str(type(self))` prints; it differs from `className` for a nested class. */
    const qualName: string

    /** `_state`. */
    var state: Option<PoolState>
    /** `_does_debug`. */
    var doesDebug: bool
    /** Every hook call, debug trace and `on_apply` call, in order. */
    ghost var log: seq<PoolEvent<A>>

    constructor (limit: Option<int>, putlocks: bool, forkingEnable: bool,
                 callbacksPropagate: set<string>, options: map<string, A>,
                 moduleName: string, className: string, qualName: string)
      ensures this.limit == limit && this.putlocks == putlocks && this.forkingEnable == forkingEnable
      ensures this.callbacksPropagate == callbacksPropagate && this.options == options
      ensures this.moduleName == moduleName && this.className == className && this.qualName == qualName
      ensures state == None && doesDebug && log == []
    {
      this.limit := limit;
      this.putlocks := putlocks;
      this.forkingEnable := forkingEnable;
      this.callbacksPropagate := callbacksPropagate;
      this.options := options;
      this.moduleName := moduleName;
      this.className := className;
      this.qualName := qualName;
      state := None;
      doesDebug := true;
      log := [];
    }

    /** Runs a backend hook: the base hooks do nothing, so only the call is recorded. */
    method RunHook(hook: Hook)
      modifies this`log
      ensures log == old(log) + [HookEvent(HookCall(hook, state))]
    {
      log := log + [HookEvent(HookCall(hook, state))];
    }

    /** `start`: reads the debug level, calls `on_start`, then sets `_state` to RUN. */
    method Start(debugEnabled: bool)
      modifies this
      ensures state == Some(RUN) && state == Step(old(state), Op.Start).0
      ensures log == old(log) + [HookEvent(HookCall(Hook.OnStart, old(state)))]
      ensures log == old(log) + [HookEvent(Step(old(state), Op.Start).1)]
      ensures doesDebug == debugEnabled
    {
      doesDebug := debugEnabled;
      RunHook(Hook.OnStart);
      state := Some(RUN);
    }

    /** `close`: sets `_state` to CLOSE, then calls `on_close`. */
    method Close()
      modifies this`state, this`log
      ensures state == Some(CLOSE) && state == Step(old(state), Op.Close).0
      ensures log == old(log) + [HookEvent(HookCall(Hook.OnClose, Some(CLOSE)))]
      ensures log == old(log) + [HookEvent(Step(old(state), Op.Close).1)]
    {
      state := Some(CLOSE);
      RunHook(Hook.OnClose);
    }

    /** `stop`: calls `on_stop`, then sets `_state` to TERMINATE. */
    method Stop()
      modifies this`state, this`log
      ensures state == Some(TERMINATE) && state == Step(old(state), Op.Stop).0
      ensures log == old(log) + [HookEvent(HookCall(Hook.OnStop, old(state)))]
      ensures log == old(log) + [HookEvent(Step(old(state), Op.Stop).1)]
    {
      RunHook(Hook.OnStop);
      state := Some(TERMINATE);
    }

    /** `terminate`: sets `_state` to TERMINATE, then calls `on_terminate`. */
    method Terminate()
      modifies this`state, this`log
      ensures state == Some(TERMINATE) && state == Step(old(state), Op.Terminate).0
      ensures log == old(log) + [HookEvent(HookCall(Hook.OnTerminate, Some(TERMINATE)))]
      ensures log == old(log) + [HookEvent(Step(old(state), Op.Terminate).1)]
    {
      state := Some(TERMINATE);
      RunHook(Hook.OnTerminate);
    }

    /** `did_start_ok`: the base pool always reports a healthy start. */
    function DidStartOk(): (ok: bool)
      ensures ok
    {
      true
    }

    /** `f"{type(self)}"`. */
    function TypeText(): string
    {
      "<class '" + moduleName + "." + qualName + "'>"
    }

    /** `terminate_job(pid, signal)`: not supported by the base pool. */
    method TerminateJob(pid: int, signal: Option<int>) returns (r: Result<(), PyError>)
      ensures r == Failure(NotImplementedError(TypeText() + " does not implement kill_job"))
    {
      r := Failure(NotImplementedError(TypeText() + " does not implement kill_job"));
    }

    /** `restart`: not supported by the base pool. */
    method Restart() returns (r: Result<(), PyError>)
      ensures r == Failure(NotImplementedError(TypeText() + " does not implement restart"))
    {
      r := Failure(NotImplementedError(TypeText() + " does not implement restart"));
    }

    /** `apply_async(target, args, kwargs, **callOptions)`: normalises the arguments,
        traces the call when debugging, and hands everything to `on_apply`, whose request
        is returned (the base `on_apply` does nothing with it). */
    method ApplyAsync(target: string, args: Option<seq<A>>, kwargs: Option<map<string, A>>,
                      callOptions: map<string, A>) returns (r: Result<OnApplyCall<A>, PyError>)
      modifies this`log
      ensures r == ApplyCall(target, args, kwargs, callOptions, putlocks, callbacksPropagate)
      ensures log == old(log) + (if doesDebug then [DebugTrace(target)] else [])
                              + (if r.Success? then [ApplyEvent(r.value)] else [])
    {
      var kw := if kwargs.Some? then kwargs.value else map[];
      var positional := if Truthy(args) then args.value else [];
      if doesDebug {
        log := log + [DebugTrace(target)];
      }
      if "waitforslot" in callOptions {
        r := Failure(DuplicateKeyword("waitforslot"));
      } else if "callbacks_propagate" in callOptions {
        r := Failure(DuplicateKeyword("callbacks_propagate"));
      } else {
        var request := OnApplyCall(target, positional, kw, putlocks, callbacksPropagate, callOptions);
        log := log + [ApplyEvent(request)];
        r := Success(request);
      }
    }

    /** `_get_info()` and `info`: the implementation name and the configured limit. */
    function Info(): (info: map<string, Json.Value>)
      ensures info.Keys == {"implementation", "max-concurrency"}
      ensures info["implementation"] == Json.Str(moduleName + ":" + className)
      ensures ReadLimit(info["max-concurrency"]) == Some(limit)
    {
      map["implementation" := Json.Str(moduleName + ":" + className),
          "max-concurrency" := LimitValue(limit)]
    }

    /** `active`. */
    function Active(): (b: bool)
      reads this
      ensures b <==> IsActive(state)
    {
      state == Some(RUN)
    }

    /** `num_processes`: the configured limit. */
    function NumProcesses(): (n: Option<int>)
      ensures n == limit
    {
      limit
    }
  }

  /** A fresh pool run through `start(); close(); terminate(); terminate()`. */
  method StartCloseTerminate<A>(limit: Option<int>, putlocks: bool, options: map<string, A>)
    returns (pool: BasePool<A>)
    ensures fresh(pool) && pool.state == Some(TERMINATE)
    ensures pool.log == [HookEvent(HookCall(OnStart, None)), HookEvent(HookCall(OnClose, Some(CLOSE))),
                         HookEvent(HookCall(OnTerminate, Some(TERMINATE))),
                         HookEvent(HookCall(OnTerminate, Some(TERMINATE)))]
  {
    pool := new BasePool(limit, putlocks, true, {}, options, "celery.concurrency.base", "BasePool", "BasePool");
    assert !pool.Active();
    pool.Start(false);
    assert pool.Active();
    pool.Close();
    assert !pool.Active();
    pool.Terminate();
    pool.Terminate();
  }
}
