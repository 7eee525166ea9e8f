/** `apply_target` of celery/concurrency/base.py: runs one job inside a worker, reports
    acceptance, and sorts the target's outcome into an exception that escapes or a
    single completion callback. The callbacks are recorded as events of a trace. */
module Trampoline {
  import opened Wrappers

  type ClassName = string

  /** An exception instance: every class name `isinstance` accepts for it (its class and
      all of its bases) and the text `repr` gives for it. */
  datatype Exc = Exc(classes: set<ClassName>, repr: string)

  /** What the target does when called: it returns a value or raises an exception. */
  datatype TargetOutcome<V> = Returned(value: V) | Raised(exc: Exc)

  /** billiard's WorkerLostError, as carried by the ExceptionInfo handed to the callback. */
  datatype WorkerLost = WorkerLostError(message: string)

  /** The value `callback` is called with. */
  datatype CallbackArg<V> = Value(v: V) | LostInfo(info: WorkerLost)

  /** One observable step of `apply_target`. */
  datatype Event<V> =
    | Accept(pid: int, time: real)                  // accept_callback(pid, time)
    | Call(args: seq<V>, kwargs: map<string, V>)    // target(*args, **kwargs)
    | Callback(arg: CallbackArg<V>)                 // callback(arg)

  /** How `apply_target` itself ends: it returns, or it re-raises an exception. */
  datatype Exit = Normal | Reraise(exc: Exc)

  datatype Execution<V> = Execution(trace: seq<Event<V>>, exit: Exit)

  /** `except propagate`: an instance of one of the caller's classes. */
  predicate Propagated(e: Exc, propagate: set<ClassName>)
  {
    e.classes * propagate != {}
  }

  /** `except Exception`. */
  predicate IsException(e: Exc)
  {
    "Exception" in e.classes
  }

  /** `except (WorkerShutdown, WorkerTerminate)`. */
  predicate IsWorkerControl(e: Exc)
  {
    "WorkerShutdown" in e.classes || "WorkerTerminate" in e.classes
  }

  /** The exceptions one of the first three `except` clauses re-raises. */
  predicate Escapes(e: Exc, propagate: set<ClassName>)
  {
    Propagated(e, propagate) || IsException(e) || IsWorkerControl(e)
  }

  /** `pid or getpid()`: a missing or zero pid falls back to the worker's own. */
  function AcceptPid(pid: Option<int>, ownPid: int): (p: int)
    ensures pid.Some? && pid.value != 0 ==> p == pid.value
    ensures pid.None? || pid.value == 0 ==> p == ownPid
  {
    if pid.Some? && pid.value != 0 then pid.value else ownPid
  }

  /** `{} if not kwargs else kwargs`. */
  function KeywordArgs<V>(kwargs: Option<map<string, V>>): (kw: map<string, V>)
    ensures kwargs.None? ==> kw == map[]
    ensures kwargs.Some? ==> kw == kwargs.value
  {
    if kwargs.None? then map[] else kwargs.value
  }

  /** Where an event may stand: acceptance first, then the call, then the callback. */
  function Rank<V>(ev: Event<V>): nat
  {
    match ev
    case Accept(_, _) => 0
    case Call(_, _) => 1
    case Callback(_) => 2
  }

  /** Events stand in strictly increasing rank, so each kind occurs at most once. */
  predicate Ordered<V>(trace: seq<Event<V>>)
  {
    forall i, j :: 0 <= i < j < |trace| ==> Rank(trace[i]) < Rank(trace[j])
  }

  /** `apply_target(target, args, kwargs, callback, accept_callback, pid, getpid, propagate,
      monotonic)` where the target behaves as `outcome`, `ownPid` is what `getpid()` returns
      and `now` what `monotonic()` returns. */
  function ApplyTarget<V>(outcome: TargetOutcome<V>, args: seq<V>, kwargs: Option<map<string, V>>,
                          hasAccept: bool, pid: Option<int>, ownPid: int, now: real,
                          propagate: set<ClassName>): (r: Execution<V>)
    ensures Ordered(r.trace)
    ensures |r.trace| > 0 && (r.trace[0].Accept? <==> hasAccept)
    ensures hasAccept ==> r.trace[0] == Accept(AcceptPid(pid, ownPid), now)
    ensures Call(args, KeywordArgs(kwargs)) in r.trace
    ensures r.exit.Normal? <==> r.trace[|r.trace| - 1].Callback?
    ensures outcome.Returned? ==>
      r.exit == Normal && r.trace[|r.trace| - 1] == Callback(Value(outcome.value))
    ensures outcome.Raised? && Escapes(outcome.exc, propagate) ==> r.exit == Reraise(outcome.exc)
    ensures outcome.Raised? && !Escapes(outcome.exc, propagate) ==>
      r.exit == Normal && r.trace[|r.trace| - 1] == Callback(LostInfo(WorkerLostError(outcome.exc.repr)))
  {
    var accepted := if hasAccept then [Accept(AcceptPid(pid, ownPid), now)] else [];
    var called := accepted + [Call(args, KeywordArgs(kwargs))];
    match outcome
    case Returned(v) => Execution(called + [Callback(Value(v))], Normal)
    case Raised(e) =>
      if Propagated(e, propagate) then Execution(called, Reraise(e))
      else if IsException(e) then Execution(called, Reraise(e))
      else if IsWorkerControl(e) then Execution(called, Reraise(e))
      else Execution(called + [Callback(LostInfo(WorkerLostError(e.repr)))], Normal)
  }

  /** The number of events of a rank in a trace. */
  function CountRank<V>(trace: seq<Event<V>>, rank: nat): nat
  {
    if trace == [] then 0
    else CountRank(trace[..|trace| - 1], rank) + (if Rank(trace[|trace| - 1]) == rank then 1 else 0)
  }

  /** In an ordered trace every kind of event occurs at most once. */
  lemma {:induction false} OrderedAtMostOnce<V>(trace: seq<Event<V>>, rank: nat)
    requires Ordered(trace)
    ensures CountRank(trace, rank) <= 1
    ensures CountRank(trace, rank) == 1 <==> exists i :: 0 <= i < |trace| && Rank(trace[i]) == rank
    decreases |trace|
  {
    if trace != [] {
      var n := |trace|;
      var init := trace[..n - 1];
      assert Ordered(init) by {
        forall i, j | 0 <= i < j < |init| ensures Rank(init[i]) < Rank(init[j]) {
          assert init[i] == trace[i] && init[j] == trace[j];
        }
      }
      OrderedAtMostOnce(init, rank);
      if Rank(trace[n - 1]) == rank {
        forall i | 0 <= i < |init| ensures Rank(init[i]) != rank {
          assert init[i] == trace[i];
        }
      }
      if exists i :: 0 <= i < n && Rank(trace[i]) == rank {
        var i :| 0 <= i < n && Rank(trace[i]) == rank;
        if i < n - 1 { assert init[i] == trace[i]; }
      }
      if exists i :: 0 <= i < |init| && Rank(init[i]) == rank {
        var i :| 0 <= i < |init| && Rank(init[i]) == rank;
        assert trace[i] == init[i];
      }
    }
  }

  /** In an ordered trace the first event decides whether there is an acceptance and the
      last whether there is a callback. */
  lemma OrderedCounts<V>(t: seq<Event<V>>, call: Event<V>)
    requires Ordered(t) && |t| > 0 && call.Call? && call in t
    ensures CountRank(t, 0) == (if t[0].Accept? then 1 else 0)
    ensures CountRank(t, 1) == 1
    ensures CountRank(t, 2) == (if t[|t| - 1].Callback? then 1 else 0)
  {
    OrderedAtMostOnce(t, 0);
    OrderedAtMostOnce(t, 1);
    OrderedAtMostOnce(t, 2);
    var k :| 0 <= k < |t| && t[k] == call;
    assert Rank(t[k]) == 1;
    if !t[0].Accept? {
      forall i | 0 <= i < |t| ensures Rank(t[i]) != 0 {
        if i > 0 { assert Rank(t[0]) < Rank(t[i]); }
      }
    } else {
      assert Rank(t[0]) == 0;
    }
    if !t[|t| - 1].Callback? {
      forall i | 0 <= i < |t| ensures Rank(t[i]) != 2 {
        if i < |t| - 1 { assert Rank(t[i]) < Rank(t[|t| - 1]); }
      }
    } else {
      assert Rank(t[|t| - 1]) == 2;
    }
  }

  /** Exactly once: the target runs once; `accept_callback` fires once if it is given and
      never otherwise; `callback` fires once if no exception escapes and never if one does. */
  lemma ExactlyOnce<V>(outcome: TargetOutcome<V>, args: seq<V>, kwargs: Option<map<string, V>>,
                       hasAccept: bool, pid: Option<int>, ownPid: int, now: real,
                       propagate: set<ClassName>)
    ensures var r := ApplyTarget(outcome, args, kwargs, hasAccept, pid, ownPid, now, propagate);
      CountRank(r.trace, 0) == (if hasAccept then 1 else 0) &&
      CountRank(r.trace, 1) == 1 &&
      CountRank(r.trace, 2) == (if r.exit.Normal? then 1 else 0)
  {
    var r := ApplyTarget(outcome, args, kwargs, hasAccept, pid, ownPid, now, propagate);
    OrderedCounts(r.trace, Call(args, KeywordArgs(kwargs)));
  }

  /** Acceptance is reported before the target runs and before any callback. */
  lemma AcceptFirst<V>(outcome: TargetOutcome<V>, args: seq<V>, kwargs: Option<map<string, V>>,
                       pid: Option<int>, ownPid: int, now: real, propagate: set<ClassName>)
    ensures var r := ApplyTarget(outcome, args, kwargs, true, pid, ownPid, now, propagate);
      r.trace[0] == Accept(AcceptPid(pid, ownPid), now) &&
      forall i :: 0 < i < |r.trace| ==> r.trace[i].Call? || r.trace[i].Callback?
  {
    var r := ApplyTarget(outcome, args, kwargs, true, pid, ownPid, now, propagate);
    forall i | 0 < i < |r.trace| ensures r.trace[i].Call? || r.trace[i].Callback? {
      assert Rank(r.trace[0]) < Rank(r.trace[i]);
    }
  }

  /** The caller's `propagate` classes are checked first: a listed class is re-raised even
      when it is neither an Exception nor a worker control signal, and without the listing
      the same exception is delivered to the callback as a lost worker. */
  lemma PropagateTakesPriority<V>(e: Exc, args: seq<V>, kwargs: Option<map<string, V>>,
                                  hasAccept: bool, pid: Option<int>, ownPid: int, now: real,
                                  propagate: set<ClassName>)
    requires !IsException(e) && !IsWorkerControl(e) && !Propagated(e, propagate)
    ensures forall c :: c in e.classes ==>
      ApplyTarget(Raised(e), args, kwargs, hasAccept, pid, ownPid, now, propagate + {c}).exit == Reraise(e)
    ensures ApplyTarget(Raised(e), args, kwargs, hasAccept, pid, ownPid, now, propagate).exit == Normal
  {
    forall c | c in e.classes
      ensures ApplyTarget(Raised(e), args, kwargs, hasAccept, pid, ownPid, now, propagate + {c}).exit == Reraise(e)
    {
      assert c in e.classes * (propagate + {c});
    }
  }
}
