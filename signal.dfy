/** The `Signal` bus: its registry and descriptor cache, the per-thread drain loop of
    `sendEvent`, single-event dispatch and thread-mode routing. The senders behind
    the main-thread, background and async paths are opaque sinks here: each records
    what it was handed. The reflective call of a receiver is an oracle (`Handler`). */
module SignalBus {
  import opened SignalTypes
  import opened Registry
  import opened Dispatch

  /** A descriptor finder (the index or the reflexive scan); `None` stands for null. */
  type Finder = ClassName -> Option<seq<RegisterMethodInfo>>

  datatype FinderKind = IndexFinder | ReflexFinder

  /** A `sendEvent` call made by a receiver's method body; `caught` says whether the
      body catches what that send throws and goes on with its next send. */
  datatype SendRequest = SendRequest(subScriber: SubScriber, delayMillis: int, delay: bool, args: seq<Arg>, caught: bool)

  /** What happens when the bus calls a receiver method: the call is refused with an
      `IllegalAccessException` before the body runs, or the body runs, makes its
      nested sends in order, and then returns or throws. */
  datatype Reaction = AccessDenied | Ran(sends: seq<SendRequest>, threw: bool)

  type Handler = (RegisterInfo, seq<Arg>) -> Reaction

  /** An event handed to one of the senders, with its registration. */
  datatype Handoff = Handoff(event: Event, register: RegisterInfo)

  /** A receiver method the bus invoked inline on the calling thread. */
  datatype Invocation = Invocation(register: RegisterInfo, args: seq<Arg>)

  /** What the senders have been handed and which receivers ran inline, in order. */
  datatype Logs = Logs(mainThread: seq<Handoff>, background: seq<Handoff>, async: seq<Handoff>, invoked: seq<Invocation>)

  predicate Extends(before: Logs, after: Logs)
  {
    && before.mainThread <= after.mainThread
    && before.background <= after.background
    && before.async <= after.async
    && before.invoked <= after.invoked
  }

  function HandedTo(logs: Logs, sender: Sender, h: Handoff): Logs
  {
    match sender
    case MainThreadSender => logs.(mainThread := logs.mainThread + [h])
    case BackgroundSender => logs.(background := logs.background + [h])
    case AsyncSender => logs.(async := logs.async + [h])
  }

  /** The effect of `invokeRegister`: an access failure becomes an
      `IllegalStateException` and nothing runs; otherwise the receiver runs and
      anything its body throws is swallowed. */
  predicate InvokedAs(before: Logs, after: Logs, register: RegisterInfo, args: seq<Arg>, handler: Handler, o: Outcome)
  {
    if handler(register, args).AccessDenied? then
      o == Raised(IllegalStateException) && after == before
    else
      o == Normal && |after.invoked| > |before.invoked| && after.invoked[|before.invoked|] == Invocation(register, args)
  }

  /** The effect of `sendEventToRegister` following `route`. */
  predicate RoutedAs(before: Logs, after: Logs, register: RegisterInfo, event: Event, route: Route, handler: Handler, o: Outcome)
  {
    match route
    case Reject(f) => o == Raised(f) && after == before
    case HandOff(s) => o == Normal && after == HandedTo(before, s, Handoff(event, register))
    case InvokeInline => InvokedAs(before, after, register, event.params, handler, o)
  }

  /** The effect of `sendSingleEvent` following `Decide`. */
  predicate DeliveredAs(before: Logs, after: Logs, registers: Registers, event: Event,
                        isMainThread: bool, delay: bool, handler: Handler, o: Outcome)
  {
    match Decide(registers, event, isMainThread, delay)
    case NotRegistered => o == Normal && after == before
    case ParamMismatch => o == Raised(SignalException(PARAM_MISMATCH)) && after == before
    case Routed(register, route) => RoutedAs(before, after, register, event, route, handler, o)
  }

  /** No receiver makes nested sends. */
  ghost predicate NoNestedSends(handler: Handler)
  {
    forall register, args :: handler(register, args).Ran? ==> handler(register, args).sends == []
  }

  /** The lookup `findRegistedMethod` performs: cache first, then the index finder,
      then the reflexive finder. */
  function Describe(cache: map<ClassName, seq<RegisterMethodInfo>>, targetClass: ClassName, index: Finder, reflex: Finder): Option<seq<RegisterMethodInfo>>
  {
    if targetClass in cache then Some(cache[targetClass])
    else if index(targetClass).Some? then index(targetClass)
    else reflex(targetClass)
  }

  /** One thread's `SendingThreadState`. */
  class SendingThreadState {
    var eventQueue: seq<Event>
    var isSending: bool
    var isMainThread: bool
    var delay: bool

    constructor ()
      ensures eventQueue == [] && !isSending && !isMainThread && !delay
    {
      eventQueue := [];
      isSending := false;
      isMainThread := false;
      delay := false;
    }
  }

  class Signal {
    var registers: Registers
    var methodCache: map<ClassName, seq<RegisterMethodInfo>>
    var mainThreadSent: seq<Handoff>
    var backgroundSent: seq<Handoff>
    var asyncSent: seq<Handoff>
    var invoked: seq<Invocation>
    /** Every event the drain loops took off a queue, in order. */
    ghost var dispatched: seq<Event>

    function Snapshot(): Logs
      reads this
    {
      Logs(mainThreadSent, backgroundSent, asyncSent, invoked)
    }

    constructor ()
      ensures registers == map[] && methodCache == map[]
      ensures Snapshot() == Logs([], [], [], []) && dispatched == []
    {
      registers := map[];
      methodCache := map[];
      mainThreadSent, backgroundSent, asyncSent := [], [], [];
      invoked := [];
      dispatched := [];
    }

    /** `findRegistedMethod`: a cached list is returned without consulting any finder;
        otherwise the index finder is tried, then the reflexive one, and only a
        non-null result is cached. */
    method FindRegistedMethod(targetClass: ClassName, index: Finder, reflex: Finder)
      returns (ret: Option<seq<RegisterMethodInfo>>, ghost consulted: seq<FinderKind>)
      modifies this`methodCache
      ensures ret == Describe(old(methodCache), targetClass, index, reflex)
      ensures targetClass in old(methodCache) ==> consulted == [] && methodCache == old(methodCache)
      ensures targetClass !in old(methodCache) ==>
        consulted == if index(targetClass).Some? then [IndexFinder] else [IndexFinder, ReflexFinder]
      ensures methodCache == if ret.Some? then old(methodCache)[targetClass := ret.value] else old(methodCache)
    {
      if targetClass in methodCache {
        ret, consulted := Some(methodCache[targetClass]), [];
        return;
      }
      ret := index(targetClass);
      consulted := [IndexFinder];
      if ret.None? {
        ret := reflex(targetClass);
        consulted := consulted + [ReflexFinder];
        if ret.None? {
          return;
        }
      }
      methodCache := methodCache[targetClass := ret.value];
    }

    /** The private `subscribe`: insert in order, stop at the first key already present. */
    method Subscribe(target: Target, methodInfos: seq<RegisterMethodInfo>)
      modifies this`registers
      ensures registers == Subscribed(old(registers), target, methodInfos)
    {
      var i := 0;
      while i < |methodInfos|
        invariant 0 <= i <= |methodInfos|
        invariant Subscribed(registers, target, methodInfos[i..]) == Subscribed(old(registers), target, methodInfos)
      {
        var newRegister := RegisterInfo(target, methodInfos[i]);
        var key := Key(target.className, methodInfos[i].methodName);
        assert methodInfos[i..][0] == methodInfos[i] && methodInfos[i..][1..] == methodInfos[i + 1..];
        if key in registers {
          return;
        }
        registers := registers[key := newRegister];
        i := i + 1;
      }
    }

    /** `subScribe`: look the descriptors up; a null list leaves the registry untouched. */
    method SubScribe(target: Target, index: Finder, reflex: Finder)
      modifies this`registers, this`methodCache
      ensures var infos := Describe(old(methodCache), target.className, index, reflex);
        registers == if infos.Some? then Subscribed(old(registers), target, infos.value) else old(registers)
      ensures methodCache == if Describe(old(methodCache), target.className, index, reflex).Some?
        then old(methodCache)[target.className := Describe(old(methodCache), target.className, index, reflex).value]
        else old(methodCache)
    {
      var methodInfo, _ := FindRegistedMethod(target.className, index, reflex);
      if methodInfo.None? {
        return;
      }
      Subscribe(target, methodInfo.value);
    }

    /** `unSubScribe`: remove keys in order, stop at the first key not registered.
        A null descriptor list makes the loop throw a `NullPointerException`. */
    method UnSubScribe(target: Target, index: Finder, reflex: Finder) returns (o: Outcome)
      modifies this`registers, this`methodCache
      ensures var infos := Describe(old(methodCache), target.className, index, reflex);
        if infos.Some? then o == Normal && registers == Unsubscribed(old(registers), target.className, infos.value)
        else o == Raised(NullPointerException) && registers == old(registers)
      ensures methodCache == if Describe(old(methodCache), target.className, index, reflex).Some?
        then old(methodCache)[target.className := Describe(old(methodCache), target.className, index, reflex).value]
        else old(methodCache)
    {
      var methodInfos, _ := FindRegistedMethod(target.className, index, reflex);
      if methodInfos.None? {
        return Raised(NullPointerException);
      }
      var infos := methodInfos.value;
      ghost var cache := methodCache;
      var i := 0;
      while i < |infos|
        invariant 0 <= i <= |infos|
        invariant methodCache == cache
        invariant Unsubscribed(registers, target.className, infos[i..]) == Unsubscribed(old(registers), target.className, infos)
      {
        var key := Key(target.className, infos[i].methodName);
        assert infos[i..][0] == infos[i] && infos[i..][1..] == infos[i + 1..];
        if key in registers {
          registers := registers - {key};
        } else {
          return Normal;
        }
        i := i + 1;
      }
      o := Normal;
    }

    /** Subscribing a target whose keys are all absent and then unsubscribing it
        leaves the registry as it was: the second lookup hits the cache, so both
        loops walk the same descriptor list. */
    method SubScribeThenUnSubScribe(target: Target, index: Finder, reflex: Finder) returns (o: Outcome)
      requires var infos := Describe(methodCache, target.className, index, reflex);
        infos.Some? ==> Keys(target.className, infos.value) !! registers.Keys
      modifies this`registers, this`methodCache
      ensures registers == old(registers)
      ensures Describe(old(methodCache), target.className, index, reflex).Some? <==> o == Normal
    {
      SubScribe(target, index, reflex);
      o := UnSubScribe(target, index, reflex);
      var infos := Describe(old(methodCache), target.className, index, reflex);
      if infos.Some? {
        SubscribeThenUnsubscribe(old(registers), target, infos.value);
      }
    }

    /** `send`: an immediate send, with delay 0 and the delay flag false. */
    method Send(ts: SendingThreadState, subScriber: SubScriber, args: seq<Arg>,
                callerIsMain: bool, handler: Handler, stack: nat) returns (o: Outcome)
      modifies this, ts
      ensures registers == old(registers) && methodCache == old(methodCache)
      ensures ts.isSending == old(ts.isSending)
      ensures !old(ts.isSending) && old(ts.eventQueue) == [] ==>
        && ts.eventQueue == [] && !ts.isMainThread
        && DeliveredAs(old(Snapshot()), Snapshot(), old(registers),
                       Event(subScriber.targetClass, subScriber.methodName, args, 0), callerIsMain, false, handler, o)
        && o != Raised(SignalException(DELAY_WITH_POSTING))
    {
      o := SendEvent(ts, subScriber, 0, false, args, callerIsMain, handler, stack);
    }

    /** `sendDelayed`: the delay flag is true, so a posting-thread receiver refuses it. */
    method SendDelayed(ts: SendingThreadState, subScriber: SubScriber, delayMillis: int, args: seq<Arg>,
                       callerIsMain: bool, handler: Handler, stack: nat) returns (o: Outcome)
      modifies this, ts
      ensures registers == old(registers) && methodCache == old(methodCache)
      ensures ts.isSending == old(ts.isSending)
      ensures !old(ts.isSending) && old(ts.eventQueue) == [] ==>
        && ts.eventQueue == [] && !ts.isMainThread
        && DeliveredAs(old(Snapshot()), Snapshot(), old(registers),
                       Event(subScriber.targetClass, subScriber.methodName, args, delayMillis), callerIsMain, true, handler, o)
      ensures var key := Key(subScriber.targetClass, subScriber.methodName);
        && !old(ts.isSending) && old(ts.eventQueue) == []
        && key in old(registers) && |old(registers)[key].methodInfo.params| == |args|
        && old(registers)[key].methodInfo.threadMode == Some(PosterThread)
        ==> o == Raised(SignalException(DELAY_WITH_POSTING)) && Snapshot() == old(Snapshot())
    {
      o := SendEvent(ts, subScriber, delayMillis, true, args, callerIsMain, handler, stack);
    }

    /** `sendEvent`: queue the event and, unless the thread is already sending, record
        the thread's flags and drain the queue; on every exit the flags are reset.
        `isSending` is never set, so a nested send from a receiver runs a drain loop
        of its own over the same queue. */
    method SendEvent(ts: SendingThreadState, subScriber: SubScriber, delayMillis: int, delay: bool, args: seq<Arg>,
                     callerIsMain: bool, handler: Handler, stack: nat) returns (o: Outcome)
      modifies this, ts
      decreases stack, 4
      ensures registers == old(registers) && methodCache == old(methodCache)
      ensures Extends(old(Snapshot()), Snapshot()) && old(dispatched) <= dispatched
      ensures ts.isSending == old(ts.isSending)
      ensures var event := Event(subScriber.targetClass, subScriber.methodName, args, delayMillis);
        old(ts.isSending) ==>
          && o == Normal && ts.eventQueue == old(ts.eventQueue) + [event]
          && Snapshot() == old(Snapshot()) && dispatched == old(dispatched)
          && ts.isMainThread == old(ts.isMainThread) && ts.delay == old(ts.delay)
      ensures !old(ts.isSending) ==> !ts.isMainThread && |ts.eventQueue| <= |old(ts.eventQueue)|
      ensures !old(ts.isSending) && o == Normal ==> ts.eventQueue == []
      ensures var all := old(ts.eventQueue) + [Event(subScriber.targetClass, subScriber.methodName, args, delayMillis)];
        !old(ts.isSending) ==> |dispatched| > |old(dispatched)| && dispatched[|old(dispatched)|] == all[0]
      ensures var all := old(ts.eventQueue) + [Event(subScriber.targetClass, subScriber.methodName, args, delayMillis)];
        var n := |dispatched| - |old(dispatched)|;
        !old(ts.isSending) && NoNestedSends(handler) ==>
          && 0 < n <= |all| && dispatched == old(dispatched) + all[..n] && ts.eventQueue == all[n..]
          && (o == Normal ==> n == |all|)
      ensures !old(ts.isSending) && old(ts.eventQueue) == [] ==>
        DeliveredAs(old(Snapshot()), Snapshot(), old(registers),
                    Event(subScriber.targetClass, subScriber.methodName, args, delayMillis), callerIsMain, delay, handler, o)
    {
      var event := Event(subScriber.targetClass, subScriber.methodName, args, delayMillis);
      ts.eventQueue := ts.eventQueue + [event];
      if ts.isSending {
        return Normal;
      }
      ts.isMainThread := callerIsMain;
      ts.delay := delay;
      ghost var outcomes;
      o, outcomes := DrainQueue(ts, callerIsMain, handler, stack);
      // finally
      ts.isSending := false;
      ts.isMainThread := false;
    }

    /** The `try` block of `sendEvent`: dispatch the front of the queue until the
        queue is empty or a dispatch throws. `outcomes` lists the outcome of each
        dispatch in turn: all but the last are normal, and the last is the result. */
    method DrainQueue(ts: SendingThreadState, callerIsMain: bool, handler: Handler, stack: nat)
      returns (o: Outcome, ghost outcomes: seq<Outcome>)
      requires !ts.isSending && ts.eventQueue != []
      modifies this, ts
      decreases stack, 3
      ensures registers == old(registers) && methodCache == old(methodCache)
      ensures Extends(old(Snapshot()), Snapshot()) && old(dispatched) <= dispatched
      ensures !ts.isSending && |ts.eventQueue| < |old(ts.eventQueue)|
      ensures o == Normal ==> ts.eventQueue == []
      ensures outcomes != [] && o == outcomes[|outcomes| - 1]
      ensures forall i :: 0 <= i < |outcomes| - 1 ==> outcomes[i] == Normal
      ensures NoNestedSends(handler) ==> |outcomes| == |dispatched| - |old(dispatched)|
      ensures |dispatched| > |old(dispatched)| && dispatched[|old(dispatched)|] == old(ts.eventQueue)[0]
      ensures var all := old(ts.eventQueue);
        var n := |dispatched| - |old(dispatched)|;
        NoNestedSends(handler) ==>
          && 0 < n <= |all| && dispatched == old(dispatched) + all[..n] && ts.eventQueue == all[n..]
          && (o == Normal ==> n == |all|)
      ensures |old(ts.eventQueue)| == 1 ==>
        && ts.eventQueue == []
        && DeliveredAs(old(Snapshot()), Snapshot(), old(registers), old(ts.eventQueue)[0],
                       old(ts.isMainThread), old(ts.delay), handler, o)
    {
      ghost var all := ts.eventQueue;
      ghost var n := 0;
      o := Normal;
      outcomes := [];
      while ts.eventQueue != []
        invariant !ts.isSending
        invariant registers == old(registers) && methodCache == old(methodCache)
        invariant Extends(old(Snapshot()), Snapshot()) && old(dispatched) <= dispatched
        invariant o == Normal
        invariant |outcomes| == n && forall i :: 0 <= i < n ==> outcomes[i] == Normal
        invariant NoNestedSends(handler) ==> n == |dispatched| - |old(dispatched)|
        invariant 0 <= n <= |all| && |ts.eventQueue| + n <= |all|
        invariant n == 0 ==> ts.eventQueue == all && dispatched == old(dispatched) && unchanged(this) && unchanged(ts)
        invariant n > 0 ==> |dispatched| > |old(dispatched)| && dispatched[|old(dispatched)|] == all[0]
        invariant NoNestedSends(handler) ==> dispatched == old(dispatched) + all[..n] && ts.eventQueue == all[n..]
        invariant |all| == 1 && n > 0 ==>
          && ts.eventQueue == []
          && DeliveredAs(old(Snapshot()), Snapshot(), old(registers), all[0], old(ts.isMainThread), old(ts.delay), handler, o)
        decreases |ts.eventQueue|
      {
        var next := ts.eventQueue[0];
        ts.eventQueue := ts.eventQueue[1..];
        dispatched := dispatched + [next];
        assert NoNestedSends(handler) ==> all[..n] + [next] == all[..n + 1];
        o := SendSingleEvent(ts, next, callerIsMain, handler, stack);
        outcomes := outcomes + [o];
        n := n + 1;
        if o.Raised? {
          break;
        }
      }
    }

    /** `sendSingleEvent`: look the key up, check the parameter count, then route. */
    method SendSingleEvent(ts: SendingThreadState, event: Event, callerIsMain: bool, handler: Handler, stack: nat)
      returns (o: Outcome)
      modifies this, ts
      decreases stack, 2
      ensures registers == old(registers) && methodCache == old(methodCache)
      ensures Extends(old(Snapshot()), Snapshot()) && old(dispatched) <= dispatched
      ensures ts.isSending == old(ts.isSending)
      ensures !ts.isSending ==> |ts.eventQueue| <= |old(ts.eventQueue)|
      ensures NoNestedSends(handler) ==> ts.eventQueue == old(ts.eventQueue) && dispatched == old(dispatched)
      ensures DeliveredAs(old(Snapshot()), Snapshot(), old(registers), event, old(ts.isMainThread), old(ts.delay), handler, o)
    {
      var key := Key(event.targetClass, event.targetMethod);
      var args := event.params;
      if key in registers {
        if |registers[key].methodInfo.params| != |args| {
          return Raised(SignalException(PARAM_MISMATCH));
        }
        o := SendEventToRegister(ts, registers[key], event, callerIsMain, handler, stack);
      } else {
        // not registered: logged only
        o := Normal;
      }
    }

    /** `sendEventToRegister`: the thread-mode switch. */
    method SendEventToRegister(ts: SendingThreadState, register: RegisterInfo, event: Event,
                               callerIsMain: bool, handler: Handler, stack: nat) returns (o: Outcome)
      modifies this, ts
      decreases stack, 1
      ensures registers == old(registers) && methodCache == old(methodCache)
      ensures Extends(old(Snapshot()), Snapshot()) && old(dispatched) <= dispatched
      ensures ts.isSending == old(ts.isSending)
      ensures !ts.isSending ==> |ts.eventQueue| <= |old(ts.eventQueue)|
      ensures NoNestedSends(handler) ==> ts.eventQueue == old(ts.eventQueue) && dispatched == old(dispatched)
      ensures RoutedAs(old(Snapshot()), Snapshot(), register, event,
                       RouteFor(register.methodInfo.threadMode, old(ts.isMainThread), old(ts.delay)), handler, o)
    {
      match register.methodInfo.threadMode
      case None =>
        // switch on a null enum
        o := Raised(NullPointerException);
      case Some(PosterThread) =>
        if ts.delay {
          o := Raised(SignalException(DELAY_WITH_POSTING));
        } else {
          o := InvokeRegister(ts, register, event.params, callerIsMain, handler, stack);
        }
      case Some(MainThread) =>
        if ts.isMainThread {
          o := InvokeRegister(ts, register, event.params, callerIsMain, handler, stack);
        } else {
          mainThreadSent := mainThreadSent + [Handoff(event, register)];
          o := Normal;
        }
      case Some(Background) =>
        backgroundSent := backgroundSent + [Handoff(event, register)];
        o := Normal;
      case Some(Async) =>
        asyncSent := asyncSent + [Handoff(event, register)];
        o := Normal;
    }

    /** `invokeRegister`: an access failure becomes an `IllegalStateException`;
        otherwise the receiver's body runs on this thread, making its nested sends in
        order. A failed nested send the body does not catch ends the body; anything
        the body throws reaches `Method.invoke` as an `InvocationTargetException`
        and is swallowed. A nested
        send with no stack left throws `StackOverflowError` inside the body. */
    method InvokeRegister(ts: SendingThreadState, register: RegisterInfo, args: seq<Arg>,
                          callerIsMain: bool, handler: Handler, stack: nat) returns (o: Outcome)
      modifies this, ts
      decreases stack, 0
      ensures registers == old(registers) && methodCache == old(methodCache)
      ensures Extends(old(Snapshot()), Snapshot()) && old(dispatched) <= dispatched
      ensures ts.isSending == old(ts.isSending)
      ensures !ts.isSending ==> |ts.eventQueue| <= |old(ts.eventQueue)|
      ensures NoNestedSends(handler) ==> ts.eventQueue == old(ts.eventQueue) && dispatched == old(dispatched)
      ensures InvokedAs(old(Snapshot()), Snapshot(), register, args, handler, o)
    {
      var reaction := handler(register, args);
      if reaction.AccessDenied? {
        return Raised(IllegalStateException);
      }
      invoked := invoked + [Invocation(register, args)];
      var i := 0;
      while i < |reaction.sends|
        invariant 0 <= i <= |reaction.sends|
        invariant registers == old(registers) && methodCache == old(methodCache)
        invariant Extends(old(Snapshot()), Snapshot()) && old(dispatched) <= dispatched
        invariant old(invoked) + [Invocation(register, args)] <= invoked
        invariant ts.isSending == old(ts.isSending)
        invariant !ts.isSending ==> |ts.eventQueue| <= |old(ts.eventQueue)|
        invariant NoNestedSends(handler) ==> ts.eventQueue == old(ts.eventQueue) && dispatched == old(dispatched)
      {
        if stack == 0 {
          // StackOverflowError inside the body
          break;
        }
        var request := reaction.sends[i];
        var nested := SendEvent(ts, request.subScriber, request.delayMillis, request.delay, request.args,
                                callerIsMain, handler, stack - 1);
        if nested.Raised? && !request.caught {
          // the exception leaves the body
          break;
        }
        i := i + 1;
      }
      o := Normal;
    }
  }
}
