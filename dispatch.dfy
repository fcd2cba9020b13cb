/** The decisions `sendSingleEvent` and `sendEventToRegister` take for one event:
    whether it is delivered at all, and by which path. */
module Dispatch {
  import opened SignalTypes
  import opened Registry

  const PARAM_MISMATCH: string := "send param num not match, please check."
  const DELAY_WITH_POSTING: string := "delay not working with posting thread :)"

  /** The three senders an event can be handed to instead of being invoked inline. */
  datatype Sender = MainThreadSender | BackgroundSender | AsyncSender

  /** What the thread-mode switch does with a registered, arity-matched event. */
  datatype Route = InvokeInline | HandOff(sender: Sender) | Reject(fault: Fault)

  /** The thread-mode switch of `sendEventToRegister`, given the thread state's
      `isMainThread` and `delay` flags. A null thread mode makes the switch throw. */
  function RouteFor(mode: Option<ThreadMode>, isMainThread: bool, delay: bool): (r: Route)
    ensures r.Reject? <==> mode.None? || (mode == Some(PosterThread) && delay)
    ensures r == InvokeInline <==> (mode == Some(PosterThread) && !delay) || (mode == Some(MainThread) && isMainThread)
    ensures r == HandOff(MainThreadSender) <==> mode == Some(MainThread) && !isMainThread
    ensures r == HandOff(BackgroundSender) <==> mode == Some(Background)
    ensures r == HandOff(AsyncSender) <==> mode == Some(Async)
    ensures r == Reject(SignalException(DELAY_WITH_POSTING)) <==> mode == Some(PosterThread) && delay
  {
    match mode
    case None => Reject(NullPointerException)
    case Some(PosterThread) => if delay then Reject(SignalException(DELAY_WITH_POSTING)) else InvokeInline
    case Some(MainThread) => if isMainThread then InvokeInline else HandOff(MainThreadSender)
    case Some(Background) => HandOff(BackgroundSender)
    case Some(Async) => HandOff(AsyncSender)
  }

  /** The registry key of an event: its target class name followed by its method name. */
  function EventKey(event: Event): string
  {
    Key(event.targetClass, event.targetMethod)
  }

  datatype Decision = NotRegistered | ParamMismatch | Routed(register: RegisterInfo, route: Route)

  /** What `sendSingleEvent` does with `event`: nothing for an unregistered key, a
      `SignalException` when the parameter count differs (checked before any routing),
      otherwise the thread-mode route of the registration found under the key. */
  function Decide(registers: Registers, event: Event, isMainThread: bool, delay: bool): (d: Decision)
    ensures d == NotRegistered <==> EventKey(event) !in registers
    ensures d == ParamMismatch <==>
      EventKey(event) in registers && |registers[EventKey(event)].methodInfo.params| != |event.params|
    ensures d.Routed? ==>
      && EventKey(event) in registers
      && d.register == registers[EventKey(event)]
      && |d.register.methodInfo.params| == |event.params|
      && d.route == RouteFor(d.register.methodInfo.threadMode, isMainThread, delay)
  {
    var key := EventKey(event);
    if key !in registers then NotRegistered
    else if |registers[key].methodInfo.params| != |event.params| then ParamMismatch
    else Routed(registers[key], RouteFor(registers[key].methodInfo.threadMode, isMainThread, delay))
  }

  /** The delay flag changes the outcome only for a posting-thread receiver: the
      main-thread, background and async paths ignore it. */
  lemma DelayMattersOnlyForPosting(registers: Registers, event: Event, isMainThread: bool)
    requires EventKey(event) in registers
    requires registers[EventKey(event)].methodInfo.threadMode != Some(PosterThread)
    ensures Decide(registers, event, isMainThread, true) == Decide(registers, event, isMainThread, false)
  {
  }
}
