/** Values shared by the dispatch engine, the pending-event pool and the reflexive
    method finder of the Signal event bus. */
module SignalTypes {

  datatype Option<+T> = None | Some(value: T)

  /** A Java class, identified by its fully-qualified name (`Class.getName()`). */
  type ClassName = string

  /** The four delivery policies a receiver method can declare. */
  datatype ThreadMode = PosterThread | MainThread | Background | Async

  /** A receiver descriptor: method name, parameter types and thread mode.
      The thread mode is a nullable field in Java; `None` stands for null. */
  datatype RegisterMethodInfo = RegisterMethodInfo(
    methodName: string,
    params: seq<ClassName>,
    threadMode: Option<ThreadMode>)

  /** A subscribed object: its identity and its runtime class. */
  datatype Target = Target(id: nat, className: ClassName)

  /** A live registration: the target object and one of its descriptors. */
  datatype RegisterInfo = RegisterInfo(target: Target, methodInfo: RegisterMethodInfo)

  /** An argument object handed to `send`; only its identity matters to the bus. */
  type Arg = nat

  /** The address of a send: target class and method name. */
  datatype SubScriber = SubScriber(targetClass: ClassName, methodName: string)

  /** An event as the drain loop queues it. */
  datatype Event = Event(targetClass: ClassName, targetMethod: string, params: seq<Arg>, delayMillis: int)

  /** The exceptions the core lets escape to the caller. */
  datatype Fault =
    | SignalException(message: string)
    | IllegalStateException
    | NullPointerException

  /** How a call ends: normally, or by throwing `fault`. */
  datatype Outcome = Normal | Raised(fault: Fault)
}
