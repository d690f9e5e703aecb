/** Values that travel between the client, the dispatcher and the satellites, and the
    few pieces of Java semantics the core relies on: 32-bit `int` arithmetic, `null`,
    and exceptions (a thread that throws writes nothing back). */
module Comm {

  /** Java's `int`, also the payload of a non-null `Integer`. */
  newtype int32 = x: int | -0x8000_0000 <= x < 0x8000_0000

  /** Two's-complement wrap-around, as Java's `int` addition does it. */
  function Wrap(x: int): (r: int32)
    ensures -0x8000_0000 <= x < 0x8000_0000 ==> r as int == x
    ensures (x - r as int) % 0x1_0000_0000 == 0
  {
    ((x + 0x8000_0000) % 0x1_0000_0000 - 0x8000_0000) as int32
  }

  datatype Option<+T> = None | Some(value: T)

  /** An `Object` as the core sees it: `null`, an `Integer`, or anything else. */
  datatype Value = NullValue | IntValue(i: int32) | OtherObject(id: nat)

  /** The exceptions and errors the modelled code can raise. */
  datatype Throwable =
    | NullPointerException
    | ClassCastException
    | ClassNotFoundException
    | InstantiationException
    | IllegalAccessException
    | StackOverflowError
    | PlainException(message: string)

  /** The way a Java call ends: it returns a value or it throws. */
  datatype Outcome<+T> = Returned(value: T) | Threw(thrown: Throwable)

  /** A network endpoint; `name` is absent (null) for the dispatcher itself. */
  datatype ConnectivityInfo = ConnectivityInfo(name: Option<string>, host: string, port: int32)

  /** A request to run the tool class `toolName` on `parameters`. */
  datatype Job = Job(toolName: string, parameters: Value)

  datatype MessageType = JobRequest | RegisterSatellite | OtherType(code: int32)

  /** The message content; which one is expected is determined by the message type. */
  datatype Payload = JobPayload(job: Job) | InfoPayload(info: ConnectivityInfo)

  datatype Message = Message(messageType: MessageType, content: Payload)
}
