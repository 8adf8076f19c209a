/** Value types shared by every part of the model: the C# `byte` and `uint`,
    an IPv4 address as its four octets, nullable values and exceptions. */
module Base {

  /** A C# `byte`. */
  type byte = x: int | 0 <= x < 0x100

  /** A C# `uint`. */
  type uint32 = x: int | 0 <= x < 0x1_0000_0000

  /** `IPAddress.GetAddressBytes()` of any address: 4 octets (IPv4) or 16 (IPv6). The
      `IPAddress(byte[])` constructor throws ArgumentException for every other length. */
  type AddressBytes = s: seq<byte> | |s| == 4 || |s| == 16 witness [0, 0, 0, 0]

  /** `IPAddress.GetAddressBytes()` of an IPv4 address: four octets, most significant first. */
  type IPv4 = s: seq<byte> | |s| == 4 witness [0, 0, 0, 0]

  /** A reference that may be null. */
  datatype Option<+T> = None | Some(value: T)

  /** The exception classes the modelled code can throw. The server catches every one of them
      in the same handler, so only the class is kept, not the message text. */
  datatype Fault =
    | NullReference
    | IndexOutOfRange
    | ArgumentOutOfRange
    | ArgumentNull
    | Argument
    | EndOfStream
    | AlreadyBuilt
    | PacketBuilt

  /** The value of an expression that either returns normally or throws. */
  datatype Result<+T> = Ok(value: T) | Err(fault: Fault)

  /** How a `void` method ended: normally or by throwing. */
  datatype Outcome = Success | Failure(fault: Fault)

  /** `0.0.0.0` (`IPAddress.Any`). */
  const ANY: IPv4 := [0, 0, 0, 0]

  /** `255.255.255.255` (`IPAddress.Broadcast`). */
  const BROADCAST: IPv4 := [255, 255, 255, 255]
}
