/** The protocol constants of Definition.cs: BOOTP op codes, the broadcast flag values,
    the DHCP message types (RFC 2132 section 9.6) and the option codes the server uses. */
module Definition {
  import opened Base

  // BootMessageType: the `op` field of RFC 2131 section 2.
  const BOOT_REQUEST: byte := 1
  const BOOT_REPLY: byte := 2

  // BroadCastType, compared against the whole first byte of `flags`.
  const BROADCAST_CAST: byte := 1
  const UNICAST_CAST: byte := 0

  // The option codes of RFC 2132 that the server reads or writes.
  const PAD: byte := 0                      // section 3.1
  const SUBNET_MASK: byte := 1              // section 3.3
  const ROUTER: byte := 3                   // section 3.5
  const DOMAIN_NAME_SERVER: byte := 6       // section 3.8
  const DOMAIN_NAME: byte := 15             // section 3.17
  const REQUESTED_IP_ADDRESS: byte := 50    // section 9.1
  const IP_ADDRESS_LEASE_TIME: byte := 51   // section 9.2
  const DHCP_MESSAGE_TYPE: byte := 53       // section 9.6
  const SERVER_IDENTIFIER: byte := 54       // section 9.7
  const PARAMETER_REQUEST_LIST: byte := 55  // section 9.8
  const RENEWAL_TIME_T1: byte := 58         // section 9.11
  const REBINDING_TIME_T2: byte := 59       // section 9.12
  const CLIENT_IDENTIFIER: byte := 61       // section 9.14
  const END: byte := 255                    // section 3.2

  /** DhcpMessgeType. On the wire it is the first value byte of option 53; the source casts
      that byte to the enum, so codes outside 1..8 reach the dispatcher's default branch. */
  datatype DhcpMessageType = Discover | Offer | Request | Decline | Ack | Nak | Release | Inform

  /** The code of each message type, as in RFC 2132 section 9.6. */
  function Code(t: DhcpMessageType): (b: byte)
    ensures 1 <= b <= 8
  {
    match t
    case Discover => 1
    case Offer => 2
    case Request => 3
    case Decline => 4
    case Ack => 5
    case Nak => 6
    case Release => 7
    case Inform => 8
  }

  /** The named enum member a byte denotes, if any (what a `switch` on the cast value sees). */
  function MessageTypeOf(b: byte): (r: Option<DhcpMessageType>)
    ensures r.Some? <==> 1 <= b <= 8
    ensures r.Some? ==> Code(r.value) == b
  {
    if b == 1 then Some(Discover)
    else if b == 2 then Some(Offer)
    else if b == 3 then Some(Request)
    else if b == 4 then Some(Decline)
    else if b == 5 then Some(Ack)
    else if b == 6 then Some(Nak)
    else if b == 7 then Some(Release)
    else if b == 8 then Some(Inform)
    else None
  }

  /** Decoding a code gives back the message type: distinct types have distinct codes. */
  lemma CodeRoundTrip(t: DhcpMessageType)
    ensures MessageTypeOf(Code(t)) == Some(t)
  {
  }

  /** No message type is coded as Pad or End, so a type byte never looks like a terminator. */
  lemma CodesAreNotMarkers(t: DhcpMessageType)
    ensures Code(t) != PAD && Code(t) != END
  {
  }
}
