# A verified model of the dhcpsv DHCP server core

dhcpsv is a small DHCP server (RFC 2131, with the options of RFC 2132). It listens for
client messages and keeps a pool of IPv4 addresses. Each pool entry records whether the
address is allocated and which client MAC address it is authorized to. The server
answers DISCOVER with OFFER and REQUEST with ACK. It acts on DECLINE and RELEASE.

The model has one Dafny module per source file:

- `Base`: bytes, `uint`, IPv4 addresses, null references, and exceptions as `Result` and `Outcome` values.
- `Definition` (Definition.cs): the BOOTP operation codes, the broadcast flag values, the DHCP message types and the option codes.
- `Settings` (DhcpServerSettings.cs): the configuration record and its validity test.
- `Utils` (Utils.cs): the two `AddToArray` overloads.
- `Bits`: bitwise AND and OR on naturals. They are the arithmetic behind the address masks.
- `StaticExtensions` (StaticExtensions.cs): address arithmetic.
  - Octets to a 32-bit integer and back.
  - Network and broadcast addresses, and the same-subnet test.
  - The hosts of a subnet, and the successor of an address.
  - Zero filling, and the hexadecimal rendering of the MAC address.
- `OptionsCodec` (Options.cs): the options field as code/length/value elements.
  - Looking an option up by code.
  - Appending an element.
  - The reply options the server writes.
- `Packet` (DhcpPacketStruct.cs): the message as its fixed 240-byte part plus the options.
  - Decoding and encoding, proved inverse to each other.
  - The in-place rewrite for OFFER, ACK and NAK.
- `Data` (DhcpData.cs): one received message.
  - Its message type and the client view taken from it.
  - Building it for sending, which can succeed only once.
- `Server` (DhcpServer.cs):
  - the pool entries (a class whose fields the handler updates in place);
  - the constructor's checks and the pool it builds;
  - the classifier of RFC 2131 section 4.3.2, which tells which client state a REQUEST comes from;
  - the handler `UdpListener_Received`.

Every exception the source can throw is a `Fault` value. The handler's behaviour is given on values by `Server.Received`. Its result is the pool contents, the datagrams sent, the errors reported and whether the server terminated. The class method `DhcpServer.UdpListener_Received` is proved to change its object and the pool entries exactly as `Received` says. The lemmas about `Received` state what each message type does.

Three behaviours of the source are kept as written:

- A pool lookup that finds nothing dereferences null. That exception reaches the catch of `UdpListener_Received`, which reports it, terminates and rethrows.
- A range pool runs from StartIp until `Increment` returns null. EndIp is never the bound.
- INFORM passes a null pool entry to `SendDhcpMessage`. This is reported as an error, and nothing is sent.

## Model

| member | source | states |
|---|---|---|
| Definition.Code | DhcpServer/Net/DHCP/Internals/Definition.cs:17-27 | The wire value of every DHCP message type lies in 1..8. |
| Definition.MessageTypeOf | DhcpServer/Net/DHCP/Internals/Definition.cs:17-27 | A byte names a message type exactly when it lies in 1..8, and then it is that type's wire value. |
| Definition.CodeRoundTrip | DhcpServer/Net/DHCP/Internals/Definition.cs:17-27 | Reading a type's wire value back gives that type. |
| Definition.CodesAreNotMarkers | DhcpServer/Net/DHCP/Internals/Definition.cs:17-32 | No message type value is the Pad (0) or End (255) code. |
| Settings.IsValidCases | DhcpServer/Net/DHCP/DhcpServerSettings.cs:21 | The settings are valid exactly when the server address is set and both range bounds or neither are set. |
| Utils.OrEmpty | DhcpServer/Net/DHCP/Utils.cs:29-32 | A null array reads as empty; any other array reads as its own contents. |
| Utils.AddToArray | DhcpServer/Net/DHCP/Utils.cs:25-39 | The result is the target (empty when null) followed by the new bytes: the prefix is unchanged and the length is the sum. |
| Utils.AddByteToArray | DhcpServer/Net/DHCP/Utils.cs:20-23 | The result is the target followed by exactly one byte. |
| StaticExtensions.ToBytesOfToLong | DhcpServer/Net/Extension/StaticExtensions.cs:40-49 | Every address survives conversion to its big-endian value and back (ToBytes of ToLong). |
| StaticExtensions.ToLongOfToBytes | DhcpServer/Net/Extension/StaticExtensions.cs:128-136 | Every 32-bit value survives conversion to its four octets and back. |
| StaticExtensions.ToLongInjective | DhcpServer/Net/Extension/StaticExtensions.cs:40-49 | Two addresses have the same integer value exactly when they are equal. |
| StaticExtensions.GetNetworkAddress | DhcpServer/Net/Extension/StaticExtensions.cs:67-81 | Succeeds exactly when address and mask have the same length, and then keeps that length; otherwise throws ArgumentException. |
| StaticExtensions.GetBroadcastAddress | DhcpServer/Net/Extension/StaticExtensions.cs:51-65 | Succeeds exactly when address and mask have the same length, and then keeps that length; otherwise throws ArgumentException. |
| StaticExtensions.NetworkIdempotent | DhcpServer/Net/Extension/StaticExtensions.cs:67-81 | Masking the network address again gives it back. |
| StaticExtensions.NetworkIntIsNetwork | DhcpServer/Net/Extension/StaticExtensions.cs:14-20 | The `hostInt & netmaskInt` of GetAllSubnet and Increment is the integer value of the octet-wise network address. |
| StaticExtensions.BroadcastIsNetworkPlusWildcard | DhcpServer/Net/Extension/StaticExtensions.cs:51-65 | The broadcast address's value is the network address's value plus the wildcard. |
| StaticExtensions.HostWithinSubnet | DhcpServer/Net/Extension/StaticExtensions.cs:51-81 | Network address <= host <= broadcast address, as integers. |
| StaticExtensions.IsInSameSubnet | DhcpServer/Net/Extension/StaticExtensions.cs:101-107 | Succeeds exactly when both addresses have the mask's length. |
| StaticExtensions.SameSubnetIffSameNetwork | DhcpServer/Net/Extension/StaticExtensions.cs:101-107 | Same subnet holds exactly when both network addresses exist and are equal. |
| StaticExtensions.SameSubnetReflexive | DhcpServer/Net/Extension/StaticExtensions.cs:101-107 | Every address is in its own subnet. |
| StaticExtensions.SameSubnetSymmetric | DhcpServer/Net/Extension/StaticExtensions.cs:101-107 | Swapping the two addresses gives the same answer, error cases included. |
| StaticExtensions.SameSubnetTransitive | DhcpServer/Net/Extension/StaticExtensions.cs:101-107 | Being in the same subnet is transitive. |
| StaticExtensions.Increment | DhcpServer/Net/Extension/StaticExtensions.cs:29-38 | Null exactly when the host is `net + wildcard - 1`. Otherwise: a throw exactly at 255.255.255.255, else an address whose value is host + 1. |
| StaticExtensions.IncrementStopsBelowBroadcast | DhcpServer/Net/Extension/StaticExtensions.cs:29-38 | Increment returns null exactly for the address just below the broadcast address. |
| StaticExtensions.IncrementBelowLastHost | DhcpServer/Net/Extension/StaticExtensions.cs:29-38 | Below that address Increment always yields an address. |
| StaticExtensions.GetAllSubnet | DhcpServer/Net/Extension/StaticExtensions.cs:14-27 | The loop yields the addresses net+1 .. net+wildcard-1 in order, skipping the host. |
| StaticExtensions.SubnetHostsMembers | DhcpServer/Net/Extension/StaticExtensions.cs:21-25 | Every element lies in net+1 .. net+count and is not the host; every such address other than the host is an element. |
| StaticExtensions.SubnetHostsAscending | DhcpServer/Net/Extension/StaticExtensions.cs:21-25 | The elements are strictly ascending. |
| StaticExtensions.SubnetHostsLength | DhcpServer/Net/Extension/StaticExtensions.cs:21-25 | One element per address, one fewer when the host is among them. |
| StaticExtensions.AllSubnetStrictlyInside | DhcpServer/Net/Extension/StaticExtensions.cs:14-27 | Every address GetAllSubnet returns lies strictly between the network and broadcast addresses and is not the host. |
| StaticExtensions.Zeros | DhcpServer/Net/Extension/StaticExtensions.cs:109-115 | n bytes, each of them 0. |
| StaticExtensions.FillZero | DhcpServer/Net/Extension/StaticExtensions.cs:109-115 | The array keeps its length and every element becomes 0. |
| StaticExtensions.HexDigit | DhcpServer/Net/Extension/StaticExtensions.cs:123 | Every digit is 0-9 or an upper-case A-F. |
| StaticExtensions.HexString | DhcpServer/Net/Extension/StaticExtensions.cs:121-124 | Two characters per byte. |
| StaticExtensions.ToString | DhcpServer/Net/Extension/StaticExtensions.cs:117-126 | Empty for null data. Throws IndexOutOfRange exactly when len exceeds the array. Otherwise 2*len characters (none for len <= 0). |
| StaticExtensions.HexStringUpperCase | DhcpServer/Net/Extension/StaticExtensions.cs:123 | Every character of the rendering is a digit or an upper-case A-F. |
| StaticExtensions.HexStringRoundTrip | DhcpServer/Net/Extension/StaticExtensions.cs:117-126 | Reading the digits back two at a time gives the bytes back. |
| StaticExtensions.Hex2RoundTrip | DhcpServer/Net/Extension/StaticExtensions.cs:123 | One byte's two digits read back as that byte. |
| StaticExtensions.ToStringRoundTrip | DhcpServer/Net/Extension/StaticExtensions.cs:117-126 | For len within the array, ToString succeeds and reads back as exactly the first len bytes. |
| OptionsCodec.Element | DhcpServer/Net/DHCP/Internals/Options.cs:273-278 | An element is the code, a length byte and the value: two bytes longer than the value. |
| OptionsCodec.FindOption | DhcpServer/Net/DHCP/Internals/Options.cs:28-52 | A value found is shorter than 256 bytes. |
| OptionsCodec.FindOptionFound | DhcpServer/Net/DHCP/Internals/Options.cs:33-38 | Any value the scan returns is exactly the L bytes at i+2 of an element whose code matches and which lies inside the array; nothing is read out of bounds. |
| OptionsCodec.FindOptionShift | DhcpServer/Net/DHCP/Internals/Options.cs:28-45 | The scan depends only on the bytes from the scan position on. |
| OptionsCodec.LookupEncoded | DhcpServer/Net/DHCP/Internals/Options.cs:22-53 | Encode, then scan: over well-formed elements followed by End, the scan finds the first element with the code, and null when there is none. |
| OptionsCodec.FirstElementFound | DhcpServer/Net/DHCP/Internals/Options.cs:33-38 | A first element with the code is returned whatever follows it. |
| OptionsCodec.SkipElement | DhcpServer/Net/DHCP/Internals/Options.cs:40-44 | An element with another code is skipped as a whole (2 + L bytes). |
| OptionsCodec.MessageTypeByte | DhcpServer/Net/DHCP/Internals/Options.cs:17-20 | A message type is read only from a field where the scan for option 53 succeeds. |
| OptionsCodec.LeaseTimeBytes | DhcpServer/Net/DHCP/Internals/Options.cs:69-73 | Four bytes whose big-endian value is the lease time. |
| OptionsCodec.RequestedValue | DhcpServer/Net/DHCP/Internals/Options.cs:97-253 | Throws exactly for code 1 when no mask is configured. Values are given only for codes 1, 3, 6 and 15. |
| OptionsCodec.Options.constructor | DhcpServer/Net/DHCP/Internals/Options.cs:12-15 | The object holds the given bytes. |
| OptionsCodec.Options.GetOptionData | DhcpServer/Net/DHCP/Internals/Options.cs:22-53 | The loop over the array returns what the scan FindOption specifies. |
| OptionsCodec.Options.GetDhcpMessageType | DhcpServer/Net/DHCP/Internals/Options.cs:17-20 | The first byte of option 53. Throws when the option is missing or empty. |
| OptionsCodec.Options.CreateOptionElement | DhcpServer/Net/DHCP/Internals/Options.cs:269-290 | The source (empty when null) followed by `[code, len, data...]`. |
| OptionsCodec.Options.ApplyOptionSettings | DhcpServer/Net/DHCP/Internals/Options.cs:55-267 | When the reply options exist, the field becomes them; otherwise it is unchanged and the fault is thrown. |
| OptionsCodec.Options.AppendRequested | DhcpServer/Net/DHCP/Internals/Options.cs:94-256 | The loop over option 55 appends the requested elements in request order, stopping at the first fault. |
| OptionsCodec.EncodeAppend | DhcpServer/Net/DHCP/Internals/Options.cs:269-290 | Encoding distributes over concatenation. |
| OptionsCodec.RequestedCodes | DhcpServer/Net/DHCP/Internals/Options.cs:94-256 | Only codes 1, 3, 6 and 15 that the client requested are answered. With a short server name the elements are well formed. |
| OptionsCodec.RequestedLookup | DhcpServer/Net/DHCP/Internals/Options.cs:94-256 | A requested code is answered with its configured value; a code not requested is not answered. |
| OptionsCodec.ReplyHead | DhcpServer/Net/DHCP/Internals/Options.cs:59-66 | Every reply names its own message type in option 53 and the server address in option 54. |
| OptionsCodec.NakReply | DhcpServer/Net/DHCP/Internals/Options.cs:59-77 | A NAK reply is exactly `[53,1,6][54,4,server]` and End, after the same faults as any other reply. |
| OptionsCodec.ReplyLeaseTimes | DhcpServer/Net/DHCP/Internals/Options.cs:68-90 | Options 51, 58 and 59 are present, each holding the lease time, exactly for an OFFER or for an ACK that does not answer an INFORM. |
| OptionsCodec.ReplyRequested | DhcpServer/Net/DHCP/Internals/Options.cs:92-256 | In a non-NAK reply, any other code is present exactly when requested and configured. |
| OptionsCodec.MissingRequestList | DhcpServer/Net/DHCP/Internals/Options.cs:92-94 | A non-NAK reply to a message without option 55 throws NullReferenceException. |
| OptionsCodec.ReplyLookup | DhcpServer/Net/DHCP/Internals/Options.cs:257-261 | The reply field reads back as the reply elements: End is its only terminator. |
| Packet.Decode | DhcpServer/Net/DHCP/Internals/DhcpPacketStruct.cs:13-43 | Decoding succeeds exactly for 240 bytes or more. It throws EndOfStream below 4 bytes and ArgumentOutOfRange otherwise. The options are bytes 240 onward. |
| Packet.BytesLayout | DhcpServer/Net/DHCP/Internals/DhcpPacketStruct.cs:107-127 | The fixed part is exactly 240 bytes and the options follow it. |
| Packet.BytesOfDecoded | DhcpServer/Net/DHCP/Internals/DhcpPacketStruct.cs:13-43 | Encoding a decoded datagram gives back the datagram byte for byte. |
| Packet.DecodeBytes | DhcpServer/Net/DHCP/Internals/DhcpPacketStruct.cs:107-127 | Decoding an encoded message gives back its fields. |
| Packet.RewriteOnTheWire | DhcpServer/Net/DHCP/Internals/DhcpPacketStruct.cs:45-105 | The reply bytes for OFFER, ACK and NAK, field by field (see the list below the table). |
| Packet.RewriteOtherTypes | DhcpServer/Net/DHCP/Internals/DhcpPacketStruct.cs:48-104 | Any other type leaves the message untouched. |
| Packet.RewriteKeepsLayout | DhcpServer/Net/DHCP/Internals/DhcpPacketStruct.cs:48-104 | Every field keeps its width, and htype, hlen, xid, flags, giaddr, chaddr and cookie are kept, even when the rewrite throws. |
| Packet.DhcpPacketStruct.constructor | DhcpServer/Net/DHCP/Internals/DhcpPacketStruct.cs:13-36 | The fields are read in order from the datagram and hold the decoded message. |
| Packet.DhcpPacketStruct.Read | DhcpServer/Net/DHCP/Internals/DhcpPacketStruct.cs:13-43 | Builds a struct exactly when decoding succeeds; otherwise the decoder's fault. |
| Packet.DhcpPacketStruct.ReadInto | DhcpServer/Net/DHCP/Internals/DhcpPacketStruct.cs:24-34 | The array receives the next bytes of the stream, and the position advances by its length. |
| Packet.DhcpPacketStruct.AddressArray | DhcpServer/Net/DHCP/Internals/DhcpPacketStruct.cs:58-59 | A new array holding the address bytes. |
| Packet.DhcpPacketStruct.ApplySettings | DhcpServer/Net/DHCP/Internals/DhcpPacketStruct.cs:45-105 | The in-place rewrite leaves the fields and the outcome that the value rewrite Rewrite gives. |
| Packet.DhcpPacketStruct.ApplyOffer | DhcpServer/Net/DHCP/Internals/DhcpPacketStruct.cs:50-66 | The OFFER branch equals Rewrite for OFFER. |
| Packet.DhcpPacketStruct.ApplyAck | DhcpServer/Net/DHCP/Internals/DhcpPacketStruct.cs:67-86 | The ACK branch equals Rewrite for ACK, with the INFORM test made before the options are rebuilt. |
| Packet.DhcpPacketStruct.ApplyNak | DhcpServer/Net/DHCP/Internals/DhcpPacketStruct.cs:87-103 | The NAK branch equals Rewrite for NAK, whatever the client address. |
| Packet.DhcpPacketStruct.ToArray | DhcpServer/Net/DHCP/Internals/DhcpPacketStruct.cs:107-127 | The appended fields are the encoding Bytes of the message. |
| Data.OptionAddress | DhcpServer/Net/DHCP/DhcpData.cs:64-67 | Null exactly when the option is absent. An address exactly when the value has 4 or 16 bytes. Otherwise IPAddress throws ArgumentException. |
| Data.ClientInfo | DhcpServer/Net/DHCP/DhcpData.cs:46-70 | See the list below the table. |
| Data.CurrentMessageType | DhcpServer/Net/DHCP/DhcpData.cs:24-30 | Throws once built; otherwise the option 53 byte. |
| Data.ClientInfoOf | DhcpServer/Net/DHCP/DhcpData.cs:46-49 | Throws once built; otherwise the client view. |
| Data.BuildOnce | DhcpServer/Net/DHCP/DhcpData.cs:32-42 | After a successful build the message is built, and a second build throws "already built" and changes nothing. |
| Data.BuiltOnlyOnSuccess | DhcpServer/Net/DHCP/DhcpData.cs:34-38 | The flag is set exactly when the build succeeds. A failed build throws the rewrite's fault and leaves the message open. |
| Data.QueriesAfterBuild | DhcpServer/Net/DHCP/DhcpData.cs:24-49 | Once built, neither the message type nor the client view can be read. |
| Data.BuiltBytesDecode | DhcpServer/Net/DHCP/DhcpData.cs:32-42 | A successful build's bytes decode to the rewritten message. For types other than OFFER, ACK and NAK they are the received datagram. |
| Data.DhcpData.constructor | DhcpServer/Net/DHCP/DhcpData.cs:18-22 | A freshly decoded message is not built. |
| Data.DhcpData.Create | DhcpServer/Net/DHCP/DhcpData.cs:18-22 | Exists exactly when the datagram decodes (otherwise the decoder's fault), unbuilt, holding the decoded message. |
| Data.DhcpData.GetCurrentMessageType | DhcpServer/Net/DHCP/DhcpData.cs:24-30 | Agrees with CurrentMessageType on the current state. |
| Data.DhcpData.BuildSendData | DhcpServer/Net/DHCP/DhcpData.cs:32-42 | Flag, message and result change as BuildSend says. |
| Data.DhcpData.GetClientInfo | DhcpServer/Net/DHCP/DhcpData.cs:46-70 | Agrees with ClientInfoOf on the current state. |
| Data.DhcpData.GetOptionAddress | DhcpServer/Net/DHCP/DhcpData.cs:64-67 | Agrees with OptionAddress on the message's options. |
| Server.OwnedIpAddress.constructor | DhcpServer/Net/DHCP/DhcpServer.cs:122 | A new entry is unallocated and authorized to nobody. |
| Server.Checked | DhcpServer/Net/DHCP/DhcpServer.cs:82-109 | See the list below the table. |
| Server.PoolIps | DhcpServer/Net/DHCP/DhcpServer.cs:111-131 | A null mask throws. With a range the pool is the Increment chain; otherwise it is GetAllSubnet of the server address. |
| Server.Construct | DhcpServer/Net/DHCP/DhcpServer.cs:80-132 | See the list below the table. |
| Server.RangeIpsAscending | DhcpServer/Net/DHCP/DhcpServer.cs:119-124 | The range pool's addresses rise strictly from StartIp (its first element unless StartIp is the server) and never include the server. |
| Server.PoolIpsInvariant | DhcpServer/Net/DHCP/DhcpServer.cs:111-131 | Both ways of building the pool give strictly ascending addresses without the server's. |
| Server.ConstructPoolInvariant | DhcpServer/Net/DHCP/DhcpServer.cs:80-132 | Every constructed pool holds the pool invariant: ascending addresses (each at most once) and never the server's. |
| Server.RangeIgnoresEnd | DhcpServer/Net/DHCP/DhcpServer.cs:119-124 | EndIp is not the loop bound: two accepted settings that differ only in EndIp build the same pool. |
| Server.RangeOvershootsEnd | DhcpServer/Net/DHCP/DhcpServer.cs:119-124 | With range 10.0.0.1..10.0.0.1 and mask 255.255.255.252 the pool is 10.0.0.1 and 10.0.0.2: it runs past EndIp. |
| Server.GetDhcpRequestType | DhcpServer/Net/DHCP/DhcpServer.cs:53-76 | Each of the four client states holds exactly under its rule of RFC 2131 section 4.3.2, made exclusive by first-match order; anything else is Unknown. |
| Server.FindFirst | DhcpServer/Net/DHCP/DhcpServer.cs:173-252 | `List.Find`: the index of an entry that matches with none before it, or none exactly when no entry matches. |
| Server.Fatal | DhcpServer/Net/DHCP/DhcpServer.cs:263-268 | The catch reports the fault, terminates and rethrows; pool and sent datagrams unchanged. |
| Server.SendReply | DhcpServer/Net/DHCP/DhcpServer.cs:277-288 | See the list below the table. |
| Server.DiscoverStep | DhcpServer/Net/DHCP/DhcpServer.cs:170-183 | The DISCOVER branch either fails with exactly one report and terminates, or succeeds without terminating, sending one datagram or reporting at most one error. |
| Server.RequestStep | DhcpServer/Net/DHCP/DhcpServer.cs:185-243 | The REQUEST branch keeps that same report-or-send-once discipline. |
| Server.Received | DhcpServer/Net/DHCP/DhcpServer.cs:158-269 | Every datagram ends in one of the two shapes: a fault reported and termination, or at most one send or report. |
| Server.ReceivedCarried | DhcpServer/Net/DHCP/DhcpServer.cs:162-168 | A datagram that decodes and names its type and client is handled by the switch on that type. |
| Server.DiscoverMissIsFatal | DhcpServer/Net/DHCP/DhcpServer.cs:173-174 | A DISCOVER with no offerable entry is fatal: NullReference reported, server terminated. |
| Server.RequestMissIsFatal | DhcpServer/Net/DHCP/DhcpServer.cs:185-243 | See the list below the table. |
| Server.ReturnMissIsFatal | DhcpServer/Net/DHCP/DhcpServer.cs:244-253 | A DECLINE or RELEASE for an address outside the pool is fatal. |
| Server.InformNeverSends | DhcpServer/Net/DHCP/DhcpServer.cs:254-258 | INFORM reports one NullReference, sends nothing, keeps the pool and does not terminate. |
| Server.OtherTypesAreFatal | DhcpServer/Net/DHCP/DhcpServer.cs:259-260 | Every other type byte (OFFER, ACK and NAK included) is fatal with ArgumentOutOfRange. |
| Server.DiscoverOffers | DhcpServer/Net/DHCP/DhcpServer.cs:170-183 | See the list below the table. |
| Server.SelectingGrants | DhcpServer/Net/DHCP/DhcpServer.cs:191-205 | See the list below the table. |
| Server.ConfirmKeepsPool | DhcpServer/Net/DHCP/DhcpServer.cs:206-227 | See the list below the table. |
| Server.RebindingGrants | DhcpServer/Net/DHCP/DhcpServer.cs:228-239 | The first unallocated entry (all before it allocated) is granted to the client whatever its earlier authorization; any ACK is broadcast. |
| Server.DeclineRemoves | DhcpServer/Net/DHCP/DhcpServer.cs:244-248 | The ciaddr entry is removed from the pool; nothing sent or reported. |
| Server.ReleaseKeepsMac | DhcpServer/Net/DHCP/DhcpServer.cs:249-253 | The ciaddr entry becomes unallocated and keeps its authorized MAC; nothing sent or reported. |
| Server.ReceivedKeepsInvariant | DhcpServer/Net/DHCP/DhcpServer.cs:158-269 | Handling any datagram keeps the pool invariant. |
| Server.RequestKeepsInvariant | DhcpServer/Net/DHCP/DhcpServer.cs:185-243 | The REQUEST branch keeps the pool invariant. |
| Server.UpdatePreserves | DhcpServer/Net/DHCP/DhcpServer.cs:198-199 | Changing an entry's flags keeps the pool invariant. |
| Server.RemovePreserves | DhcpServer/Net/DHCP/DhcpServer.cs:247 | Removing an entry keeps the pool invariant. |
| Server.DistinctRemove | DhcpServer/Net/DHCP/DhcpServer.cs:247 | Removing an entry from a list of distinct entries leaves them distinct. |
| Server.SnapshotRemove | DhcpServer/Net/DHCP/DhcpServer.cs:247 | The contents after removing an entry are the contents with that entry's removed. |
| Server.DhcpServer.constructor | DhcpServer/Net/DHCP/DhcpServer.cs:109 | The object keeps the settings and the pool; nothing sent or reported yet. |
| Server.DhcpServer.Create | DhcpServer/Net/DHCP/DhcpServer.cs:80-132 | See the list below the table. |
| Server.DhcpServer.RangeAddresses | DhcpServer/Net/DHCP/DhcpServer.cs:118-124 | The do-while loop yields exactly the Increment chain RangeIps, or its fault. |
| Server.DhcpServer.NewEntries | DhcpServer/Net/DHCP/DhcpServer.cs:129-130 | One new, distinct, unallocated and unauthorized entry per address, in order. |
| Server.DhcpServer.Find | DhcpServer/Net/DHCP/DhcpServer.cs:173-252 | The loop returns the entry at FindFirst's index, and null exactly when FindFirst finds none. |
| Server.DhcpServer.Grant | DhcpServer/Net/DHCP/DhcpServer.cs:198-199 | Only that entry changes: allocated and authorized to the MAC. |
| Server.DhcpServer.Free | DhcpServer/Net/DHCP/DhcpServer.cs:252 | Only that entry changes: unallocated, MAC kept. |
| Server.DhcpServer.Remove | DhcpServer/Net/DHCP/DhcpServer.cs:247 | `List.Remove` removes exactly that object, and the invariant still holds. |
| Server.DhcpServer.Fail | DhcpServer/Net/DHCP/DhcpServer.cs:263-268 | The state and the outcome Fatal gives. |
| Server.DhcpServer.SendDhcpMessage | DhcpServer/Net/DHCP/DhcpServer.cs:271-288 | The state SendReply gives. |
| Server.DhcpServer.UdpListener_Received | DhcpServer/Net/DHCP/DhcpServer.cs:158-269 | The handler changes the server and its entries as Received says, and keeps the invariant. |
| Server.DhcpServer.ReceiveMessage | DhcpServer/Net/DHCP/DhcpServer.cs:168-261 | The switch matches Dispatch, and the entries stay distinct. |
| Server.DhcpServer.ReceiveDiscover | DhcpServer/Net/DHCP/DhcpServer.cs:170-183 | The branch matches DiscoverStep. |
| Server.DhcpServer.ReceiveRequest | DhcpServer/Net/DHCP/DhcpServer.cs:185-243 | The branch matches RequestStep. |
| Server.DhcpServer.ReceiveSelecting | DhcpServer/Net/DHCP/DhcpServer.cs:191-205 | The branch matches SelectingStep. |
| Server.DhcpServer.ReceiveConfirm | DhcpServer/Net/DHCP/DhcpServer.cs:206-227 | The INIT-REBOOT and RENEWING branches match ConfirmStep. |
| Server.DhcpServer.ReceiveRebinding | DhcpServer/Net/DHCP/DhcpServer.cs:228-239 | The branch matches RebindingStep. |
| Server.DhcpServer.ReceiveDecline | DhcpServer/Net/DHCP/DhcpServer.cs:244-248 | The branch matches DeclineStep. |
| Server.DhcpServer.ReceiveRelease | DhcpServer/Net/DHCP/DhcpServer.cs:249-253 | The branch matches ReleaseStep. |

Details for the rows that refer here:

- **Packet.RewriteOnTheWire.** The result is a BootReply. It keeps the request's htype, hlen, xid, flags, giaddr, chaddr and cookie. hops, secs, siaddr, sname and file are zero. ciaddr is zero, except that a NAK keeps it. yiaddr is the client address; it is zero for a NAK and for an ACK that answers an INFORM. The options are the reply options.
- **Data.ClientInfo.** The view exists exactly when these all succeed: the MAC address (hlen at most 16) and the lookups of options 61, 50 and 54. The MAC is the hex string of the first hlen bytes of chaddr. ciaddr, yiaddr, giaddr and xid are copied as they are. CastType is the whole flags[0] byte. RequestAddress, ServerAddress and ClientIdentifier are set only when their option is present.
- **Server.Checked.** The checks come in the source's order:
  - a null server address throws ArgumentNull;
  - a server address that is not local throws ArgumentOutOfRange;
  - a one-sided range throws ArgumentNull.

  The settings pass exactly when all of these hold: they are valid, the server address is local, any given mask equals the interface's mask, and any range lies in one subnet with StartIp <= EndIp. Unset optional fields trigger none of these checks. The settings that pass are returned with the interface's mask.
- **Server.Construct.** Fails exactly when Checked or PoolIps fails. A built server keeps the settings with the interface mask. Valid settings with no range and no mask on a machine that has the address always construct.
- **Server.SendReply.** The pool is untouched. A null entry is reported as one NullReference. Otherwise the reply is built: either it is sent to the destination, or the build fault is reported. Exactly one of those happens.
- **Server.RequestMissIsFatal.** These REQUESTs are fatal:
  - an Unknown kind (ArgumentOutOfRange);
  - REBINDING with every entry allocated;
  - SELECTING addressed to this server, INIT-REBOOT or RENEWING whose lookup address is outside the pool.

  The last two cases report NullReference.
- **Server.DiscoverOffers.** DISCOVER changes no entry. The entry it offers is the first one authorized to this MAC or unallocated and unauthorized, so an entry authorized to another MAC is never offered. The offer is broadcast, decodes as a BootReply, and its yiaddr is that entry's address.
- **Server.SelectingGrants.** SELECTING does nothing unless option 54 is this server. It also does nothing when the requested entry is allocated. A free requested entry becomes allocated and authorized to the client, and every other entry stays as it was. The ACK is broadcast.
- **Server.ConfirmKeepsPool.** INIT-REBOOT and RENEWING leave the pool unchanged. They do nothing unless the entry is authorized to this MAC. A RENEWING ACK goes by unicast to ciaddr; an INIT-REBOOT ACK is broadcast.
- **Server.DhcpServer.Create.** Fails exactly when Construct does, with its fault. Otherwise it returns a new server that satisfies the invariant, has Construct's settings, and has one fresh entry per address.

## Left out

- StaticExtensions.Increment: `new IPAddress(long)` builds the successor, and the octet order it uses is defined by the .NET library. The model assumes it is the order ToLong reads (most significant octet first), so the successor's value is host + 1.
- StaticExtensions.GetAllSubnet: requires a wildcard between 1 and 2^31 - 1. For a wildcard of 0 (mask 255.255.255.255) `wildCard - 1` wraps around as a `uint`, and for 2^31 or more the `int` loop counter overflows. In both cases the source loop never ends. `Server.DhcpServer.Create` therefore requires SubnetPoolEnds: settings that pass the checks and build a subnet pool have such a mask.
- Server.DhcpServer.Create: the local addresses (`Utils.GetLocalIp`) and the interface mask (`GetSubnetMask`) are inputs, not DNS and NIC queries.
- Settings are IPv4 only: an IPv6 server address is not representable.
- OptionsCodec.ReplyLookup (and RequestedCodes, ReplyWellFormed, ReplyLeaseTimes, ReplyRequested) require the server name to be shorter than 256 bytes (NameFits), because a longer name's length byte wraps and the element no longer reads back. The reply itself is modelled for any name.
- Data.ClientInformation: `TransactionID` keeps the four xid bytes instead of `BitConverter.ToUInt32`, whose byte order depends on the platform. `ClientIdentifier` keeps the option bytes instead of `Encoding.Default.GetString`.
- Settings.DhcpServerSettings: `ServerName` is kept as the bytes `Encoding.ASCII.GetBytes` makes of it; character encoding is not modelled.
- Exceptions are kept as their class only (`Fault`). Messages and the rethrow-with-a-new-message wrapping in Options.cs, DhcpPacketStruct.cs and Utils.cs are not modelled, because every caller catches them in one handler.
- Data.DhcpData: `RelatedServer` is a copy of the server's settings, the only part of it that DhcpData reads.
- Packet.DhcpPacketStruct.Valid: states only the array non-aliasing the in-place zeroing needs, not that every array is distinct.
- Server.DhcpServer.Create: the range loop first computes the addresses and then creates one entry per address. The source creates each entry inside the loop. Object creation has no observable effect, so the pool is the same.
- UdpListener.cs, `Start` and `Terminate`: the socket is not modelled. `Start` is taken to have run, and `SendData` appends a (destination, bytes) record and never fails. `Terminate` sets a flag. A terminated server can still be handed datagrams; nothing in the model prevents it, as nothing in the source does.
- The `MessageRaised`, `Discovered` and `Requested` events and the logging classes are left out. `ErrorRaised` is kept as the list of reported faults.
- The relay agent message of INIT-REBOOT (DhcpServer.cs:208-209) is only a log message and is left out.
- DhcpServer.Test/Program.cs, the command-line bootstrap, is not part of this model.
