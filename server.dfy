/** DhcpServer.cs: the lease pool, its construction from the settings, the REQUEST
    sub-state classifier of RFC 2131 section 4.3.2, and the handler that answers each
    received datagram. Sockets, NIC queries and events are replaced by inputs and by a
    record of what was sent and what was reported. */
module Server {
  import opened Base
  import opened Definition
  import opened Settings
  import opened Packet
  import opened Data
  import opened StaticExtensions

  // ---------------------------------------------------------------------------------
  // Pool entries

  /** `OwnedIpAddress`: an address of the pool, whether it is allocated, and the MAC
      address it was last handed to. The source never reassigns `Ip`. */
  class OwnedIpAddress {
    const Ip: IPv4
    var IsAllocated: bool
    var AuthorizedClientMac: Option<string>

    constructor(ip: IPv4)
      ensures Ip == ip && !IsAllocated && AuthorizedClientMac == None
    {
      Ip := ip;
      IsAllocated := false;
      AuthorizedClientMac := None;
    }
  }

  /** The contents of one pool entry. */
  datatype Lease = Lease(ip: IPv4, granted: bool, mac: Option<string>)

  /** The contents of a list of pool entries, in list order. */
  ghost function Snapshot(entries: seq<OwnedIpAddress>): (r: seq<Lease>)
    reads entries
    ensures |r| == |entries|
    ensures forall i | 0 <= i < |entries| ::
      r[i] == Lease(entries[i].Ip, entries[i].IsAllocated, entries[i].AuthorizedClientMac)
  {
    seq(|entries|, i reads entries requires 0 <= i < |entries| =>
      Lease(entries[i].Ip, entries[i].IsAllocated, entries[i].AuthorizedClientMac))
  }

  /** New entries for a list of addresses: unallocated and authorized to nobody. */
  function FreshLeases(ips: seq<IPv4>): (r: seq<Lease>)
    ensures |r| == |ips| && forall i | 0 <= i < |ips| :: r[i] == Lease(ips[i], false, None)
  {
    seq(|ips|, i requires 0 <= i < |ips| => Lease(ips[i], false, None))
  }

  /** What the construction guarantees and the handler keeps: the addresses strictly
      ascending (so each at most once) and the server's own address not among them. */
  ghost predicate PoolInvariant(leases: seq<Lease>, serverIp: IPv4)
  {
    && (forall i, j | 0 <= i < j < |leases| :: ToLong(leases[i].ip) < ToLong(leases[j].ip))
    && (forall i | 0 <= i < |leases| :: leases[i].ip != serverIp)
  }

  // ---------------------------------------------------------------------------------
  // Pool construction

  /** The do-while loop of the constructor: add `start` unless it is the server, and go
      on with `start.Increment(mask)` until that is null. EndIp plays no part. */
  function RangeIps(start: IPv4, mask: IPv4, serverIp: IPv4): (r: Result<seq<IPv4>>)
    decreases 0x1_0000_0000 - ToLong(start)
  {
    var head := if start != serverIp then [start] else [];
    var next := Increment(start, mask);
    if next.Err? then Err(next.fault)
    else if next.value.None? then Ok(head)
    else
      var rest := RangeIps(next.value.value, mask, serverIp);
      if rest.Err? then rest else Ok(head + rest.value)
  }

  /** `ips` followed by the addresses of `r`, or the fault of `r`. */
  function Prepend(ips: seq<IPv4>, r: Result<seq<IPv4>>): Result<seq<IPv4>>
  {
    if r.Err? then r else Ok(ips + r.value)
  }

  lemma PrependNothing(r: Result<seq<IPv4>>)
    ensures Prepend([], r) == r
  {
    if r.Ok? {
      assert [] + r.value == r.value;
    }
  }

  lemma PrependPrepend(a: seq<IPv4>, b: seq<IPv4>, r: Result<seq<IPv4>>)
    ensures Prepend(a, Prepend(b, r)) == Prepend(a + b, r)
  {
    if r.Ok? {
      assert a + (b + r.value) == (a + b) + r.value;
    }
  }

  /** The addresses of a range pool come in strictly ascending order from `start` on,
      and the server's address is not among them. */
  lemma {:induction false} RangeIpsAscending(start: IPv4, mask: IPv4, serverIp: IPv4)
    requires RangeIps(start, mask, serverIp).Ok?
    ensures var ips := RangeIps(start, mask, serverIp).value;
            && (forall i | 0 <= i < |ips| :: ToLong(start) <= ToLong(ips[i]) && ips[i] != serverIp)
            && (forall i, j | 0 <= i < j < |ips| :: ToLong(ips[i]) < ToLong(ips[j]))
            && (start != serverIp ==> |ips| > 0 && ips[0] == start)
    decreases 0x1_0000_0000 - ToLong(start)
  {
    var next := Increment(start, mask);
    if next.value.Some? {
      RangeIpsAscending(next.value.value, mask, serverIp);
    }
  }

  /** The constructor's result: the settings it keeps (with the interface's mask in
      place of the given one) and the pool's addresses in order. */
  datatype Configured = Configured(settings: DhcpServerSettings, ips: seq<IPv4>)

  /** The constructor's checks, in the source's order, and the settings it keeps.
      `localIps` stands for `Utils.GetLocalIp()` and `nicMask` for
      `ServerIp.GetSubnetMask()`. A null interface mask with a range is dereferenced by
      `IsInSameSubnet`. */
  function Checked(settings: DhcpServerSettings, localIps: seq<IPv4>, nicMask: Option<IPv4>): (r: Result<DhcpServerSettings>)
    ensures settings.ServerIp.None? ==> r == Err(ArgumentNull)
    ensures settings.ServerIp.Some? && settings.ServerIp.value !in localIps ==> r == Err(ArgumentOutOfRange)
    ensures settings.ServerIp.Some? && settings.ServerIp.value in localIps && (settings.StartIp.None? != settings.EndIp.None?)
            ==> r == Err(ArgumentNull)
    ensures r.Ok? <==> && IsValid(settings) && settings.ServerIp.value in localIps
                       && (settings.SubnetMask.None? || settings.SubnetMask == nicMask)
                       && (settings.StartIp.Some? ==>
                             && nicMask.Some?
                             && IsInSameSubnet(settings.StartIp.value, settings.EndIp.value, nicMask.value) == Ok(true)
                             && ToLong(settings.StartIp.value) <= ToLong(settings.EndIp.value))
    ensures r.Ok? ==> r.value == settings.(SubnetMask := nicMask)
  {
    if settings.ServerIp.None? then Err(ArgumentNull)
    else if settings.ServerIp.value !in localIps then Err(ArgumentOutOfRange)
    else if settings.StartIp.None? != settings.EndIp.None? then Err(ArgumentNull)
    else if settings.SubnetMask.Some? && settings.SubnetMask != nicMask then Err(ArgumentOutOfRange)
    else
      var s := settings.(SubnetMask := nicMask);
      if s.StartIp.None? then Ok(s)
      else if s.SubnetMask.None? then Err(NullReference)
      else if IsInSameSubnet(s.StartIp.value, s.EndIp.value, s.SubnetMask.value) != Ok(true) then Err(ArgumentOutOfRange)
      else if ToLong(s.StartIp.value) > ToLong(s.EndIp.value) then Err(ArgumentOutOfRange)
      else Ok(s)
  }

  /** GetAllSubnet's loop ends only for wildcards 1 .. 2^31 - 1 (see GetAllSubnet);
      settings without a range and with a mask must have one. */
  predicate PoolEnds(s: DhcpServerSettings)
  {
    s.StartIp.None? && s.SubnetMask.Some? ==> 1 <= Wildcard(s.SubnetMask.value) < 0x8000_0000
  }

  /** The constructor's settings, when its checks pass, are ones whose pool loop ends. */
  predicate SubnetPoolEnds(settings: DhcpServerSettings, localIps: seq<IPv4>, nicMask: Option<IPv4>)
  {
    Checked(settings, localIps, nicMask).Ok? ==> PoolEnds(Checked(settings, localIps, nicMask).value)
  }

  /** The pool's addresses for checked settings: the range loop, or every host of the
      server's subnet; `GetAllSubnet` dereferences a null mask. */
  function PoolIps(s: DhcpServerSettings): (r: Result<seq<IPv4>>)
    requires s.ServerIp.Some? && PoolEnds(s)
    ensures s.SubnetMask.None? ==> r == Err(NullReference)
    ensures s.SubnetMask.Some? && s.StartIp.Some? ==> r == RangeIps(s.StartIp.value, s.SubnetMask.value, s.ServerIp.value)
    ensures s.SubnetMask.Some? && s.StartIp.None? ==>
              r == Ok(SubnetHosts(NetworkInt(s.ServerIp.value, s.SubnetMask.value), s.ServerIp.value,
                                  Wildcard(s.SubnetMask.value) - 1))
  {
    if s.SubnetMask.None? then Err(NullReference)
    else if s.StartIp.Some? then RangeIps(s.StartIp.value, s.SubnetMask.value, s.ServerIp.value)
    else Ok(SubnetHosts(NetworkInt(s.ServerIp.value, s.SubnetMask.value), s.ServerIp.value, Wildcard(s.SubnetMask.value) - 1))
  }

  /** The constructor on values: the checks, then the pool. */
  function Construct(settings: DhcpServerSettings, localIps: seq<IPv4>, nicMask: Option<IPv4>): (r: Result<Configured>)
    requires SubnetPoolEnds(settings, localIps, nicMask)
    ensures r.Err? <==> Checked(settings, localIps, nicMask).Err? || PoolIps(Checked(settings, localIps, nicMask).value).Err?
    ensures r.Ok? ==> r.value.settings == settings.(SubnetMask := nicMask) && nicMask.Some?
    ensures (&& settings.ServerIp.Some? && settings.ServerIp.value in localIps
             && settings.StartIp.None? && settings.EndIp.None? && settings.SubnetMask.None? && nicMask.Some?)
            ==> r.Ok?
  {
    var checked := Checked(settings, localIps, nicMask);
    if checked.Err? then Err(checked.fault)
    else
      var ips := PoolIps(checked.value);
      if ips.Err? then Err(ips.fault) else Ok(Configured(checked.value, ips.value))
  }

  /** Every pool the constructor builds keeps the pool invariant: ascending addresses,
      never the server's own. */
  lemma ConstructPoolInvariant(settings: DhcpServerSettings, localIps: seq<IPv4>, nicMask: Option<IPv4>)
    requires SubnetPoolEnds(settings, localIps, nicMask)
    requires Construct(settings, localIps, nicMask).Ok?
    ensures PoolInvariant(FreshLeases(Construct(settings, localIps, nicMask).value.ips), settings.ServerIp.value)
  {
    PoolIpsInvariant(Checked(settings, localIps, nicMask).value);
  }

  /** The addresses PoolIps gives are strictly ascending and never the server's. */
  lemma PoolIpsInvariant(s: DhcpServerSettings)
    requires s.ServerIp.Some? && PoolEnds(s) && PoolIps(s).Ok?
    ensures PoolInvariant(FreshLeases(PoolIps(s).value), s.ServerIp.value)
  {
    var ips := PoolIps(s).value;
    var server := s.ServerIp.value;
    var mask := s.SubnetMask.value;
    if s.StartIp.Some? {
      RangeIpsAscending(s.StartIp.value, mask, server);
    } else {
      var net := NetworkInt(server, mask);
      var count := Wildcard(mask) - 1;
      NetworkIntIsNetwork(server, mask);
      BroadcastIsNetworkPlusWildcard(server, mask);
      SubnetHostsAscending(net, server, count);
      SubnetHostsMembers(net, server, count);
      forall i | 0 <= i < |ips| ensures ips[i] != server {
        assert ips[i] in ips;
      }
    }
  }

  /** EndIp bounds nothing: two settings that differ only in EndIp and are both accepted
      give the same pool. */
  lemma RangeIgnoresEnd(settings: DhcpServerSettings, localIps: seq<IPv4>, nicMask: Option<IPv4>, otherEnd: IPv4)
    requires SubnetPoolEnds(settings, localIps, nicMask) && settings.StartIp.Some?
    requires Construct(settings, localIps, nicMask).Ok?
    requires Construct(settings.(EndIp := Some(otherEnd)), localIps, nicMask).Ok?
    ensures Construct(settings, localIps, nicMask).value.ips == Construct(settings.(EndIp := Some(otherEnd)), localIps, nicMask).value.ips
  {
  }

  /** An example of the range running past EndIp: with the range 10.0.0.1 .. 10.0.0.1 and
      the mask 255.255.255.252, Increment stops only after 10.0.0.2, the last host before
      the broadcast address 10.0.0.3, so the pool holds two addresses. */
  lemma RangeOvershootsEnd()
    ensures var settings := DhcpServerSettings(Some([10, 0, 0, 9]), Some([10, 0, 0, 1]), Some([10, 0, 0, 1]),
                                               None, None, None, 3600, None);
            Construct(settings, [[10, 0, 0, 9]], Some([255, 255, 255, 252]))
            == Ok(Configured(settings.(SubnetMask := Some([255, 255, 255, 252])), [[10, 0, 0, 1], [10, 0, 0, 2]]))
  {
    SameSubnetReflexive([10, 0, 0, 1], [255, 255, 255, 252]);
    ExampleRange([10, 0, 0, 1], [10, 0, 0, 2], [255, 255, 255, 252], [10, 0, 0, 9]);
  }

  /** The range loop of the example. The addresses are parameters so that the
      verifier unfolds the functions on them only as far as the proof needs. */
  lemma ExampleRange(one: IPv4, two: IPv4, mask: IPv4, server: IPv4)
    requires one == [10, 0, 0, 1] && two == [10, 0, 0, 2] && mask == [255, 255, 255, 252] && server == [10, 0, 0, 9]
    ensures RangeIps(one, mask, server) == Ok([one, two])
  {
    ExampleIncrements(one, two, mask);
    assert one != server && two != server;
    assert RangeIps(two, mask, server) == Ok([two]);
    assert RangeIps(one, mask, server) == Prepend([one], RangeIps(two, mask, server));
    assert [one] + [two] == [one, two];
  }

  /** The two calls of Increment in the example. */
  lemma ExampleIncrements(one: IPv4, two: IPv4, mask: IPv4)
    requires one == [10, 0, 0, 1] && two == [10, 0, 0, 2] && mask == [255, 255, 255, 252]
    ensures Increment(one, mask) == Ok(Some(two))
    ensures Increment(two, mask) == Ok(None)
  {
    assert ToLong(one) == 0x0A00_0001 && ToLong(two) == 0x0A00_0002 && ToLong(mask) == 0xFFFF_FFFC;
    ExampleNetwork();
    assert NetworkInt(one, mask) == 0x0A00_0000 && NetworkInt(two, mask) == 0x0A00_0000;
  }

  /** Both hosts of the example lie in the network 10.0.0.0. */
  lemma ExampleNetwork()
    ensures AndWord(0x0A00_0001, 0xFFFF_FFFC) == 0x0A00_0000
    ensures AndWord(0x0A00_0002, 0xFFFF_FFFC) == 0x0A00_0000
    ensures ToBytes(0x0A00_0002) == [10, 0, 0, 2]
  {
    assert ToBytes(0x0A00_0001) == [10, 0, 0, 1];
    assert ToBytes(0x0A00_0002) == [10, 0, 0, 2];
    assert ToBytes(0xFFFF_FFFC) == [255, 255, 255, 252];
    OctetAnds();
  }

  /** The octet ANDs the example needs. */
  lemma OctetAnds()
    ensures AndOctet(10, 255) == 10 && AndOctet(0, 255) == 0
    ensures AndOctet(1, 252) == 0 && AndOctet(2, 252) == 0
  {
  }

  // ---------------------------------------------------------------------------------
  // Classifying a REQUEST

  /** The client states of RFC 2131 section 4.3.2 that a DHCPREQUEST can come from. */
  datatype DhcpRequestType = Unknown | Selecting | InitReboot | ReNewing | ReBinding

  /** `GetDhcpRequestType`: the first rule that applies decides. `endPoint` is the
      datagram's source address. */
  function GetDhcpRequestType(client: ClientInformation, endPoint: AddressBytes, serverIp: IPv4): (r: DhcpRequestType)
    ensures r == Selecting <==> client.ServerAddress.Some? && client.RequestAddress.Some? && client.ClientAddress == ANY
    ensures r == InitReboot <==> client.ServerAddress.None? && client.RequestAddress.Some? && client.ClientAddress == ANY
    ensures r == ReNewing <==> client.ServerAddress.None? && client.RequestAddress.None? && endPoint == serverIp
    ensures r == ReBinding <==> client.ServerAddress.None? && client.RequestAddress.None? && endPoint != serverIp
                                && endPoint == BROADCAST
  {
    if client.ServerAddress.Some? && client.RequestAddress.Some? && client.ClientAddress == ANY then Selecting
    else if client.ServerAddress.None? && client.RequestAddress.Some? && client.ClientAddress == ANY then InitReboot
    else if client.ServerAddress.None? && client.RequestAddress.None? && endPoint == serverIp then ReNewing
    else if client.ServerAddress.None? && client.RequestAddress.None? && endPoint == BROADCAST then ReBinding
    else Unknown
  }

  // ---------------------------------------------------------------------------------
  // Looking up the pool

  /** The predicates the handler passes to `List.Find`. */
  datatype Criterion =
    | OfferableTo(mac: string)             // authorized to this MAC, or free and authorized to nobody
    | AtAddress(address: Option<AddressBytes>)  // `x.Ip.Equals(address)`, false for null
    | Unallocated                          // `x.IsAllocated == false`

  predicate Matches(c: Criterion, l: Lease)
  {
    match c
    case OfferableTo(mac) => l.mac == Some(mac) || (!l.granted && l.mac == None)
    case AtAddress(address) => address == Some(l.ip)
    case Unallocated => !l.granted
  }

  /** `List.Find`: the index of the first entry that matches, if any. */
  function FindFirst(leases: seq<Lease>, c: Criterion): (r: Option<nat>)
    ensures r.Some? ==> r.value < |leases| && Matches(c, leases[r.value])
                        && forall j | 0 <= j < r.value :: !Matches(c, leases[j])
    ensures r.None? ==> forall j | 0 <= j < |leases| :: !Matches(c, leases[j])
  {
    if |leases| == 0 then None
    else if Matches(c, leases[0]) then Some(0)
    else
      var rest := FindFirst(leases[1..], c);
      if rest.None? then None else Some(rest.value + 1)
  }

  // ---------------------------------------------------------------------------------
  // Handling a datagram, on values

  /** A datagram handed to `UdpListener.SendData`. */
  datatype Datagram = Datagram(dest: IPv4, bytes: seq<byte>)

  /** What the server's behaviour can be seen by: the pool, the datagrams sent, the
      errors reported through ErrorRaised, and whether it has terminated its listener. */
  datatype Observed = Observed(leases: seq<Lease>, sent: seq<Datagram>, errors: seq<Fault>, terminated: bool)

  /** The state after a handler call and how the call ended. */
  datatype Step = Step(after: Observed, outcome: Outcome)

  /** How a handler call can end: failing, it has only reported the fault and
      terminated; succeeding, it has not terminated and has either sent one datagram or
      reported at most one error. */
  predicate Reported(o: Observed, r: Step)
  {
    && (r.outcome.Failure? ==> r.after == o.(errors := o.errors + [r.outcome.fault], terminated := true))
    && (r.outcome.Success? ==>
          && r.after.terminated == o.terminated
          && ((r.after.sent == o.sent && |o.errors| <= |r.after.errors| <= |o.errors| + 1)
              || (r.after.errors == o.errors && |r.after.sent| == |o.sent| + 1 && r.after.sent[..|o.sent|] == o.sent)))
  }

  /** The catch of UdpListener_Received: report, terminate, rethrow. */
  function Fatal(o: Observed, fault: Fault): (r: Step)
    ensures r.outcome == Failure(fault) && r.after.terminated
    ensures r.after.leases == o.leases && r.after.sent == o.sent && r.after.errors == o.errors + [fault]
  {
    Step(o.(errors := o.errors + [fault], terminated := true), Failure(fault))
  }

  /** `SendDhcpMessage`: build the reply for the entry's address and send it to `dest`.
      A null entry (its `.Ip` dereferenced) and a failed build are reported and
      swallowed. */
  function SendReply(o: Observed, f: Fields, settings: DhcpServerSettings, dest: IPv4,
                     msgType: DhcpMessageType, ip: Option<IPv4>): (r: Observed)
    ensures r.leases == o.leases && r.terminated == o.terminated
    ensures (r.sent == o.sent && |r.errors| == |o.errors| + 1) || (r.errors == o.errors && |r.sent| == |o.sent| + 1)
    ensures |r.sent| == |o.sent| + 1 ==> r.sent[..|o.sent|] == o.sent && r.sent[|o.sent|].dest == dest
    ensures ip.None? ==> r == o.(errors := o.errors + [NullReference])
  {
    if ip.None? then o.(errors := o.errors + [NullReference])
    else
      var b := BuildSend(false, f, msgType, settings, ip.value);
      if b.result.Err? then o.(errors := o.errors + [b.result.fault])
      else o.(sent := o.sent + [Datagram(dest, b.result.value)])
  }

  /** A lease after a client has been given it. */
  function Granted(l: Lease, mac: string): Lease
  {
    Lease(l.ip, true, Some(mac))
  }

  /** DISCOVER: offer the first entry authorized to this MAC or free and authorized to
      nobody, by broadcast. */
  function DiscoverStep(o: Observed, settings: DhcpServerSettings, f: Fields, client: ClientInformation): (r: Step)
    ensures Reported(o, r)
  {
    var k := FindFirst(o.leases, OfferableTo(client.MacAddress));
    if k.None? then Fatal(o, NullReference)
    else Step(SendReply(o, f, settings, BROADCAST, Offer, Some(o.leases[k.value].ip)), Success)
  }

  /** SELECTING: only when the client chose this server; grant the requested entry if it
      is free, and do nothing if it is taken. */
  function SelectingStep(o: Observed, settings: DhcpServerSettings, f: Fields, client: ClientInformation): (r: Step)
    requires settings.ServerIp.Some?
    ensures Reported(o, r)
  {
    if client.ServerAddress != Some(settings.ServerIp.value) then Step(o, Success)
    else
      var k := FindFirst(o.leases, AtAddress(client.RequestAddress));
      if k.None? then Fatal(o, NullReference)
      else
        var l := o.leases[k.value];
        if l.granted then Step(o, Success)
        else
          var granted := o.(leases := o.leases[k.value := Granted(l, client.MacAddress)]);
          Step(SendReply(granted, f, settings, BROADCAST, Ack, Some(l.ip)), Success)
  }

  /** INIT-REBOOT (`dest` broadcast) and RENEWING (`dest` ciaddr): acknowledge the entry
      at `address` when it is authorized to this MAC; the pool is left alone. */
  function ConfirmStep(o: Observed, settings: DhcpServerSettings, f: Fields, client: ClientInformation,
                       address: Option<AddressBytes>, dest: IPv4): (r: Step)
    ensures Reported(o, r)
  {
    var k := FindFirst(o.leases, AtAddress(address));
    if k.None? then Fatal(o, NullReference)
    else if o.leases[k.value].mac != Some(client.MacAddress) then Step(o, Success)
    else Step(SendReply(o, f, settings, dest, Ack, Some(o.leases[k.value].ip)), Success)
  }

  /** REBINDING: grant the first unallocated entry, whoever it was authorized to. */
  function RebindingStep(o: Observed, settings: DhcpServerSettings, f: Fields, client: ClientInformation): (r: Step)
    ensures Reported(o, r)
  {
    var k := FindFirst(o.leases, Unallocated);
    if k.None? then Fatal(o, NullReference)
    else
      var l := o.leases[k.value];
      var granted := o.(leases := o.leases[k.value := Granted(l, client.MacAddress)]);
      Step(SendReply(granted, f, settings, BROADCAST, Ack, Some(l.ip)), Success)
  }

  /** REQUEST: by the client's state. */
  function RequestStep(o: Observed, settings: DhcpServerSettings, f: Fields, client: ClientInformation,
                       endPoint: AddressBytes): (r: Step)
    requires settings.ServerIp.Some?
    ensures Reported(o, r)
  {
    match GetDhcpRequestType(client, endPoint, settings.ServerIp.value)
    case Selecting => SelectingStep(o, settings, f, client)
    case InitReboot => ConfirmStep(o, settings, f, client, client.RequestAddress, BROADCAST)
    case ReNewing => ConfirmStep(o, settings, f, client, Some(client.ClientAddress), client.ClientAddress)
    case ReBinding => RebindingStep(o, settings, f, client)
    case Unknown => Fatal(o, ArgumentOutOfRange)
  }

  /** DECLINE: drop the entry at ciaddr from the pool. */
  function DeclineStep(o: Observed, client: ClientInformation): (r: Step)
    ensures Reported(o, r)
  {
    var k := FindFirst(o.leases, AtAddress(Some(client.ClientAddress)));
    if k.None? then Fatal(o, NullReference)
    else Step(o.(leases := o.leases[..k.value] + o.leases[k.value + 1..]), Success)
  }

  /** RELEASE: mark the entry at ciaddr free; it stays authorized to its MAC. */
  function ReleaseStep(o: Observed, client: ClientInformation): (r: Step)
    ensures Reported(o, r)
  {
    var k := FindFirst(o.leases, AtAddress(Some(client.ClientAddress)));
    if k.None? then Fatal(o, NullReference)
    else Step(o.(leases := o.leases[k.value := o.leases[k.value].(granted := false)]), Success)
  }

  /** The switch on the message type. INFORM hands SendDhcpMessage a null entry. */
  function Dispatch(o: Observed, settings: DhcpServerSettings, f: Fields, msgType: byte,
                    client: ClientInformation, endPoint: AddressBytes): (r: Step)
    requires settings.ServerIp.Some?
    ensures Reported(o, r)
  {
    if msgType == Code(Discover) then DiscoverStep(o, settings, f, client)
    else if msgType == Code(Request) then RequestStep(o, settings, f, client, endPoint)
    else if msgType == Code(Decline) then DeclineStep(o, client)
    else if msgType == Code(Release) then ReleaseStep(o, client)
    else if msgType == Code(Inform) then Step(SendReply(o, f, settings, client.ClientAddress, Ack, None), Success)
    else Fatal(o, ArgumentOutOfRange)
  }

  /** `UdpListener_Received` on values: decode, read the message type and the client
      view, then dispatch; anything thrown on the way is fatal. */
  function Received(o: Observed, settings: DhcpServerSettings, data: seq<byte>, endPoint: AddressBytes): (r: Step)
    requires settings.ServerIp.Some?
    ensures Reported(o, r)
  {
    var decoded := Decode(data);
    if decoded.Err? then Fatal(o, decoded.fault)
    else
      var f := decoded.value;
      var msgType := CurrentMessageType(false, f);
      if msgType.Err? then Fatal(o, msgType.fault)
      else
        var client := ClientInfoOf(false, f);
        if client.Err? then Fatal(o, client.fault)
        else Dispatch(o, settings, f, msgType.value, client.value, endPoint)
  }

  // ---------------------------------------------------------------------------------
  // Properties of the handler

  /** The message a datagram carries, when it decodes and names its type and client. */
  predicate Carries(data: seq<byte>, msgType: DhcpMessageType)
  {
    && Decode(data).Ok?
    && CurrentMessageType(false, Decode(data).value) == Ok(Code(msgType))
    && ClientInfoOf(false, Decode(data).value).Ok?
  }

  function ClientOf(data: seq<byte>): ClientInformation
    requires Decode(data).Ok? && ClientInfoOf(false, Decode(data).value).Ok?
  {
    ClientInfoOf(false, Decode(data).value).value
  }

  /** A DISCOVER for which no entry is offerable is fatal. */
  lemma DiscoverMissIsFatal(o: Observed, settings: DhcpServerSettings, data: seq<byte>, endPoint: AddressBytes)
    requires settings.ServerIp.Some? && Carries(data, Discover)
    requires FindFirst(o.leases, OfferableTo(ClientOf(data).MacAddress)).None?
    ensures Received(o, settings, data, endPoint) == Fatal(o, NullReference)
  {
    ReceivedCarried(o, settings, data, endPoint, Discover);
  }

  /** A DECLINE or RELEASE for an address outside the pool is fatal. */
  lemma ReturnMissIsFatal(o: Observed, settings: DhcpServerSettings, data: seq<byte>, endPoint: AddressBytes)
    requires settings.ServerIp.Some? && (Carries(data, Decline) || Carries(data, Release))
    requires FindFirst(o.leases, AtAddress(Some(ClientOf(data).ClientAddress))).None?
    ensures Received(o, settings, data, endPoint) == Fatal(o, NullReference)
  {
    if Carries(data, Decline) {
      ReceivedCarried(o, settings, data, endPoint, Decline);
    } else {
      ReceivedCarried(o, settings, data, endPoint, Release);
    }
  }

  /** A REQUEST is fatal when it fits none of the four client states, and when it is
      REBINDING with every entry allocated; SELECTING, INIT-REBOOT and RENEWING are fatal
      when the address they look up is outside the pool. */
  lemma RequestMissIsFatal(o: Observed, settings: DhcpServerSettings, data: seq<byte>, endPoint: AddressBytes)
    requires settings.ServerIp.Some? && Carries(data, Request)
    ensures var c := ClientOf(data);
            var kind := GetDhcpRequestType(c, endPoint, settings.ServerIp.value);
            && (kind == Unknown ==> Received(o, settings, data, endPoint) == Fatal(o, ArgumentOutOfRange))
            && (kind == ReBinding && FindFirst(o.leases, Unallocated).None?
                ==> Received(o, settings, data, endPoint) == Fatal(o, NullReference))
            && (kind == Selecting && c.ServerAddress == settings.ServerIp
                && FindFirst(o.leases, AtAddress(c.RequestAddress)).None?
                ==> Received(o, settings, data, endPoint) == Fatal(o, NullReference))
            && (kind == InitReboot && FindFirst(o.leases, AtAddress(c.RequestAddress)).None?
                ==> Received(o, settings, data, endPoint) == Fatal(o, NullReference))
            && (kind == ReNewing && FindFirst(o.leases, AtAddress(Some(c.ClientAddress))).None?
                ==> Received(o, settings, data, endPoint) == Fatal(o, NullReference))
  {
    ReceivedCarried(o, settings, data, endPoint, Request);
  }

  /** A datagram that decodes and names its type and client is handled by the switch on
      that type. */
  lemma ReceivedCarried(o: Observed, settings: DhcpServerSettings, data: seq<byte>, endPoint: AddressBytes,
                        t: DhcpMessageType)
    requires settings.ServerIp.Some? && Carries(data, t)
    ensures Received(o, settings, data, endPoint)
            == Dispatch(o, settings, Decode(data).value, Code(t), ClientOf(data), endPoint)
  {
  }

  /** INFORM never sends: the reply is attempted for a null entry, which is reported,
      and the server carries on with its pool untouched. */
  lemma InformNeverSends(o: Observed, settings: DhcpServerSettings, data: seq<byte>, endPoint: AddressBytes)
    requires settings.ServerIp.Some? && Carries(data, Inform)
    ensures Received(o, settings, data, endPoint) == Step(o.(errors := o.errors + [NullReference]), Success)
  {
  }

  /** A type byte that is none of DISCOVER, REQUEST, DECLINE, RELEASE and INFORM (OFFER,
      ACK and NAK included) is fatal. */
  lemma OtherTypesAreFatal(o: Observed, settings: DhcpServerSettings, data: seq<byte>, endPoint: AddressBytes)
    requires settings.ServerIp.Some? && Decode(data).Ok?
    requires CurrentMessageType(false, Decode(data).value).Ok? && ClientInfoOf(false, Decode(data).value).Ok?
    requires CurrentMessageType(false, Decode(data).value).value !in {1, 3, 4, 7, 8}
    ensures Received(o, settings, data, endPoint) == Fatal(o, ArgumentOutOfRange)
  {
  }

  /** DISCOVER changes no entry, and what it offers is the first entry authorized to this
      client or free and authorized to nobody: an entry authorized to another MAC is
      never offered. The offer is a broadcast BootReply whose yiaddr is that entry's
      address. */
  lemma DiscoverOffers(o: Observed, settings: DhcpServerSettings, data: seq<byte>, endPoint: AddressBytes)
    requires settings.ServerIp.Some? && Carries(data, Discover)
    requires Received(o, settings, data, endPoint).outcome.Success?
    ensures var r := Received(o, settings, data, endPoint);
            var k := FindFirst(o.leases, OfferableTo(ClientOf(data).MacAddress));
            && r.after.leases == o.leases && k.Some?
            && (o.leases[k.value].mac == None || o.leases[k.value].mac == Some(ClientOf(data).MacAddress))
            && (|r.after.sent| > |o.sent| ==>
                  var d := r.after.sent[|o.sent|];
                  && d.dest == BROADCAST
                  && Decode(d.bytes).Ok? && Decode(d.bytes).value.op == BOOT_REPLY
                  && Decode(d.bytes).value.yiaddr == o.leases[k.value].ip)
  {
    var f := Decode(data).value;
    var k := FindFirst(o.leases, OfferableTo(ClientOf(data).MacAddress));
    var ip := o.leases[k.value].ip;
    var r := Received(o, settings, data, endPoint);
    if |r.after.sent| > |o.sent| {
      BuiltBytesDecode(data, Offer, settings, ip);
      RewriteOnTheWire(f, Offer, settings, ip);
      var g := Rewrite(f, Offer, settings, ip).fields;
      BytesLayout(g);
    }
  }

  /** SELECTING acts only on a request naming this server. A free requested entry becomes
      allocated and authorized to the client (every other entry unchanged) and an ACK is
      attempted by broadcast; a taken one changes nothing and sends nothing. */
  lemma SelectingGrants(o: Observed, settings: DhcpServerSettings, data: seq<byte>, endPoint: AddressBytes)
    requires settings.ServerIp.Some? && Carries(data, Request)
    requires GetDhcpRequestType(ClientOf(data), endPoint, settings.ServerIp.value) == Selecting
    ensures var r := Received(o, settings, data, endPoint);
            var c := ClientOf(data);
            var k := FindFirst(o.leases, AtAddress(c.RequestAddress));
            && (c.ServerAddress != Some(settings.ServerIp.value) ==> r == Step(o, Success))
            && (c.ServerAddress == Some(settings.ServerIp.value) && k.Some? && o.leases[k.value].granted
                ==> r == Step(o, Success))
            && (c.ServerAddress == Some(settings.ServerIp.value) && k.Some? && !o.leases[k.value].granted
                ==> && r.outcome.Success?
                    && r.after.leases == o.leases[k.value := Lease(o.leases[k.value].ip, true, Some(c.MacAddress))]
                    && (|r.after.sent| > |o.sent| ==> r.after.sent[|o.sent|].dest == BROADCAST))
  {
  }

  /** INIT-REBOOT and RENEWING leave the pool alone and acknowledge only the client the
      entry is authorized to; RENEWING answers by unicast to ciaddr, INIT-REBOOT by
      broadcast. */
  lemma ConfirmKeepsPool(o: Observed, settings: DhcpServerSettings, data: seq<byte>, endPoint: AddressBytes)
    requires settings.ServerIp.Some? && Carries(data, Request)
    requires GetDhcpRequestType(ClientOf(data), endPoint, settings.ServerIp.value) in {InitReboot, ReNewing}
    requires Received(o, settings, data, endPoint).outcome.Success?
    ensures var r := Received(o, settings, data, endPoint);
            var c := ClientOf(data);
            var kind := GetDhcpRequestType(c, endPoint, settings.ServerIp.value);
            var k := FindFirst(o.leases, AtAddress(if kind == InitReboot then c.RequestAddress else Some(c.ClientAddress)));
            && r.after.leases == o.leases && k.Some?
            && (o.leases[k.value].mac != Some(c.MacAddress) ==> r == Step(o, Success))
            && (|r.after.sent| > |o.sent| ==>
                  && o.leases[k.value].mac == Some(c.MacAddress)
                  && r.after.sent[|o.sent|].dest == (if kind == ReNewing then c.ClientAddress else BROADCAST))
  {
  }

  /** REBINDING grants the first unallocated entry to the client, whoever it was
      authorized to before, and answers by broadcast. */
  lemma RebindingGrants(o: Observed, settings: DhcpServerSettings, data: seq<byte>, endPoint: AddressBytes)
    requires settings.ServerIp.Some? && Carries(data, Request)
    requires GetDhcpRequestType(ClientOf(data), endPoint, settings.ServerIp.value) == ReBinding
    requires Received(o, settings, data, endPoint).outcome.Success?
    ensures var r := Received(o, settings, data, endPoint);
            var k := FindFirst(o.leases, Unallocated);
            && k.Some? && (forall j | 0 <= j < k.value :: o.leases[j].granted)
            && r.after.leases == o.leases[k.value := Lease(o.leases[k.value].ip, true, Some(ClientOf(data).MacAddress))]
            && (|r.after.sent| > |o.sent| ==> r.after.sent[|o.sent|].dest == BROADCAST)
  {
  }

  /** DECLINE removes the entry at ciaddr from the pool, and sends and reports nothing. */
  lemma DeclineRemoves(o: Observed, settings: DhcpServerSettings, data: seq<byte>, endPoint: AddressBytes)
    requires settings.ServerIp.Some? && Carries(data, Decline)
    requires Received(o, settings, data, endPoint).outcome.Success?
    ensures var r := Received(o, settings, data, endPoint);
            var k := FindFirst(o.leases, AtAddress(Some(ClientOf(data).ClientAddress)));
            && k.Some? && r.after.sent == o.sent && r.after.errors == o.errors
            && r.after.leases == o.leases[..k.value] + o.leases[k.value + 1..]
  {
    ReceivedCarried(o, settings, data, endPoint, Decline);
  }

  /** RELEASE frees the entry at ciaddr, which stays authorized to its MAC, and sends and
      reports nothing. */
  lemma ReleaseKeepsMac(o: Observed, settings: DhcpServerSettings, data: seq<byte>, endPoint: AddressBytes)
    requires settings.ServerIp.Some? && Carries(data, Release)
    requires Received(o, settings, data, endPoint).outcome.Success?
    ensures var r := Received(o, settings, data, endPoint);
            var k := FindFirst(o.leases, AtAddress(Some(ClientOf(data).ClientAddress)));
            && k.Some? && r.after.sent == o.sent && r.after.errors == o.errors
            && r.after.leases == o.leases[k.value := Lease(o.leases[k.value].ip, false, o.leases[k.value].mac)]
  {
    ReceivedCarried(o, settings, data, endPoint, Release);
  }

  /** Handling a datagram never adds an address to the pool and keeps the pool invariant:
      addresses keep their order, and the server's own never appears. */
  lemma ReceivedKeepsInvariant(o: Observed, settings: DhcpServerSettings, data: seq<byte>, endPoint: AddressBytes)
    requires settings.ServerIp.Some? && PoolInvariant(o.leases, settings.ServerIp.value)
    ensures PoolInvariant(Received(o, settings, data, endPoint).after.leases, settings.ServerIp.value)
  {
    var server := settings.ServerIp.value;
    var decoded := Decode(data);
    if decoded.Ok? {
      var f := decoded.value;
      var t := CurrentMessageType(false, f);
      var c := ClientInfoOf(false, f);
      if t.Ok? && c.Ok? {
        var client := c.value;
        if t.value == Code(Request) {
          RequestKeepsInvariant(o, settings, f, client, endPoint);
        } else if t.value == Code(Decline) {
          var k := FindFirst(o.leases, AtAddress(Some(client.ClientAddress)));
          if k.Some? {
            RemovePreserves(o.leases, k.value, server);
          }
        } else if t.value == Code(Release) {
          var k := FindFirst(o.leases, AtAddress(Some(client.ClientAddress)));
          if k.Some? {
            UpdatePreserves(o.leases, k.value, o.leases[k.value].(granted := false), server);
          }
        }
      }
    }
  }

  /** The REQUEST handler keeps the pool invariant. */
  lemma RequestKeepsInvariant(o: Observed, settings: DhcpServerSettings, f: Fields, client: ClientInformation,
                              endPoint: AddressBytes)
    requires settings.ServerIp.Some? && PoolInvariant(o.leases, settings.ServerIp.value)
    ensures PoolInvariant(RequestStep(o, settings, f, client, endPoint).after.leases, settings.ServerIp.value)
  {
    var server := settings.ServerIp.value;
    match GetDhcpRequestType(client, endPoint, server)
    case Selecting =>
      var k := FindFirst(o.leases, AtAddress(client.RequestAddress));
      if client.ServerAddress == Some(server) && k.Some? {
        UpdatePreserves(o.leases, k.value, Granted(o.leases[k.value], client.MacAddress), server);
      }
    case ReBinding =>
      var k := FindFirst(o.leases, Unallocated);
      if k.Some? {
        UpdatePreserves(o.leases, k.value, Granted(o.leases[k.value], client.MacAddress), server);
      }
    case _ =>
  }

  /** Changing one entry but not its address keeps the invariant. */
  lemma UpdatePreserves(leases: seq<Lease>, k: nat, l: Lease, serverIp: IPv4)
    requires k < |leases| && l.ip == leases[k].ip && PoolInvariant(leases, serverIp)
    ensures PoolInvariant(leases[k := l], serverIp)
  {
  }

  /** Removing one entry keeps the invariant. */
  lemma RemovePreserves(leases: seq<Lease>, k: nat, serverIp: IPv4)
    requires k < |leases| && PoolInvariant(leases, serverIp)
    ensures PoolInvariant(leases[..k] + leases[k + 1..], serverIp)
  {
    var rest := leases[..k] + leases[k + 1..];
    assert forall i | 0 <= i < |rest| :: rest[i] == leases[if i < k then i else i + 1];
  }

  /** No entry appears twice in the list. */
  predicate Distinct(entries: seq<OwnedIpAddress>)
  {
    forall i, j | 0 <= i < j < |entries| :: entries[i] != entries[j]
  }

  /** Removing one entry from a list of distinct entries leaves them distinct. */
  lemma DistinctRemove(entries: seq<OwnedIpAddress>, k: nat)
    requires k < |entries| && Distinct(entries)
    ensures Distinct(entries[..k] + entries[k + 1..])
  {
    var rest := entries[..k] + entries[k + 1..];
    assert forall i | 0 <= i < |rest| :: rest[i] == entries[if i < k then i else i + 1];
  }

  /** The contents of a list with one entry removed are its contents with that entry's
      removed. */
  lemma SnapshotRemove(entries: seq<OwnedIpAddress>, k: nat)
    requires k < |entries|
    ensures Snapshot(entries[..k] + entries[k + 1..]) == Snapshot(entries)[..k] + Snapshot(entries)[k + 1..]
  {
    var rest := entries[..k] + entries[k + 1..];
    assert forall i | 0 <= i < |rest| :: rest[i] == entries[if i < k then i else i + 1];
  }

  // ---------------------------------------------------------------------------------
  // The server

  class DhcpServer {
    /** `_settings`, with the interface's mask in place of the given one. */
    const settings: DhcpServerSettings
    /** `ownedIpAddressPool`. */
    var pool: seq<OwnedIpAddress>
    /** Every `udpListener.SendData(dest, bytes)`, in order. */
    var sent: seq<Datagram>
    /** Every error reported through ErrorRaised, in order. */
    var errors: seq<Fault>
    /** Whether Terminate has been called. */
    var terminated: bool

    ghost predicate Valid()
      reads this, pool
    {
      && settings.ServerIp.Some?
      && Distinct(pool)
      && PoolInvariant(Snapshot(pool), settings.ServerIp.value)
    }

    ghost function Observe(): Observed
      reads this, pool
    {
      Observed(Snapshot(pool), sent, errors, terminated)
    }

    constructor(settings: DhcpServerSettings, pool: seq<OwnedIpAddress>)
      ensures this.settings == settings && this.pool == pool
      ensures sent == [] && errors == [] && !terminated
    {
      this.settings := settings;
      this.pool := pool;
      sent := [];
      errors := [];
      terminated := false;
    }

    /** `new DhcpServer(settings)`, given the local addresses and the interface mask. */
    static method Create(settings: DhcpServerSettings, localIps: seq<IPv4>, nicMask: Option<IPv4>) returns (r: Result<DhcpServer>)
      requires SubnetPoolEnds(settings, localIps, nicMask)
      ensures r.Err? <==> Construct(settings, localIps, nicMask).Err?
      ensures r.Err? ==> r.fault == Construct(settings, localIps, nicMask).fault
      ensures r.Ok? ==> var s := r.value;
        && fresh(s) && s.Valid() && s.settings == Construct(settings, localIps, nicMask).value.settings
        && Snapshot(s.pool) == FreshLeases(Construct(settings, localIps, nicMask).value.ips)
        && s.sent == [] && s.errors == [] && !s.terminated
    {
      var checked := Checked(settings, localIps, nicMask);
      if checked.Err? {
        return Err(checked.fault);
      }
      var s := checked.value;
      if s.SubnetMask.None? {
        return Err(NullReference);
      }
      var ips: seq<IPv4>;
      if s.StartIp.Some? {
        var range := RangeAddresses(s.StartIp.value, s.SubnetMask.value, s.ServerIp.value);
        if range.Err? {
          return Err(range.fault);
        }
        ips := range.value;
      } else {
        ips := GetAllSubnet(s.ServerIp.value, s.SubnetMask.value);
      }
      assert Ok(ips) == PoolIps(s);
      var entries := NewEntries(ips);
      ConstructPoolInvariant(settings, localIps, nicMask);
      var server := new DhcpServer(s, entries);
      return Ok(server);
    }

    /** The do-while loop over Increment, collecting the addresses it adds. */
    static method RangeAddresses(start: IPv4, mask: IPv4, serverIp: IPv4) returns (r: Result<seq<IPv4>>)
      ensures r == RangeIps(start, mask, serverIp)
    {
      var ips: seq<IPv4> := [];
      var current := start;
      PrependNothing(RangeIps(start, mask, serverIp));
      while true
        invariant Prepend(ips, RangeIps(current, mask, serverIp)) == RangeIps(start, mask, serverIp)
        decreases 0x1_0000_0000 - ToLong(current)
      {
        var head := if current != serverIp then [current] else [];
        var next := Increment(current, mask);
        if next.Err? {
          return Err(next.fault);
        }
        if next.value.None? {
          assert ips + head == RangeIps(start, mask, serverIp).value;
          return Ok(ips + head);
        }
        PrependPrepend(ips, head, RangeIps(next.value.value, mask, serverIp));
        ips := ips + head;
        current := next.value.value;
      }
    }

    /** `.Select(ip => new OwnedIpAddress { Ip = ip, IsAllocated = false }).ToList()`. */
    static method NewEntries(ips: seq<IPv4>) returns (entries: seq<OwnedIpAddress>)
      ensures Snapshot(entries) == FreshLeases(ips)
      ensures Distinct(entries)
      ensures forall i | 0 <= i < |entries| :: fresh(entries[i])
    {
      entries := [];
      var i := 0;
      while i < |ips|
        invariant 0 <= i <= |ips| && |entries| == i
        invariant Snapshot(entries) == FreshLeases(ips[..i])
        invariant Distinct(entries)
        invariant forall a | 0 <= a < |entries| :: fresh(entries[a])
      {
        var entry := new OwnedIpAddress(ips[i]);
        entries := entries + [entry];
        i := i + 1;
      }
      assert ips[..i] == ips;
    }

    /** `ownedIpAddressPool.Find(...)`. */
    method Find(c: Criterion) returns (found: Option<OwnedIpAddress>)
      ensures found.None? <==> FindFirst(Snapshot(pool), c).None?
      ensures found.Some? ==> found.value == pool[FindFirst(Snapshot(pool), c).value]
    {
      var i := 0;
      while i < |pool|
        invariant 0 <= i <= |pool|
        invariant forall j | 0 <= j < i :: !Matches(c, Snapshot(pool)[j])
      {
        if Matches(c, Lease(pool[i].Ip, pool[i].IsAllocated, pool[i].AuthorizedClientMac)) {
          return Some(pool[i]);
        }
        i := i + 1;
      }
      return None;
    }

    /** `entry.IsAllocated = true; entry.AuthorizedClientMac = mac`. */
    method Grant(entry: OwnedIpAddress, ghost k: nat, mac: string)
      requires Valid() && k < |pool| && pool[k] == entry
      modifies entry
      ensures pool == old(pool)
      ensures Valid()
      ensures Observe() == old(Observe()).(leases := old(Snapshot(pool))[k := Granted(old(Snapshot(pool))[k], mac)])
    {
      entry.IsAllocated := true;
      entry.AuthorizedClientMac := Some(mac);
    }

    /** `entry.IsAllocated = false`. */
    method Free(entry: OwnedIpAddress, ghost k: nat)
      requires Valid() && k < |pool| && pool[k] == entry
      modifies entry
      ensures pool == old(pool)
      ensures Valid()
      ensures Observe() == old(Observe()).(leases := old(Snapshot(pool))[k := old(Snapshot(pool))[k].(granted := false)])
    {
      entry.IsAllocated := false;
    }

    /** `ownedIpAddressPool.Remove(entry)`: the first element that is this very object. */
    method Remove(entry: OwnedIpAddress, ghost k: nat)
      requires Valid() && k < |pool| && pool[k] == entry
      modifies this`pool
      ensures Valid()
      ensures pool == old(pool[..k] + pool[k + 1..])
      ensures Snapshot(pool) == old(Snapshot(pool)[..k] + Snapshot(pool)[k + 1..])
    {
      var i := 0;
      while pool[i] != entry
        invariant 0 <= i <= k
        decreases k - i
      {
        i := i + 1;
      }
      assert i == k;
      ghost var before := Snapshot(pool);
      SnapshotRemove(pool, k);
      DistinctRemove(pool, k);
      RemovePreserves(before, k, settings.ServerIp.value);
      pool := pool[..i] + pool[i + 1..];
    }

    /** Give an entry to a client and acknowledge it by broadcast, as SELECTING and
        REBINDING do. */
    method GrantAndAck(entry: OwnedIpAddress, ghost k: nat, data: DhcpData, mac: string)
      requires Valid() && k < |pool| && pool[k] == entry
      requires data.Valid() && !data.IsBuiltTobeSent && data.settings == settings
      modifies this`sent, this`errors, entry, data.Parts()
      ensures pool == old(pool)
      ensures Observe() == SendReply(old(Observe()).(leases := old(Snapshot(pool))[k := Granted(old(Snapshot(pool))[k], mac)]),
                                     old(data.packet.Value()), settings, BROADCAST, Ack, Some(entry.Ip))
    {
      Grant(entry, k, mac);
      SendDhcpMessage(BROADCAST, Ack, data, Some(entry));
    }

    /** The catch of UdpListener_Received. */
    method Fail(fault: Fault) returns (outcome: Outcome)
      modifies this`errors, this`terminated
      ensures pool == old(pool)
      ensures Step(Observe(), outcome) == Fatal(old(Observe()), fault)
    {
      errors := errors + [fault];
      terminated := true;
      outcome := Failure(fault);
    }

    /** `SendDhcpMessage(dest, msgType, data, newClient)`. */
    method SendDhcpMessage(dest: IPv4, msgType: DhcpMessageType, data: DhcpData, newClient: Option<OwnedIpAddress>)
      requires data.Valid() && !data.IsBuiltTobeSent && data.settings == settings
      modifies this`sent, this`errors, data.Parts()
      ensures pool == old(pool)
      ensures Observe() == SendReply(old(Observe()), old(data.packet.Value()), settings, dest, msgType,
                                     if newClient.Some? then Some(newClient.value.Ip) else None)
    {
      ghost var leases := Snapshot(pool);
      ghost var f := data.packet.Value();
      if newClient.None? {
        errors := errors + [NullReference];
        return;
      }
      var dataToSend := data.BuildSendData(msgType, newClient.value.Ip);
      assert dataToSend == BuildSend(false, f, msgType, settings, newClient.value.Ip).result;
      assert Snapshot(pool) == leases;
      if dataToSend.Err? {
        errors := errors + [dataToSend.fault];
        return;
      }
      sent := sent + [Datagram(dest, dataToSend.value)];
    }

    /** `UdpListener_Received(data, endPoint)`. */
    method UdpListener_Received(data: seq<byte>, endPoint: AddressBytes) returns (outcome: Outcome)
      requires Valid()
      modifies this, pool
      ensures Valid()
      ensures Step(Observe(), outcome) == Received(old(Observe()), settings, data, endPoint)
    {
      ghost var o := Observe();
      var created := DhcpData.Create(data, settings);
      if created.Err? {
        outcome := Fail(created.fault);
        return;
      }
      var dhcpData := created.value;
      var msgType := dhcpData.GetCurrentMessageType();
      if msgType.Err? {
        outcome := Fail(msgType.fault);
        return;
      }
      var client := dhcpData.GetClientInfo();
      if client.Err? {
        outcome := Fail(client.fault);
        return;
      }
      ReceivedKeepsInvariant(o, settings, data, endPoint);
      outcome := ReceiveMessage(dhcpData, msgType.value, client.value, endPoint);
    }

    /** The switch on the message type in UdpListener_Received. */
    method ReceiveMessage(data: DhcpData, msgType: byte, client: ClientInformation, endPoint: AddressBytes)
      returns (outcome: Outcome)
      requires Valid() && data.Valid() && !data.IsBuiltTobeSent && data.settings == settings
      modifies this, pool, data.Parts()
      ensures Distinct(pool)
      ensures Step(Observe(), outcome) == Dispatch(old(Observe()), settings, old(data.packet.Value()), msgType, client, endPoint)
    {
      if msgType == Code(Discover) {
        outcome := ReceiveDiscover(data, client);
      } else if msgType == Code(Request) {
        outcome := ReceiveRequest(data, client, endPoint);
      } else if msgType == Code(Decline) {
        outcome := ReceiveDecline(client);
      } else if msgType == Code(Release) {
        outcome := ReceiveRelease(client);
      } else if msgType == Code(Inform) {
        SendDhcpMessage(client.ClientAddress, Ack, data, None);
        outcome := Success;
      } else {
        outcome := Fail(ArgumentOutOfRange);
      }
    }

    method ReceiveDiscover(data: DhcpData, client: ClientInformation) returns (outcome: Outcome)
      requires Valid() && data.Valid() && !data.IsBuiltTobeSent && data.settings == settings
      modifies this`sent, this`errors, this`terminated, data.Parts()
      ensures pool == old(pool)
      ensures Step(Observe(), outcome) == DiscoverStep(old(Observe()), settings, old(data.packet.Value()), client)
    {
      var newIp := Find(OfferableTo(client.MacAddress));
      if newIp.None? {
        outcome := Fail(NullReference);
        return;
      }
      SendDhcpMessage(BROADCAST, Offer, data, newIp);
      outcome := Success;
    }

    method ReceiveRequest(data: DhcpData, client: ClientInformation, endPoint: AddressBytes) returns (outcome: Outcome)
      requires Valid() && data.Valid() && !data.IsBuiltTobeSent && data.settings == settings
      modifies this`sent, this`errors, this`terminated, pool, data.Parts()
      ensures pool == old(pool)
      ensures Step(Observe(), outcome) == RequestStep(old(Observe()), settings, old(data.packet.Value()), client, endPoint)
    {
      match GetDhcpRequestType(client, endPoint, settings.ServerIp.value)
      case Selecting =>
        outcome := ReceiveSelecting(data, client);
      case InitReboot =>
        outcome := ReceiveConfirm(data, client, client.RequestAddress, BROADCAST);
      case ReNewing =>
        outcome := ReceiveConfirm(data, client, Some(client.ClientAddress), client.ClientAddress);
      case ReBinding =>
        outcome := ReceiveRebinding(data, client);
      case Unknown =>
        outcome := Fail(ArgumentOutOfRange);
    }

    method ReceiveSelecting(data: DhcpData, client: ClientInformation) returns (outcome: Outcome)
      requires Valid() && data.Valid() && !data.IsBuiltTobeSent && data.settings == settings
      modifies this`sent, this`errors, this`terminated, pool, data.Parts()
      ensures pool == old(pool)
      ensures Step(Observe(), outcome) == SelectingStep(old(Observe()), settings, old(data.packet.Value()), client)
    {
      if client.ServerAddress != Some(settings.ServerIp.value) {
        return Success;
      }
      var allocatedIp := Find(AtAddress(client.RequestAddress));
      if allocatedIp.None? {
        outcome := Fail(NullReference);
        return;
      }
      if allocatedIp.value.IsAllocated {
        return Success;
      }
      ghost var k := FindFirst(Snapshot(pool), AtAddress(client.RequestAddress)).value;
      GrantAndAck(allocatedIp.value, k, data, client.MacAddress);
      outcome := Success;
    }

    /** INIT-REBOOT (broadcast) and RENEWING (unicast to ciaddr). */
    method ReceiveConfirm(data: DhcpData, client: ClientInformation, address: Option<AddressBytes>, dest: IPv4)
      returns (outcome: Outcome)
      requires Valid() && data.Valid() && !data.IsBuiltTobeSent && data.settings == settings
      modifies this`sent, this`errors, this`terminated, data.Parts()
      ensures pool == old(pool)
      ensures Step(Observe(), outcome) == ConfirmStep(old(Observe()), settings, old(data.packet.Value()), client, address, dest)
    {
      var entry := Find(AtAddress(address));
      if entry.None? {
        outcome := Fail(NullReference);
        return;
      }
      if entry.value.AuthorizedClientMac == Some(client.MacAddress) {
        SendDhcpMessage(dest, Ack, data, entry);
      }
      outcome := Success;
    }

    method ReceiveRebinding(data: DhcpData, client: ClientInformation) returns (outcome: Outcome)
      requires Valid() && data.Valid() && !data.IsBuiltTobeSent && data.settings == settings
      modifies this`sent, this`errors, this`terminated, pool, data.Parts()
      ensures pool == old(pool)
      ensures Step(Observe(), outcome) == RebindingStep(old(Observe()), settings, old(data.packet.Value()), client)
    {
      var reBindIp := Find(Unallocated);
      if reBindIp.None? {
        outcome := Fail(NullReference);
        return;
      }
      ghost var k := FindFirst(Snapshot(pool), Unallocated).value;
      GrantAndAck(reBindIp.value, k, data, client.MacAddress);
      outcome := Success;
    }

    method ReceiveDecline(client: ClientInformation) returns (outcome: Outcome)
      requires Valid()
      modifies this`pool, this`errors, this`terminated
      ensures Distinct(pool)
      ensures Step(Observe(), outcome) == DeclineStep(old(Observe()), client)
    {
      var declinedIp := Find(AtAddress(Some(client.ClientAddress)));
      if declinedIp.None? {
        outcome := Fail(NullReference);
        return;
      }
      Remove(declinedIp.value, FindFirst(Snapshot(pool), AtAddress(Some(client.ClientAddress))).value);
      outcome := Success;
    }

    method ReceiveRelease(client: ClientInformation) returns (outcome: Outcome)
      requires Valid()
      modifies this`errors, this`terminated, pool
      ensures pool == old(pool)
      ensures Step(Observe(), outcome) == ReleaseStep(old(Observe()), client)
    {
      var releasedIp := Find(AtAddress(Some(client.ClientAddress)));
      if releasedIp.None? {
        outcome := Fail(NullReference);
        return;
      }
      Free(releasedIp.value, FindFirst(Snapshot(pool), AtAddress(Some(client.ClientAddress))).value);
      outcome := Success;
    }
  }
}
