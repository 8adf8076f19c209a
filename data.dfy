/** DhcpData.cs: one received message on its way to becoming a reply. It can be queried
    (message type, client view) until it is built for sending, and it is built at most
    once. */
module Data {
  import opened Base
  import opened Definition
  import opened Settings
  import opened OptionsCodec
  import opened Packet
  import StaticExtensions

  /** `ClientInfomation`: what the server needs to know about the sender. The client
      identifier keeps the option's bytes and the transaction ID the `xid` bytes. */
  datatype ClientInformation = ClientInformation(
    RequestAddress: Option<AddressBytes>,
    ServerAddress: Option<AddressBytes>,
    ClientAddress: IPv4,
    YourAddress: IPv4,
    RelayAgentAddress: IPv4,
    ClientIdentifier: Option<seq<byte>>,
    MacAddress: string,
    TransactionID: seq<byte>,
    CastType: byte)

  /** `new IPAddress(GetOptionData(code))` when the option is present: IPAddress accepts
      4 and 16 bytes and throws ArgumentException for any other length. */
  function OptionAddress(options: seq<byte>, code: byte): (r: Result<Option<AddressBytes>>)
    ensures r == Ok(None) <==> FindOption(options, code, 0) == Ok(None)
    ensures r.Ok? && r.value.Some? <==> FindOption(options, code, 0).Ok? && FindOption(options, code, 0).value.Some?
                                        && |FindOption(options, code, 0).value.value| in {4, 16}
    ensures r.Ok? && r.value.Some? ==> FindOption(options, code, 0) == Ok(Some(r.value.value))
    ensures r.Err? && FindOption(options, code, 0).Ok? ==> r.fault == Argument
  {
    var data := FindOption(options, code, 0);
    if data.Err? then Err(data.fault)
    else if data.value.None? then Ok(None)
    else if |data.value.value| == 4 || |data.value.value| == 16 then Ok(Some(data.value.value))
    else Err(Argument)
  }

  /** The client view of a decoded message, on values: MacAddress first (which throws
      when hlen exceeds chaddr), then options 61, 50 and 54. */
  function ClientInfo(f: Fields): (r: Result<ClientInformation>)
    requires Sized(f)
    ensures r.Ok? <==> f.hlen <= |f.chaddr| && FindOption(f.options, CLIENT_IDENTIFIER, 0).Ok?
                       && OptionAddress(f.options, REQUESTED_IP_ADDRESS).Ok?
                       && OptionAddress(f.options, SERVER_IDENTIFIER).Ok?
    ensures f.hlen > |f.chaddr| ==> r == Err(IndexOutOfRange)
    ensures r.Ok? ==> var c := r.value;
      && c.MacAddress == StaticExtensions.HexString(f.chaddr[..f.hlen])
      && c.ClientAddress == f.ciaddr && c.YourAddress == f.yiaddr && c.RelayAgentAddress == f.giaddr
      && c.TransactionID == f.xid && c.CastType == f.flags[0]
      && c.ClientIdentifier == FindOption(f.options, CLIENT_IDENTIFIER, 0).value
      && c.RequestAddress == OptionAddress(f.options, REQUESTED_IP_ADDRESS).value
      && c.ServerAddress == OptionAddress(f.options, SERVER_IDENTIFIER).value
  {
    var mac := StaticExtensions.ToString(Some(f.chaddr), f.hlen);
    if mac.Err? then Err(mac.fault)
    else
      var identifier := FindOption(f.options, CLIENT_IDENTIFIER, 0);
      if identifier.Err? then Err(identifier.fault)
      else
        var requested := OptionAddress(f.options, REQUESTED_IP_ADDRESS);
        if requested.Err? then Err(requested.fault)
        else
          var serverId := OptionAddress(f.options, SERVER_IDENTIFIER);
          if serverId.Err? then Err(serverId.fault)
          else Ok(ClientInformation(requested.value, serverId.value, f.ciaddr, f.yiaddr, f.giaddr,
                                    identifier.value, mac.value, f.xid, f.flags[0]))
  }

  /** `GetCurrentMessageType` on values: it throws once the message is built. */
  function CurrentMessageType(built: bool, f: Fields): (r: Result<byte>)
    ensures built ==> r == Err(PacketBuilt)
    ensures !built ==> r == MessageTypeByte(f.options)
  {
    if built then Err(PacketBuilt) else MessageTypeByte(f.options)
  }

  /** `GetClientInfo` on values: it throws once the message is built. */
  function ClientInfoOf(built: bool, f: Fields): (r: Result<ClientInformation>)
    requires Sized(f)
    ensures built ==> r == Err(PacketBuilt)
    ensures !built ==> r == ClientInfo(f)
  {
    if built then Err(PacketBuilt) else ClientInfo(f)
  }

  /** The state after BuildSendData and what it returned. */
  datatype Built = Built(built: bool, fields: Fields, result: Result<seq<byte>>)

  /** `BuildSendData` on values: a built message refuses; otherwise the fields are
      rewritten, and only a rewrite that did not throw marks the message as built and
      yields its bytes. */
  function BuildSend(built: bool, f: Fields, msgType: DhcpMessageType, settings: DhcpServerSettings, clientIp: IPv4): Built
  {
    if built then Built(true, f, Err(AlreadyBuilt))
    else
      var rw := Rewrite(f, msgType, settings, clientIp);
      if rw.outcome.Failure? then Built(false, rw.fields, Err(rw.outcome.fault))
      else Built(true, rw.fields, Ok(Bytes(rw.fields)))
  }

  /** A message is built at most once: after any BuildSendData the next one throws
      "already built" and changes nothing. */
  lemma BuildOnce(f: Fields, msgType: DhcpMessageType, settings: DhcpServerSettings, clientIp: IPv4,
                  msgType2: DhcpMessageType, clientIp2: IPv4)
    requires BuildSend(false, f, msgType, settings, clientIp).result.Ok?
    ensures var first := BuildSend(false, f, msgType, settings, clientIp);
            var second := BuildSend(first.built, first.fields, msgType2, settings, clientIp2);
            && first.built
            && second == Built(true, first.fields, Err(AlreadyBuilt))
  {
  }

  /** The flag is set exactly when the build succeeds, and a failed build leaves the
      message open for another attempt. */
  lemma BuiltOnlyOnSuccess(f: Fields, msgType: DhcpMessageType, settings: DhcpServerSettings, clientIp: IPv4)
    ensures var b := BuildSend(false, f, msgType, settings, clientIp);
            && (b.built <==> b.result.Ok?)
            && (b.result.Err? ==> b.result.fault == Rewrite(f, msgType, settings, clientIp).outcome.fault)
  {
  }

  /** Once built, neither query answers. */
  lemma QueriesAfterBuild(f: Fields, msgType: DhcpMessageType, settings: DhcpServerSettings, clientIp: IPv4)
    requires Sized(f) && BuildSend(false, f, msgType, settings, clientIp).result.Ok?
    ensures var b := BuildSend(false, f, msgType, settings, clientIp);
            && Sized(b.fields)
            && CurrentMessageType(b.built, b.fields) == Err(PacketBuilt)
            && ClientInfoOf(b.built, b.fields) == Err(PacketBuilt)
  {
    RewriteKeepsLayout(f, msgType, settings, clientIp);
  }

  /** The bytes a successful build returns decode back to the rewritten message, and for
      an untouched type they are the received datagram itself. */
  lemma BuiltBytesDecode(data: seq<byte>, msgType: DhcpMessageType, settings: DhcpServerSettings, clientIp: IPv4)
    requires Decode(data).Ok?
    ensures var f := Decode(data).value;
            var b := BuildSend(false, f, msgType, settings, clientIp);
            && (b.result.Ok? ==> Decode(b.result.value) == Ok(b.fields))
            && (msgType !in {Offer, Ack, Nak} ==> b.result == Ok(data))
  {
    var f := Decode(data).value;
    RewriteKeepsLayout(f, msgType, settings, clientIp);
    var g := Rewrite(f, msgType, settings, clientIp).fields;
    DecodeBytes(g);
    if msgType !in {Offer, Ack, Nak} {
      RewriteOtherTypes(f, msgType, settings, clientIp);
      BytesOfDecoded(data);
    }
  }

  /** `DhcpData`: the decoded message, the flag, and the settings of the server it
      belongs to (the only part of `RelatedServer` it uses). */
  class DhcpData {
    var IsBuiltTobeSent: bool
    const settings: DhcpServerSettings
    const packet: DhcpPacketStruct

    ghost predicate Valid()
      reads this, packet
    {
      packet.Valid()
    }

    /** What building may change: the flag, the struct and the parts of it that
        ApplySettings writes. */
    function Parts(): set<object>
      reads this, packet
    {
      {this, packet, packet.secs, packet.ciaddr, packet.yiaddr, packet.siaddr, packet.sname, packet.file, packet.options}
    }

    /** The decoding constructor, for datagrams the packet decoder accepts. */
    constructor(data: seq<byte>, settings: DhcpServerSettings)
      requires |data| >= OPTION_OFFSET
      ensures Valid() && fresh(Parts() - {this}) && !IsBuiltTobeSent
      ensures this.settings == settings && packet.Value() == Decode(data).value
    {
      packet := new DhcpPacketStruct(data);
      IsBuiltTobeSent := false;
      this.settings := settings;
    }

    /** `new DhcpData(data) { RelatedServer = server }` with the decoder's exceptions. */
    static method Create(data: seq<byte>, settings: DhcpServerSettings) returns (r: Result<DhcpData>)
      ensures r.Err? <==> Decode(data).Err?
      ensures r.Err? ==> r.fault == Decode(data).fault
      ensures r.Ok? ==> var d := r.value;
        && fresh(d.Parts()) && d.Valid() && !d.IsBuiltTobeSent
        && d.settings == settings && d.packet.Value() == Decode(data).value
    {
      if |data| < 4 {
        return Err(EndOfStream);
      }
      if |data| < OPTION_OFFSET {
        return Err(ArgumentOutOfRange);
      }
      var d := new DhcpData(data, settings);
      return Ok(d);
    }

    method GetCurrentMessageType() returns (r: Result<byte>)
      requires Valid()
      ensures r == CurrentMessageType(IsBuiltTobeSent, packet.Value())
    {
      if IsBuiltTobeSent {
        return Err(PacketBuilt);
      }
      r := packet.options.GetDhcpMessageType();
    }

    method BuildSendData(msgType: DhcpMessageType, clientIp: IPv4) returns (r: Result<seq<byte>>)
      requires Valid()
      modifies Parts()
      ensures Valid()
      ensures Built(IsBuiltTobeSent, packet.Value(), r)
           == BuildSend(old(IsBuiltTobeSent), old(packet.Value()), msgType, settings, clientIp)
    {
      if !IsBuiltTobeSent {
        var outcome := packet.ApplySettings(msgType, settings, clientIp);
        if outcome.Failure? {
          return Err(outcome.fault);
        }
        IsBuiltTobeSent := true;
        var bytes := packet.ToArray();
        return Ok(bytes);
      }
      return Err(AlreadyBuilt);
    }

    method GetClientInfo() returns (r: Result<ClientInformation>)
      requires Valid()
      ensures Sized(packet.Value()) && r == ClientInfoOf(IsBuiltTobeSent, packet.Value())
    {
      if IsBuiltTobeSent {
        return Err(PacketBuilt);
      }
      var mac := StaticExtensions.ToString(Some(packet.chaddr[..]), packet.hlen);
      if mac.Err? {
        return Err(mac.fault);
      }
      var client := ClientInformation(None, None, packet.ciaddr[..], packet.yiaddr[..], packet.giaddr[..],
                                      None, mac.value, packet.xid[..], packet.flags[0]);
      var identifier := packet.options.GetOptionData(CLIENT_IDENTIFIER);
      if identifier.Err? {
        return Err(identifier.fault);
      }
      if identifier.value.Some? {
        client := client.(ClientIdentifier := identifier.value);
      }
      var requested := GetOptionAddress(REQUESTED_IP_ADDRESS);
      if requested.Err? {
        return Err(requested.fault);
      }
      if requested.value.Some? {
        client := client.(RequestAddress := requested.value);
      }
      var serverId := GetOptionAddress(SERVER_IDENTIFIER);
      if serverId.Err? {
        return Err(serverId.fault);
      }
      if serverId.value.Some? {
        client := client.(ServerAddress := serverId.value);
      }
      return Ok(client);
    }

    /** `new IPAddress(packet.options.GetOptionData(code))` behind its null test. */
    method GetOptionAddress(code: byte) returns (r: Result<Option<AddressBytes>>)
      requires Valid()
      ensures r == OptionAddress(packet.Value().options, code)
    {
      var data := packet.options.GetOptionData(code);
      if data.Err? {
        return Err(data.fault);
      }
      if data.value.None? {
        return Ok(None);
      }
      if |data.value.value| != 4 && |data.value.value| != 16 {
        return Err(Argument);
      }
      return Ok(Some(data.value.value));
    }
  }
}
