/** DhcpPacketStruct.cs: the fixed part of a DHCP message (the BOOTP header of RFC 2131
    section 2, Figure 1, and the magic cookie of RFC 2131 section 3), followed by the
    options field. The server decodes a received datagram into these fields, rewrites
    some of them for its reply and encodes them back. */
module Packet {
  import opened Base
  import opened Definition
  import opened Settings
  import opened Utils
  import opened OptionsCodec
  import StaticExtensions

  /** `OptionOffset`: where the options field starts. */
  const OPTION_OFFSET: nat := 240

  // ---------------------------------------------------------------------------------
  // The message as values

  /** Every field of a message, in wire order. */
  datatype Fields = Fields(
    op: byte, htype: byte, hlen: byte, hops: byte,
    xid: seq<byte>, secs: seq<byte>, flags: seq<byte>,
    ciaddr: seq<byte>, yiaddr: seq<byte>, siaddr: seq<byte>, giaddr: seq<byte>,
    chaddr: seq<byte>, sname: seq<byte>, file: seq<byte>, cookie: seq<byte>,
    options: seq<byte>)

  /** The widths of RFC 2131 Figure 1: 4 + 2 + 2 + 4 * 4 + 16 + 64 + 128 + 4 = 236 bytes
      after the four one-byte fields. */
  predicate Sized(f: Fields)
  {
    && |f.xid| == 4 && |f.secs| == 2 && |f.flags| == 2
    && |f.ciaddr| == 4 && |f.yiaddr| == 4 && |f.siaddr| == 4 && |f.giaddr| == 4
    && |f.chaddr| == 16 && |f.sname| == 64 && |f.file| == 128 && |f.cookie| == 4
  }

  /** The bytes ToArray produces: the fields one after another, then the options. */
  function Bytes(f: Fields): seq<byte>
  {
    [f.op, f.htype, f.hlen, f.hops] + f.xid + f.secs + f.flags
      + f.ciaddr + f.yiaddr + f.siaddr + f.giaddr
      + f.chaddr + f.sname + f.file + f.cookie + f.options
  }

  /** What the decoding constructor reads. `BinaryReader.ReadByte` throws
      EndOfStreamException when fewer than four bytes arrive; with four or more,
      `ReadBytes` returns short arrays at the end of the stream and the final
      `ReadBytes(data.Length - OptionOffset)` throws ArgumentOutOfRangeException for a
      negative count. The magic cookie is taken as it comes. */
  function Decode(data: seq<byte>): (r: Result<Fields>)
    ensures r.Ok? <==> |data| >= OPTION_OFFSET
    ensures r.Err? ==> r.fault == (if |data| < 4 then EndOfStream else ArgumentOutOfRange)
    ensures r.Ok? ==> Sized(r.value) && r.value.options == data[OPTION_OFFSET..]
  {
    if |data| < 4 then Err(EndOfStream)
    else if |data| < OPTION_OFFSET then Err(ArgumentOutOfRange)
    else Ok(Fields(data[0], data[1], data[2], data[3],
                   data[4..8], data[8..10], data[10..12],
                   data[12..16], data[16..20], data[20..24], data[24..28],
                   data[28..44], data[44..108], data[108..236], data[236..240],
                   data[240..]))
  }

  /** The fixed part is exactly OptionOffset bytes long, and the options follow it. */
  lemma BytesLayout(f: Fields)
    requires Sized(f)
    ensures |Bytes(f)| == OPTION_OFFSET + |f.options|
    ensures Bytes(f)[OPTION_OFFSET..] == f.options
  {
    var b := Bytes(f);
    var headLen := |b| - |f.options|;
    assert headLen == OPTION_OFFSET;
  }

  /** Encoding a decoded message gives back the datagram, byte for byte. */
  lemma BytesOfDecoded(data: seq<byte>)
    requires |data| >= OPTION_OFFSET
    ensures Bytes(Decode(data).value) == data
  {
    var f := Decode(data).value;
    assert data == data[..4] + data[4..8] + data[8..10] + data[10..12]
      + data[12..16] + data[16..20] + data[20..24] + data[24..28]
      + data[28..44] + data[44..108] + data[108..236] + data[236..240] + data[240..];
    assert data[..4] == [f.op, f.htype, f.hlen, f.hops];
  }

  /** Decoding an encoded message gives back its fields. */
  lemma DecodeBytes(f: Fields)
    requires Sized(f)
    ensures Decode(Bytes(f)) == Ok(f)
  {
    var b := Bytes(f);
    BytesLayout(f);
    var g := Decode(b).value;
    assert b[4..8] == f.xid;
    assert b[8..10] == f.secs;
    assert b[10..12] == f.flags;
    assert b[12..16] == f.ciaddr;
    assert b[16..20] == f.yiaddr;
    assert b[20..24] == f.siaddr;
    assert b[24..28] == f.giaddr;
    assert b[28..44] == f.chaddr;
    assert b[44..108] == f.sname;
    assert b[108..236] == f.file;
    assert b[236..240] == f.cookie;
  }

  // ---------------------------------------------------------------------------------
  // Rewriting a request into a reply

  /** The fields and how ApplySettings ended. When it throws part way, the fields it has
      already rewritten stay rewritten. */
  datatype Rewritten = Rewritten(fields: Fields, outcome: Outcome)

  /** The fields with the reply options in place, or unchanged options and the fault. */
  function WithReplyOptions(f: Fields, reply: Result<seq<byte>>): Rewritten
  {
    if reply.Ok? then Rewritten(f.(options := reply.value), Success) else Rewritten(f, Failure(reply.fault))
  }

  /** `ApplySettings` on values. An OFFER sets op to BootReply and hops to 0, zeroes secs,
      ciaddr, siaddr, sname and file, and puts the client's address in yiaddr. An ACK does
      the same, but reads the old message type after zeroing ciaddr (throwing when there
      is none) and zeroes yiaddr instead when the old type is INFORM. A NAK keeps ciaddr
      and zeroes yiaddr. All three then rebuild the options. Every other type leaves the
      message as it is. */
  function Rewrite(f: Fields, msgType: DhcpMessageType, server: DhcpServerSettings, clientIp: IPv4): Rewritten
  {
    var reply := ReplyOptions(f.options, msgType, server);
    var started := f.(op := BOOT_REPLY, hops := 0, secs := StaticExtensions.Zeros(|f.secs|));
    match msgType
    case Offer =>
      WithReplyOptions(started.(ciaddr := StaticExtensions.Zeros(|f.ciaddr|), yiaddr := clientIp, siaddr := ANY,
                                sname := StaticExtensions.Zeros(|f.sname|), file := StaticExtensions.Zeros(|f.file|)), reply)
    case Ack =>
      var zeroed := started.(ciaddr := StaticExtensions.Zeros(|f.ciaddr|));
      var oldMsgType := MessageTypeByte(f.options);
      if oldMsgType.Err? then Rewritten(zeroed, Failure(oldMsgType.fault))
      else
        var your := if oldMsgType.value == Code(Inform) then StaticExtensions.Zeros(|f.yiaddr|) else clientIp;
        WithReplyOptions(zeroed.(yiaddr := your, siaddr := ANY,
                                 sname := StaticExtensions.Zeros(|f.sname|), file := StaticExtensions.Zeros(|f.file|)), reply)
    case Nak =>
      WithReplyOptions(started.(yiaddr := StaticExtensions.Zeros(|f.yiaddr|), siaddr := StaticExtensions.Zeros(|f.siaddr|),
                                sname := StaticExtensions.Zeros(|f.sname|), file := StaticExtensions.Zeros(|f.file|)), reply)
    case _ => Rewritten(f, Success)
  }

  /** The address the reply puts in yiaddr. */
  function YourAddress(f: Fields, msgType: DhcpMessageType, clientIp: IPv4): seq<byte>
  {
    if msgType == Nak || (msgType == Ack && MessageTypeByte(f.options) == Ok(Code(Inform))) then [0, 0, 0, 0]
    else clientIp
  }

  /** The reply on the wire. For OFFER, ACK and NAK a successful rewrite yields a
      BootReply of the same length layout: htype, hlen, xid, flags, giaddr, chaddr and the
      cookie are the request's; hops, secs, siaddr, sname and file are zero; ciaddr is
      zero except in a NAK, which keeps it; yiaddr is YourAddress; and the options field
      is the reply options. */
  lemma RewriteOnTheWire(f: Fields, msgType: DhcpMessageType, server: DhcpServerSettings, clientIp: IPv4)
    requires Sized(f) && msgType in {Offer, Ack, Nak}
    requires Rewrite(f, msgType, server, clientIp).outcome.Success?
    ensures var b := Bytes(Rewrite(f, msgType, server, clientIp).fields);
            && ReplyOptions(f.options, msgType, server).Ok?
            && |b| == OPTION_OFFSET + |ReplyOptions(f.options, msgType, server).value|
            && b[..4] == [BOOT_REPLY, f.htype, f.hlen, 0]
            && b[4..8] == f.xid && b[8..10] == [0, 0] && b[10..12] == f.flags
            && b[12..16] == (if msgType == Nak then f.ciaddr else [0, 0, 0, 0])
            && b[16..20] == YourAddress(f, msgType, clientIp)
            && b[20..24] == [0, 0, 0, 0] && b[24..28] == f.giaddr && b[28..44] == f.chaddr
            && b[44..236] == StaticExtensions.Zeros(192) && b[236..240] == f.cookie
            && b[OPTION_OFFSET..] == ReplyOptions(f.options, msgType, server).value
  {
    var g := Rewrite(f, msgType, server, clientIp).fields;
    assert Sized(g);
    DecodeBytes(g);
    var b := Bytes(g);
    assert b[44..236] == g.sname + g.file by {
      assert b[44..108] == g.sname && b[108..236] == g.file;
    }
  }

  /** Types other than OFFER, ACK and NAK leave the message untouched. */
  lemma RewriteOtherTypes(f: Fields, msgType: DhcpMessageType, server: DhcpServerSettings, clientIp: IPv4)
    requires msgType !in {Offer, Ack, Nak}
    ensures Rewrite(f, msgType, server, clientIp) == Rewritten(f, Success)
  {
  }

  /** Whatever happens, the rewrite keeps every field width, so the reply still has a
      240-byte fixed part, and never touches the client's identity fields. */
  lemma RewriteKeepsLayout(f: Fields, msgType: DhcpMessageType, server: DhcpServerSettings, clientIp: IPv4)
    requires Sized(f)
    ensures var g := Rewrite(f, msgType, server, clientIp).fields;
            && Sized(g)
            && g.htype == f.htype && g.hlen == f.hlen && g.xid == f.xid && g.flags == f.flags
            && g.giaddr == f.giaddr && g.chaddr == f.chaddr && g.cookie == f.cookie
  {
  }

  // ---------------------------------------------------------------------------------
  // The struct

  /** `DhcpPacketStruct`: the one-byte fields as values, the other fields as the byte
      arrays that BinaryReader produced, and the Options object. */
  class DhcpPacketStruct {
    var op: byte
    var htype: byte
    var hlen: byte
    var hops: byte
    var xid: array<byte>
    var secs: array<byte>
    var flags: array<byte>
    var ciaddr: array<byte>
    var yiaddr: array<byte>
    var siaddr: array<byte>
    var giaddr: array<byte>
    var chaddr: array<byte>
    var sname: array<byte>
    var file: array<byte>
    var cookie: array<byte>
    var options: Options

    /** The arrays and the Options object the fields refer to. */
    function Footprint(): set<object>
      reads this
    {
      {xid, secs, flags, ciaddr, yiaddr, siaddr, giaddr, chaddr, sname, file, cookie, options}
    }

    /** Field widths as read, and no array that ApplySettings zeroes in place (secs,
        ciaddr, yiaddr, siaddr, sname, file) shared with another field. Arrays of different
        widths are different arrays anyway, so only these pairs need stating. */
    ghost predicate Valid()
      reads this
    {
      && xid.Length == 4 && secs.Length == 2 && flags.Length == 2
      && ciaddr.Length == 4 && yiaddr.Length == 4 && siaddr.Length == 4 && giaddr.Length == 4
      && chaddr.Length == 16 && sname.Length == 64 && file.Length == 128 && cookie.Length == 4
      && secs != flags
      && ciaddr != xid && ciaddr != yiaddr && ciaddr != siaddr && ciaddr != giaddr && ciaddr != cookie
      && yiaddr != xid && yiaddr != siaddr && yiaddr != giaddr && yiaddr != cookie
      && siaddr != xid && siaddr != giaddr && siaddr != cookie
    }

    /** The message the struct holds. */
    function Value(): Fields
      reads this, Footprint()
    {
      Fields(op, htype, hlen, hops, xid[..], secs[..], flags[..],
             ciaddr[..], yiaddr[..], siaddr[..], giaddr[..],
             chaddr[..], sname[..], file[..], cookie[..], options.options)
    }

    /** The decoding constructor: read the fields in order from the datagram. The
        datagrams it throws on never reach it; see Read. */
    constructor(data: seq<byte>)
      requires |data| >= OPTION_OFFSET
      ensures Valid() && Value() == Decode(data).value
      ensures fresh(secs) && fresh(ciaddr) && fresh(yiaddr) && fresh(siaddr) && fresh(sname) && fresh(file) && fresh(options)
    {
      op := data[0];
      htype := data[1];
      hlen := data[2];
      hops := data[3];
      xid, secs, flags := new byte[4], new byte[2], new byte[2];
      ciaddr, yiaddr, siaddr, giaddr := new byte[4], new byte[4], new byte[4], new byte[4];
      chaddr, sname, file, cookie := new byte[16], new byte[64], new byte[128], new byte[4];
      options := new Options(data[OPTION_OFFSET..]);
      new;
      var pos := 4;
      pos := ReadInto(data, pos, xid);
      pos := ReadInto(data, pos, secs);
      pos := ReadInto(data, pos, flags);
      pos := ReadInto(data, pos, ciaddr);
      pos := ReadInto(data, pos, yiaddr);
      pos := ReadInto(data, pos, siaddr);
      pos := ReadInto(data, pos, giaddr);
      pos := ReadInto(data, pos, chaddr);
      pos := ReadInto(data, pos, sname);
      pos := ReadInto(data, pos, file);
      pos := ReadInto(data, pos, cookie);
    }

    /** `new DhcpPacketStruct(data)` with its exceptions: nothing is built from a datagram
        shorter than OptionOffset. */
    static method Read(data: seq<byte>) returns (r: Result<DhcpPacketStruct>)
      ensures r.Err? <==> Decode(data).Err?
      ensures r.Err? ==> r.fault == Decode(data).fault
      ensures r.Ok? ==> r.value.Valid() && fresh(r.value)
      ensures r.Ok? ==> var p := r.value;
        fresh(p.secs) && fresh(p.ciaddr) && fresh(p.yiaddr) && fresh(p.siaddr) && fresh(p.sname) && fresh(p.file) && fresh(p.options)
      ensures r.Ok? ==> r.value.Value() == Decode(data).value
    {
      if |data| < 4 {
        return Err(EndOfStream);
      }
      if |data| < OPTION_OFFSET {
        return Err(ArgumentOutOfRange);
      }
      var p := new DhcpPacketStruct(data);
      return Ok(p);
    }

    /** `BinaryReader.ReadBytes(a.Length)` on a stream positioned at `pos`, into `a`. */
    static method ReadInto(data: seq<byte>, pos: nat, a: array<byte>) returns (next: nat)
      requires pos + a.Length <= |data|
      modifies a
      ensures a[..] == data[pos..pos + a.Length] && next == pos + a.Length
    {
      var i := 0;
      while i < a.Length
        invariant 0 <= i <= a.Length
        invariant a[..i] == data[pos..pos + i]
      {
        a[i] := data[pos + i];
        i := i + 1;
      }
      next := pos + a.Length;
    }

    /** `IPAddress.GetAddressBytes()`: a new array holding an address. */
    static method AddressArray(address: IPv4) returns (a: array<byte>)
      ensures fresh(a) && a[..] == address
    {
      a := new byte[4];
      var next := ReadInto(address, 0, a);
    }

    /** `ApplySettings`: rewrite the fields in place for a reply of the given type. */
    method ApplySettings(msgType: DhcpMessageType, server: DhcpServerSettings, clientIp: IPv4) returns (outcome: Outcome)
      requires Valid()
      modifies this, secs, ciaddr, yiaddr, siaddr, sname, file, options
      ensures Valid() && options == old(options)
      ensures Rewritten(Value(), outcome) == Rewrite(old(Value()), msgType, server, clientIp)
    {
      match msgType
      case Offer =>
        outcome := ApplyOffer(server, clientIp);
      case Ack =>
        outcome := ApplyAck(server, clientIp);
      case Nak =>
        outcome := ApplyNak(server);
      case _ =>
        outcome := Success;
    }

    /** The steps every reply starts with: BootReply, no hops, secs zeroed. */
    method StartReply()
      requires Valid()
      modifies this`op, this`hops, secs
      ensures Valid()
      ensures Value() == old(Value()).(op := BOOT_REPLY, hops := 0, secs := StaticExtensions.Zeros(2))
    {
      op := BOOT_REPLY;
      hops := 0;
      StaticExtensions.FillZero(secs);
    }

    /** The steps every reply ends with: sname and file zeroed, then the options rebuilt. */
    method FinishReply(msgType: DhcpMessageType, server: DhcpServerSettings) returns (outcome: Outcome)
      requires Valid()
      modifies sname, file, options
      ensures Valid()
      ensures Rewritten(Value(), outcome)
           == WithReplyOptions(old(Value()).(sname := StaticExtensions.Zeros(64), file := StaticExtensions.Zeros(128)),
                               ReplyOptions(old(Value()).options, msgType, server))
    {
      StaticExtensions.FillZero(sname);
      StaticExtensions.FillZero(file);
      outcome := options.ApplyOptionSettings(msgType, server);
    }

    /** `ciaddr.FillZero()`. */
    method ZeroClientAddress()
      requires Valid()
      modifies ciaddr
      ensures Valid() && Value() == old(Value()).(ciaddr := StaticExtensions.Zeros(4))
    {
      StaticExtensions.FillZero(ciaddr);
    }

    /** `yiaddr = clientIp.GetAddressBytes()`, or `yiaddr.FillZero()` when `clientIp` is None. */
    method SetYourAddress(clientIp: Option<IPv4>)
      requires Valid()
      modifies this`yiaddr, yiaddr
      ensures Valid()
      ensures Value() == old(Value()).(yiaddr := if clientIp.Some? then clientIp.value else StaticExtensions.Zeros(4))
    {
      if clientIp.Some? {
        yiaddr := AddressArray(clientIp.value);
      } else {
        StaticExtensions.FillZero(yiaddr);
      }
    }

    /** `siaddr = IPAddress.Any.GetAddressBytes()`, or `siaddr.FillZero()` when `any` is false. */
    method SetServerAddress(any: bool)
      requires Valid()
      modifies this`siaddr, siaddr
      ensures Valid()
      ensures Value() == old(Value()).(siaddr := if any then ANY else StaticExtensions.Zeros(4))
    {
      if any {
        siaddr := AddressArray(ANY);
      } else {
        StaticExtensions.FillZero(siaddr);
      }
    }

    /** Lines 50-66. */
    method ApplyOffer(server: DhcpServerSettings, clientIp: IPv4) returns (outcome: Outcome)
      requires Valid()
      modifies this, secs, ciaddr, yiaddr, siaddr, sname, file, options
      ensures Valid() && options == old(options)
      ensures Rewritten(Value(), outcome) == Rewrite(old(Value()), Offer, server, clientIp)
    {
      StartReply();
      ZeroClientAddress();
      SetYourAddress(Some(clientIp));
      SetServerAddress(true);
      outcome := FinishReply(Offer, server);
    }

    /** Lines 67-86. */
    method ApplyAck(server: DhcpServerSettings, clientIp: IPv4) returns (outcome: Outcome)
      requires Valid()
      modifies this, secs, ciaddr, yiaddr, siaddr, sname, file, options
      ensures Valid() && options == old(options)
      ensures Rewritten(Value(), outcome) == Rewrite(old(Value()), Ack, server, clientIp)
    {
      StartReply();
      ZeroClientAddress();
      var oldMsgType := options.GetDhcpMessageType();
      if oldMsgType.Err? {
        return Failure(oldMsgType.fault);
      }
      SetYourAddress(if oldMsgType.value == Code(Inform) then None else Some(clientIp));
      SetServerAddress(true);
      outcome := FinishReply(Ack, server);
    }

    /** Lines 87-103. */
    method ApplyNak(server: DhcpServerSettings) returns (outcome: Outcome)
      requires Valid()
      modifies this, secs, yiaddr, siaddr, sname, file, options
      ensures Valid() && options == old(options)
      ensures forall clientIp: IPv4 {:trigger Rewrite(old(Value()), Nak, server, clientIp)} ::
        Rewritten(Value(), outcome) == Rewrite(old(Value()), Nak, server, clientIp)
    {
      StartReply();
      SetYourAddress(None);
      SetServerAddress(false);
      outcome := FinishReply(Nak, server);
    }

    /** `ToArray`: append every field, then the options, to an initially empty array. */
    method ToArray() returns (mArray: seq<byte>)
      ensures mArray == Bytes(Value())
    {
      mArray := [];
      mArray := AddByteToArray(op, Some(mArray));
      mArray := AddByteToArray(htype, Some(mArray));
      mArray := AddByteToArray(hlen, Some(mArray));
      mArray := AddByteToArray(hops, Some(mArray));
      assert mArray == [op, htype, hlen, hops];
      mArray := AddToArray(xid[..], Some(mArray));
      mArray := AddToArray(secs[..], Some(mArray));
      mArray := AddToArray(flags[..], Some(mArray));
      mArray := AddToArray(ciaddr[..], Some(mArray));
      mArray := AddToArray(yiaddr[..], Some(mArray));
      mArray := AddToArray(siaddr[..], Some(mArray));
      mArray := AddToArray(giaddr[..], Some(mArray));
      mArray := AddToArray(chaddr[..], Some(mArray));
      mArray := AddToArray(sname[..], Some(mArray));
      mArray := AddToArray(file[..], Some(mArray));
      mArray := AddToArray(cookie[..], Some(mArray));
      mArray := AddToArray(options.options, Some(mArray));
    }
  }
}
