/** Options.cs: the options field of a DHCP message, a run of code/length/value elements
    ended by the End code (RFC 2132 section 2). The server looks options up by code and
    replaces the client's options with its own reply options. */
module OptionsCodec {
  import opened Base
  import opened Definition
  import opened Utils
  import opened Settings
  import StaticExtensions

  // ---------------------------------------------------------------------------------
  // Encoding: what a well-formed options field is

  /** One option: its code and its value bytes. */
  datatype OptionElement = OptionElement(code: byte, data: seq<byte>)

  /** The bytes CreateOptionElement appends for one option: the code, the length cast to
      `byte` (so it wraps for values of 256 bytes or more) and the value. */
  function Element(code: byte, data: seq<byte>): (e: seq<byte>)
    ensures |e| == |data| + 2 && e[0] == code && e[2..] == data
  {
    [code, |data| % 0x100] + data
  }

  /** The elements one after another. */
  function Encode(elements: seq<OptionElement>): seq<byte>
  {
    if elements == [] then []
    else Element(elements[0].code, elements[0].data) + Encode(elements[1..])
  }

  /** The value of the first element with the given code. */
  function Lookup(elements: seq<OptionElement>, code: byte): Option<seq<byte>>
  {
    if elements == [] then None
    else if elements[0].code == code then Some(elements[0].data)
    else Lookup(elements[1..], code)
  }

  /** Elements that GetOptionData reads back as they were written: no End code in front
      and every value short enough for its length byte. */
  predicate WellFormed(elements: seq<OptionElement>)
  {
    forall e <- elements :: e.code != END && |e.data| < 0x100
  }

  // ---------------------------------------------------------------------------------
  // Decoding: GetOptionData

  /** The scan of GetOptionData from index i: stop at End or at the end of the array,
      return the value of the first element whose code matches, and otherwise skip the
      element's length byte and value. Every byte that is not End is read as a code
      followed by a length, Pad included. Reading a missing length byte throws
      IndexOutOfRangeException and copying past the end of the array throws
      ArgumentException. */
  function FindOption(options: seq<byte>, code: byte, i: nat): (r: Result<Option<seq<byte>>>)
    ensures r.Ok? && r.value.Some? ==> |r.value.value| < 0x100
    decreases |options| - i
  {
    if i >= |options| || options[i] == END then Ok(None)
    else if i + 1 >= |options| then Err(IndexOutOfRange)
    else if options[i] == code then
      if i + 2 + options[i + 1] > |options| then Err(Argument)
      else Ok(Some(options[i + 2..i + 2 + options[i + 1]]))
    else FindOption(options, code, i + 2 + options[i + 1])
  }

  /** The message type byte of an options field: the first value byte of option 53.
      A missing option is a null array (NullReferenceException), an empty one has no
      element 0 (IndexOutOfRangeException). */
  function MessageTypeByte(options: seq<byte>): (r: Result<byte>)
    ensures r.Ok? ==> FindOption(options, DHCP_MESSAGE_TYPE, 0).Ok?
  {
    var data := FindOption(options, DHCP_MESSAGE_TYPE, 0);
    if data.Err? then Err(data.fault)
    else if data.value.None? then Err(NullReference)
    else if |data.value.value| == 0 then Err(IndexOutOfRange)
    else Ok(data.value.value[0])
  }

  /** The scan depends only on the bytes from the index on. */
  lemma {:induction false} FindOptionShift(prefix: seq<byte>, s: seq<byte>, code: byte, j: nat)
    ensures FindOption(prefix + s, code, |prefix| + j) == FindOption(s, code, j)
    decreases |s| - j
  {
    var t := prefix + s;
    if j < |s| {
      assert t[|prefix| + j] == s[j];
      if j + 1 < |s| {
        assert t[|prefix| + j + 1] == s[j + 1];
        if s[j] != END && s[j] != code {
          FindOptionShift(prefix, s, code, j + 2 + s[j + 1]);
        } else if s[j] == code && s[j] != END && j + 2 + s[j + 1] <= |s| {
          assert t[|prefix| + j + 2..|prefix| + j + 2 + s[j + 1]] == s[j + 2..j + 2 + s[j + 1]];
        }
      }
    }
  }

  /** Round trip of the encoding: GetOptionData on well-formed elements followed by End
      finds the value of the first element with the code, and null when there is none. */
  lemma {:induction false} LookupEncoded(elements: seq<OptionElement>, code: byte)
    requires WellFormed(elements)
    requires code != END
    ensures FindOption(Encode(elements) + [END], code, 0) == Ok(Lookup(elements, code))
  {
    if elements != [] {
      var e := elements[0];
      var head := Element(e.code, e.data);
      var rest := Encode(elements[1..]) + [END];
      assert Encode(elements) + [END] == head + rest;
      assert (head + rest)[0] == e.code && (head + rest)[1] == |e.data|;
      if e.code == code {
        assert (head + rest)[2..2 + |e.data|] == e.data;
      } else {
        assert WellFormed(elements[1..]) by {
          forall x <- elements[1..] ensures x.code != END && |x.data| < 0x100 {
            assert x in elements;
          }
        }
        FindOptionShift(head, rest, code, 0);
        LookupEncoded(elements[1..], code);
      }
    }
  }

  /** The first element is found by its code whatever follows it. */
  lemma FirstElementFound(e: OptionElement, tail: seq<byte>)
    requires e.code != END && |e.data| < 0x100
    ensures FindOption(Element(e.code, e.data) + tail, e.code, 0) == Ok(Some(e.data))
  {
    var s := Element(e.code, e.data) + tail;
    assert s[0] == e.code && s[1] == |e.data|;
    assert s[2..2 + |e.data|] == e.data;
  }

  /** An element with another code is skipped as a whole. */
  lemma SkipElement(e: OptionElement, tail: seq<byte>, code: byte)
    requires e.code != END && e.code != code && |e.data| < 0x100
    ensures FindOption(Element(e.code, e.data) + tail, code, 0) == FindOption(tail, code, 0)
  {
    var head := Element(e.code, e.data);
    assert (head + tail)[0] == e.code && (head + tail)[1] == |e.data|;
    FindOptionShift(head, tail, code, 0);
  }

  /** A value the scan returns is never read out of bounds: it is the value of an element
      at or after the start whose code matches and which lies wholly inside the array. */
  lemma {:induction false} FindOptionFound(options: seq<byte>, code: byte, i: nat)
    requires FindOption(options, code, i).Ok? && FindOption(options, code, i).value.Some?
    ensures exists j | i <= j && j + 1 < |options| ::
              && options[j] == code && j + 2 + options[j + 1] <= |options|
              && FindOption(options, code, i).value.value == options[j + 2..j + 2 + options[j + 1]]
    decreases |options| - i
  {
    if options[i] != code {
      FindOptionFound(options, code, i + 2 + options[i + 1]);
    }
  }

  // ---------------------------------------------------------------------------------
  // The reply options ApplyOptionSettings writes

  /** The four lease-time bytes of lines 69-73: the `uint` most significant byte first. */
  function LeaseTimeBytes(leaseTime: uint32): (b: seq<byte>)
    ensures |b| == 4 && StaticExtensions.ToLong(b) == leaseTime
  {
    StaticExtensions.ToLongOfToBytes(leaseTime);
    StaticExtensions.ToBytes(leaseTime)
  }

  /** Whether the reply carries the lease time options 51, 58 and 59: an OFFER always,
      an ACK unless it answers an INFORM. */
  predicate HasLeaseOptions(messageType: DhcpMessageType, oldMsgType: byte)
  {
    messageType == Offer || (messageType == Ack && oldMsgType != Code(Inform))
  }

  /** The value the reply gives a requested code, by the switch of lines 97-253: the
      mask for code 1 (NullReferenceException when there is none), the router, the DNS
      server and the server name for codes 3, 6 and 15 when configured, and nothing for
      any other code. */
  function RequestedValue(code: byte, server: DhcpServerSettings): (r: Result<Option<seq<byte>>>)
    ensures r.Err? <==> code == SUBNET_MASK && server.SubnetMask.None?
    ensures r.Ok? && r.value.Some? ==> code in {SUBNET_MASK, ROUTER, DOMAIN_NAME_SERVER, DOMAIN_NAME}
  {
    if code == SUBNET_MASK then
      if server.SubnetMask.None? then Err(NullReference) else Ok(Some(server.SubnetMask.value))
    else if code == ROUTER && server.RouterIp.Some? then Ok(Some(server.RouterIp.value))
    else if code == DOMAIN_NAME_SERVER && server.DomainIp.Some? then Ok(Some(server.DomainIp.value))
    else if code == DOMAIN_NAME && server.ServerName.Some? then Ok(Some(server.ServerName.value))
    else Ok(None)
  }

  /** The element (none or one) a requested code contributes. */
  function RequestedElement(code: byte, server: DhcpServerSettings): Result<seq<OptionElement>>
  {
    var t1 := RequestedValue(code, server);
    if t1.Err? then Err(t1.fault)
    else if t1.value.Some? then Ok([OptionElement(code, t1.value.value)])
    else Ok([])
  }

  /** The elements the loop over the parameter request list appends, in the order of the
      list; the first failing code ends the loop. */
  function RequestedElements(reqList: seq<byte>, server: DhcpServerSettings): Result<seq<OptionElement>>
  {
    if reqList == [] then Ok([])
    else
      var init := RequestedElements(reqList[..|reqList| - 1], server);
      var last := RequestedElement(reqList[|reqList| - 1], server);
      if init.Err? then init
      else if last.Err? then last
      else Ok(init.value + last.value)
  }

  /** The lease time elements a reply carries: all three or none. */
  function LeaseFor(messageType: DhcpMessageType, oldMsgType: byte, leaseTime: uint32): seq<OptionElement>
  {
    if HasLeaseOptions(messageType, oldMsgType) then LeaseElements(leaseTime) else []
  }

  /** The lease, renewal (T1) and rebinding (T2) times, all three set to the lease time. */
  function LeaseElements(leaseTime: uint32): seq<OptionElement>
  {
    var t := LeaseTimeBytes(leaseTime);
    [OptionElement(IP_ADDRESS_LEASE_TIME, t), OptionElement(RENEWAL_TIME_T1, t), OptionElement(REBINDING_TIME_T2, t)]
  }

  /** The reply options of ApplyOptionSettings as elements (End follows them): the
      message type, the server identifier, then for an OFFER or an ACK that does not
      answer an INFORM the three lease times, then the requested values. A NAK stops after
      the server identifier and does not read the request list. Faults in the order the
      source meets them: no readable message type in the old options, no server address,
      an unreadable or missing request list, a requested mask that is not configured. */
  function ReplyElements(options: seq<byte>, messageType: DhcpMessageType, server: DhcpServerSettings): Result<seq<OptionElement>>
  {
    var oldMsgType := MessageTypeByte(options);
    if oldMsgType.Err? then Err(oldMsgType.fault)
    else if server.ServerIp.None? then Err(NullReference)
    else
      var head := [OptionElement(DHCP_MESSAGE_TYPE, [Code(messageType)]), OptionElement(SERVER_IDENTIFIER, server.ServerIp.value)];
      var tail := ReplyTail(options, messageType, oldMsgType.value, server);
      if tail.Err? then Err(tail.fault) else Ok(head + tail.value)
  }

  /** What follows the server identifier: nothing for a NAK (the jump to the End option),
      otherwise the lease times where they apply and the requested values. */
  function ReplyTail(options: seq<byte>, messageType: DhcpMessageType, oldMsgType: byte, server: DhcpServerSettings): Result<seq<OptionElement>>
  {
    if messageType == Nak then Ok([])
    else
      var requested := RequestListElements(options, server);
      if requested.Err? then requested else Ok(LeaseFor(messageType, oldMsgType, server.LeaseTime) + requested.value)
  }

  /** The elements for the client's parameter request list (option 55); iterating over a
      missing list throws NullReferenceException. */
  function RequestListElements(options: seq<byte>, server: DhcpServerSettings): Result<seq<OptionElement>>
  {
    var reqList := FindOption(options, PARAMETER_REQUEST_LIST, 0);
    if reqList.Err? then Err(reqList.fault)
    else if reqList.value.None? then Err(NullReference)
    else RequestedElements(reqList.value.value, server)
  }

  /** The bytes `acc` followed by the encoded elements, or the fault that stopped them. */
  function Appended(acc: seq<byte>, elements: Result<seq<OptionElement>>): Result<seq<byte>>
  {
    if elements.Err? then Err(elements.fault) else Ok(acc + Encode(elements.value))
  }

  /** The options field ApplyOptionSettings leaves behind. */
  function ReplyOptions(options: seq<byte>, messageType: DhcpMessageType, server: DhcpServerSettings): Result<seq<byte>>
  {
    var elements := ReplyElements(options, messageType, server);
    if elements.Err? then Err(elements.fault) else Ok(Encode(elements.value) + [END])
  }

  // ---------------------------------------------------------------------------------
  // The Options object

  /** The `Options` class: a byte array the server reads and, when replying, replaces. */
  class Options {
    var options: seq<byte>

    constructor(data: seq<byte>)
      ensures options == data
    {
      options := data;
    }

    /** `GetOptionData`: the value of the option with the given code, null when the scan
        meets End or runs off the array first. */
    method GetOptionData(code: byte) returns (r: Result<Option<seq<byte>>>)
      ensures r == FindOption(options, code, 0)
    {
      var i := 0;
      while i < |options|
        invariant FindOption(options, code, i) == FindOption(options, code, 0)
        decreases |options| - i
      {
        if options[i] == END {
          break;
        }
        if i + 1 >= |options| {
          return Err(IndexOutOfRange);
        }
        if options[i] == code {
          var len := options[i + 1];
          if i + 2 + len > |options| {
            return Err(Argument);
          }
          return Ok(Some(options[i + 2..i + 2 + len]));
        } else {
          i := i + 1 + options[i + 1];
        }
        i := i + 1;
      }
      return Ok(None);
    }

    /** `GetDhcpMessageType`: the byte value of option 53, which the source casts to the
        message type enum. */
    method GetDhcpMessageType() returns (r: Result<byte>)
      ensures r == MessageTypeByte(options)
    {
      var data := GetOptionData(DHCP_MESSAGE_TYPE);
      if data.Err? {
        return Err(data.fault);
      }
      if data.value.None? {
        return Err(NullReference);
      }
      if |data.value.value| == 0 {
        return Err(IndexOutOfRange);
      }
      return Ok(data.value.value[0]);
    }

    /** `CreateOptionElement`: build code, length and value in a new array and append it to
        `source`, a null `source` counting as empty. */
    static method CreateOptionElement(code: byte, dataToAdd: seq<byte>, source: Option<seq<byte>>) returns (r: seq<byte>)
      ensures r == OrEmpty(source) + Element(code, dataToAdd)
    {
      var newOption := new byte[|dataToAdd| + 2];
      newOption[0] := code;
      newOption[1] := |dataToAdd| % 0x100;
      var j := 0;
      while j < |dataToAdd|
        invariant 0 <= j <= |dataToAdd|
        invariant newOption[0] == code && newOption[1] == |dataToAdd| % 0x100
        invariant newOption[2..2 + j] == dataToAdd[..j]
      {
        newOption[2 + j] := dataToAdd[j];
        j := j + 1;
      }
      assert newOption[..] == [code, |dataToAdd| % 0x100] + dataToAdd;
      r := AddToArray(newOption[..], source);
    }

    /** `ApplyOptionSettings`: replace the options with the reply options for the given
        message type. When anything on the way throws, the options are left as they were. */
    method ApplyOptionSettings(messageType: DhcpMessageType, server: DhcpServerSettings) returns (outcome: Outcome)
      modifies this
      ensures ReplyOptions(old(options), messageType, server).Ok? ==>
        outcome == Success && options == ReplyOptions(old(options), messageType, server).value
      ensures ReplyOptions(old(options), messageType, server).Err? ==>
        outcome == Failure(ReplyOptions(old(options), messageType, server).fault) && options == old(options)
    {
      ghost var elements := ReplyElements(options, messageType, server);
      var oldMsgType := GetDhcpMessageType();
      if oldMsgType.Err? {
        return Failure(oldMsgType.fault);
      }
      if server.ServerIp.None? {
        return Failure(NullReference);
      }
      var newOptions := CreateOptionElement(DHCP_MESSAGE_TYPE, [Code(messageType)], None);
      var myIp := server.ServerIp.value;
      newOptions := CreateOptionElement(SERVER_IDENTIFIER, myIp, Some(newOptions));
      ghost var head := [OptionElement(DHCP_MESSAGE_TYPE, [Code(messageType)]), OptionElement(SERVER_IDENTIFIER, myIp)];
      EncodePair(head[0], head[1]);
      assert newOptions == Encode(head);
      var tail := AppendReplyTail(messageType, oldMsgType.value, server, newOptions);
      ghost var spec := ReplyTail(options, messageType, oldMsgType.value, server);
      if tail.Err? {
        assert elements == Err(spec.fault);
        return Failure(tail.fault);
      }
      assert elements == Ok(head + spec.value);
      EncodeAppend(head, spec.value);
      assert tail.value == Encode(elements.value);
      newOptions := AddByteToArray(END, Some(tail.value));
      assert newOptions == Encode(elements.value) + [END];
      options := newOptions;
      return Success;
    }

    /** Lines 68-256 of ApplyOptionSettings: append the lease times where they apply and
        then the requested values, or nothing at all for a NAK. */
    method AppendReplyTail(messageType: DhcpMessageType, oldMsgType: byte, server: DhcpServerSettings, newOptions: seq<byte>)
      returns (r: Result<seq<byte>>)
      ensures r == Appended(newOptions, ReplyTail(options, messageType, oldMsgType, server))
    {
      ghost var spec := ReplyTail(options, messageType, oldMsgType, server);
      if messageType == Nak {
        assert spec == Ok([]);
        assert newOptions + Encode([]) == newOptions;
        return Ok(newOptions);
      }
      var acc := newOptions;
      if HasLeaseOptions(messageType, oldMsgType) {
        acc := AppendLeaseTimes(server.LeaseTime, acc);
      } else {
        assert acc == newOptions + Encode([]);
      }
      ghost var lease := LeaseFor(messageType, oldMsgType, server.LeaseTime);
      var requested := AppendRequestList(server, acc);
      ghost var req := RequestListElements(options, server);
      if requested.Err? {
        assert spec == req;
        return requested;
      }
      assert spec == Ok(lease + req.value);
      EncodeAppend(lease, req.value);
      assert requested.value == newOptions + Encode(lease + req.value);
      return requested;
    }

    /** Lines 92-256: look up the parameter request list and append its elements. */
    method AppendRequestList(server: DhcpServerSettings, acc: seq<byte>) returns (r: Result<seq<byte>>)
      ensures r == Appended(acc, RequestListElements(options, server))
    {
      var reqList := GetOptionData(PARAMETER_REQUEST_LIST);
      if reqList.Err? {
        return Err(reqList.fault);
      }
      if reqList.value.None? {
        return Err(NullReference);
      }
      r := AppendRequested(reqList.value.value, server, acc);
    }

    /** Lines 69-73 and 80-82: the lease time as four bytes, appended as options 51, 58
        and 59. */
    static method AppendLeaseTimes(leaseTime: uint32, newOptions: seq<byte>) returns (r: seq<byte>)
      ensures r == newOptions + Encode(LeaseElements(leaseTime))
    {
      var bytes := new byte[4];
      bytes[3] := leaseTime % 0x100;
      bytes[2] := (leaseTime / 0x100) % 0x100;
      bytes[1] := (leaseTime / 0x1_0000) % 0x100;
      bytes[0] := (leaseTime / 0x100_0000) % 0x100;
      assert bytes[..] == LeaseTimeBytes(leaseTime);
      r := CreateOptionElement(IP_ADDRESS_LEASE_TIME, bytes[..], Some(newOptions));
      r := CreateOptionElement(RENEWAL_TIME_T1, bytes[..], Some(r));
      r := CreateOptionElement(REBINDING_TIME_T2, bytes[..], Some(r));
      EncodeLease(leaseTime);
    }

    /** One turn of the loop over the request list: append the element for `code` when
        the switch gives it a value. */
    static method AppendRequestedValue(code: byte, server: DhcpServerSettings, acc: seq<byte>) returns (r: Result<seq<byte>>)
      ensures r == Appended(acc, RequestedElement(code, server))
    {
      var t1 := RequestedValue(code, server);
      if t1.Err? {
        return Err(t1.fault);
      }
      if t1.value.Some? {
        var appended := CreateOptionElement(code, t1.value.value, Some(acc));
        EncodeSingle(OptionElement(code, t1.value.value));
        return Ok(appended);
      }
      assert acc + Encode([]) == acc;
      return Ok(acc);
    }

    /** The loop over the parameter request list (lines 94-256): append the element of
        every requested code that has a value, in the order of the list. */
    static method AppendRequested(reqList: seq<byte>, server: DhcpServerSettings, newOptions: seq<byte>) returns (r: Result<seq<byte>>)
      ensures r == Appended(newOptions, RequestedElements(reqList, server))
    {
      var acc := newOptions;
      var k := 0;
      ghost var elems: seq<OptionElement> := [];
      while k < |reqList|
        invariant 0 <= k <= |reqList|
        invariant RequestedElements(reqList[..k], server) == Ok(elems)
        invariant acc == newOptions + Encode(elems)
      {
        var next := AppendRequestedValue(reqList[k], server, acc);
        ghost var last := RequestedElement(reqList[k], server);
        RequestedNext(reqList, k, server, elems);
        if next.Err? {
          return next;
        }
        EncodeAppend(elems, last.value);
        elems := elems + last.value;
        acc := next.value;
        k := k + 1;
      }
      assert reqList[..k] == reqList;
      return Ok(acc);
    }
  }

  lemma EncodeSingle(e: OptionElement)
    ensures Encode([e]) == Element(e.code, e.data)
  {
    assert [e][1..] == [];
  }

  lemma EncodePair(e: OptionElement, f: OptionElement)
    ensures Encode([e, f]) == Element(e.code, e.data) + Element(f.code, f.data)
  {
    assert [e, f][1..] == [f];
    EncodeSingle(f);
  }

  lemma EncodeLease(leaseTime: uint32)
    ensures Encode(LeaseElements(leaseTime))
         == Element(IP_ADDRESS_LEASE_TIME, LeaseTimeBytes(leaseTime))
          + Element(RENEWAL_TIME_T1, LeaseTimeBytes(leaseTime))
          + Element(REBINDING_TIME_T2, LeaseTimeBytes(leaseTime))
  {
    var l := LeaseElements(leaseTime);
    assert l[1..] == [l[1], l[2]];
    EncodePair(l[1], l[2]);
  }

  /** Encoding distributes over concatenation. */
  lemma {:induction false} EncodeAppend(a: seq<OptionElement>, b: seq<OptionElement>)
    ensures Encode(a + b) == Encode(a) + Encode(b)
  {
    if a == [] {
      assert a + b == b;
    } else {
      assert (a + b)[0] == a[0];
      assert (a + b)[1..] == a[1..] + b;
      EncodeAppend(a[1..], b);
    }
  }

  /** One more turn of the loop over the request list. */
  lemma RequestedStep(reqList: seq<byte>, k: nat, server: DhcpServerSettings)
    requires k < |reqList|
    ensures var init := RequestedElements(reqList[..k], server);
            var last := RequestedElement(reqList[k], server);
            RequestedElements(reqList[..k + 1], server)
            == if init.Err? then init else if last.Err? then last else Ok(init.value + last.value)
  {
    assert reqList[..k + 1][..k] == reqList[..k];
  }

  /** One turn of the loop over the request list from a prefix that has not failed: a
      fault is the fault of the whole list, otherwise the prefix grows by the new
      element. */
  lemma RequestedNext(reqList: seq<byte>, k: nat, server: DhcpServerSettings, elems: seq<OptionElement>)
    requires k < |reqList| && RequestedElements(reqList[..k], server) == Ok(elems)
    ensures var last := RequestedElement(reqList[k], server);
            && (last.Err? ==> RequestedElements(reqList, server) == Err(last.fault))
            && (last.Ok? ==> RequestedElements(reqList[..k + 1], server) == Ok(elems + last.value))
  {
    RequestedStep(reqList, k, server);
    if RequestedElement(reqList[k], server).Err? {
      RequestedPrefixFault(reqList, k + 1, server);
    }
  }

  /** A fault for a prefix of the request list is the fault for the whole list. */
  lemma {:induction false} RequestedPrefixFault(reqList: seq<byte>, k: nat, server: DhcpServerSettings)
    requires k <= |reqList|
    requires RequestedElements(reqList[..k], server).Err?
    ensures RequestedElements(reqList, server) == RequestedElements(reqList[..k], server)
    decreases |reqList|
  {
    if k < |reqList| {
      var init := reqList[..|reqList| - 1];
      assert init[..k] == reqList[..k];
      RequestedPrefixFault(init, k, server);
    } else {
      assert reqList[..k] == reqList;
    }
  }

  // ---------------------------------------------------------------------------------
  // What a reply's options field says

  /** A server name short enough for its one-byte length field. A longer name is still
      appended, but with its length cut to a byte, so the options after it are misread. */
  predicate NameFits(server: DhcpServerSettings)
  {
    server.ServerName.Some? ==> |server.ServerName.value| < 0x100
  }

  /** The first match in a concatenation is the first match in the front part, if any. */
  lemma {:induction false} LookupAppend(a: seq<OptionElement>, b: seq<OptionElement>, code: byte)
    ensures Lookup(a + b, code) == if Lookup(a, code).Some? then Lookup(a, code) else Lookup(b, code)
  {
    if a == [] {
      assert a + b == b;
    } else {
      assert (a + b)[0] == a[0];
      assert (a + b)[1..] == a[1..] + b;
      LookupAppend(a[1..], b, code);
    }
  }

  /** The requested elements are well formed when the name fits, carry only codes 1, 3,
      6 and 15, and only codes the client asked for. */
  lemma {:induction false} RequestedCodes(reqList: seq<byte>, server: DhcpServerSettings)
    requires RequestedElements(reqList, server).Ok?
    ensures NameFits(server) ==> WellFormed(RequestedElements(reqList, server).value)
    ensures forall e <- RequestedElements(reqList, server).value ::
      e.code in reqList && e.code in {SUBNET_MASK, ROUTER, DOMAIN_NAME_SERVER, DOMAIN_NAME}
  {
    if reqList != [] {
      var init := reqList[..|reqList| - 1];
      RequestedCodes(init, server);
      assert forall c <- init :: c in reqList;
    }
  }

  /** The value a requested code gets in the reply: the configured value when the client
      asked for the code, nothing otherwise. Codes the switch does not know get nothing. */
  lemma {:induction false} RequestedLookup(reqList: seq<byte>, server: DhcpServerSettings, code: byte)
    requires RequestedElements(reqList, server).Ok?
    ensures RequestedValue(code, server).Ok? || code !in reqList
    ensures Lookup(RequestedElements(reqList, server).value, code)
         == if code in reqList then RequestedValue(code, server).value else None
  {
    if reqList != [] {
      var init, last := reqList[..|reqList| - 1], reqList[|reqList| - 1];
      assert reqList == init + [last];
      RequestedLookup(init, server, code);
      var more := RequestedElement(last, server).value;
      assert Lookup(more, code) == if code == last then RequestedValue(code, server).value else None by {
        if more != [] {
          assert more[1..] == [];
        }
      }
      LookupAppend(RequestedElements(init, server).value, more, code);
    }
  }

  /** The reply's elements are well formed whenever the server name fits. */
  lemma ReplyWellFormed(options: seq<byte>, messageType: DhcpMessageType, server: DhcpServerSettings)
    requires ReplyElements(options, messageType, server).Ok? && NameFits(server)
    ensures WellFormed(ReplyElements(options, messageType, server).value)
  {
    if messageType != Nak {
      var reqList := FindOption(options, PARAMETER_REQUEST_LIST, 0).value.value;
      RequestedCodes(reqList, server);
    }
  }

  /** Looking a code up in the reply options finds the value of its first element. */
  lemma ReplyLookup(options: seq<byte>, messageType: DhcpMessageType, server: DhcpServerSettings, code: byte)
    requires ReplyOptions(options, messageType, server).Ok? && NameFits(server) && code != END
    ensures FindOption(ReplyOptions(options, messageType, server).value, code, 0)
         == Ok(Lookup(ReplyElements(options, messageType, server).value, code))
  {
    ReplyWellFormed(options, messageType, server);
    LookupEncoded(ReplyElements(options, messageType, server).value, code);
  }

  /** Every reply starts with the new message type (option 53) and the server identifier
      (option 54), so reading the reply's message type gives the new type. */
  lemma ReplyHead(options: seq<byte>, messageType: DhcpMessageType, server: DhcpServerSettings)
    requires ReplyOptions(options, messageType, server).Ok?
    ensures var reply := ReplyOptions(options, messageType, server).value;
            && MessageTypeByte(reply) == Ok(Code(messageType))
            && FindOption(reply, SERVER_IDENTIFIER, 0) == Ok(Some(server.ServerIp.value))
  {
    var elements := ReplyElements(options, messageType, server).value;
    var e53 := OptionElement(DHCP_MESSAGE_TYPE, [Code(messageType)]);
    var e54 := OptionElement(SERVER_IDENTIFIER, server.ServerIp.value);
    assert elements[..2] == [e53, e54];
    assert elements == [e53, e54] + elements[2..];
    EncodeAppend([e53, e54], elements[2..]);
    EncodePair(e53, e54);
    var rest := Encode(elements[2..]) + [END];
    var reply := ReplyOptions(options, messageType, server).value;
    assert reply == Element(e53.code, e53.data) + (Element(e54.code, e54.data) + rest);
    FirstElementFound(e53, Element(e54.code, e54.data) + rest);
    SkipElement(e53, Element(e54.code, e54.data) + rest, SERVER_IDENTIFIER);
    FirstElementFound(e54, rest);
  }

  /** A NAK's options are exactly the message type and the server identifier followed
      by End; they fail only when the old options have no readable type or no server
      address is configured. */
  lemma NakReply(options: seq<byte>, server: DhcpServerSettings)
    ensures ReplyOptions(options, Nak, server)
         == if MessageTypeByte(options).Err? then Err(MessageTypeByte(options).fault)
            else if server.ServerIp.None? then Err(NullReference)
            else Ok([DHCP_MESSAGE_TYPE, 1, Code(Nak), SERVER_IDENTIFIER, 4] + server.ServerIp.value + [END])
  {
    if MessageTypeByte(options).Ok? && server.ServerIp.Some? {
      var e53 := OptionElement(DHCP_MESSAGE_TYPE, [Code(Nak)]);
      var e54 := OptionElement(SERVER_IDENTIFIER, server.ServerIp.value);
      assert ReplyElements(options, Nak, server) == Ok([e53, e54] + []);
      assert [e53, e54] + [] == [e53, e54];
      EncodePair(e53, e54);
      assert Element(e53.code, e53.data) == [DHCP_MESSAGE_TYPE, 1, Code(Nak)];
      assert Element(e54.code, e54.data) == [SERVER_IDENTIFIER, 4] + server.ServerIp.value;
      assert Encode([e53, e54]) == [DHCP_MESSAGE_TYPE, 1, Code(Nak), SERVER_IDENTIFIER, 4] + server.ServerIp.value;
    }
  }

  /** The lease, renewal and rebinding times (options 51, 58, 59) are in a reply exactly
      when HasLeaseOptions holds, each with the lease time's four bytes. */
  lemma ReplyLeaseTimes(options: seq<byte>, messageType: DhcpMessageType, server: DhcpServerSettings, code: byte)
    requires ReplyOptions(options, messageType, server).Ok? && NameFits(server)
    requires code in {IP_ADDRESS_LEASE_TIME, RENEWAL_TIME_T1, REBINDING_TIME_T2}
    ensures FindOption(ReplyOptions(options, messageType, server).value, code, 0)
         == if HasLeaseOptions(messageType, MessageTypeByte(options).value)
            then Ok(Some(LeaseTimeBytes(server.LeaseTime))) else Ok(None)
  {
    ReplyLookup(options, messageType, server, code);
    var oldMsgType := MessageTypeByte(options).value;
    var head := [OptionElement(DHCP_MESSAGE_TYPE, [Code(messageType)]), OptionElement(SERVER_IDENTIFIER, server.ServerIp.value)];
    var elements := ReplyElements(options, messageType, server).value;
    LookupNone(head, code);
    if messageType == Nak {
      assert elements == head + [];
      LookupAppend(head, [], code);
    } else {
      var lease := LeaseFor(messageType, oldMsgType, server.LeaseTime);
      var req := RequestListElements(options, server).value;
      RequestedCodes(FindOption(options, PARAMETER_REQUEST_LIST, 0).value.value, server);
      assert Lookup(req, code) == None by {
        LookupNone(req, code);
      }
      assert elements == head + (lease + req);
      LookupAppend(head, lease + req, code);
      LookupAppend(lease, req, code);
      if lease != [] {
        LeaseLookup(server.LeaseTime, code);
      }
    }
  }

  /** Each of the three lease time codes finds the lease time bytes. */
  lemma LeaseLookup(leaseTime: uint32, code: byte)
    requires code in {IP_ADDRESS_LEASE_TIME, RENEWAL_TIME_T1, REBINDING_TIME_T2}
    ensures Lookup(LeaseElements(leaseTime), code) == Some(LeaseTimeBytes(leaseTime))
  {
    var l := LeaseElements(leaseTime);
    var t := LeaseTimeBytes(leaseTime);
    assert l[1..] == [l[1], l[2]];
    assert l[1..][1..] == [l[2]];
    assert Lookup([l[2]], code) == if code == REBINDING_TIME_T2 then Some(t) else None;
    assert Lookup(l[1..], code) == if code == RENEWAL_TIME_T1 then Some(t) else Lookup([l[2]], code);
  }

  /** A code no element carries is not found. */
  lemma {:induction false} LookupNone(elements: seq<OptionElement>, code: byte)
    requires forall e <- elements :: e.code != code
    ensures Lookup(elements, code) == None
  {
    if elements != [] {
      assert elements[0] in elements;
      assert forall e <- elements[1..] :: e in elements;
      LookupNone(elements[1..], code);
    }
  }

  /** A requested code other than the head and lease codes gets, in a reply other than a
      NAK, the configured value when the client asked for it and nothing otherwise. */
  lemma ReplyRequested(options: seq<byte>, messageType: DhcpMessageType, server: DhcpServerSettings, code: byte)
    requires ReplyOptions(options, messageType, server).Ok? && NameFits(server) && messageType != Nak
    requires code !in {END, DHCP_MESSAGE_TYPE, SERVER_IDENTIFIER, IP_ADDRESS_LEASE_TIME, RENEWAL_TIME_T1, REBINDING_TIME_T2}
    ensures var reqList := FindOption(options, PARAMETER_REQUEST_LIST, 0).value.value;
              FindOption(ReplyOptions(options, messageType, server).value, code, 0)
              == if code in reqList then RequestedValue(code, server) else Ok(None)
  {
    ReplyLookup(options, messageType, server, code);
    var oldMsgType := MessageTypeByte(options).value;
    var head := [OptionElement(DHCP_MESSAGE_TYPE, [Code(messageType)]), OptionElement(SERVER_IDENTIFIER, server.ServerIp.value)];
    var lease := LeaseFor(messageType, oldMsgType, server.LeaseTime);
    var reqList := FindOption(options, PARAMETER_REQUEST_LIST, 0).value.value;
    var req := RequestedElements(reqList, server).value;
    assert ReplyElements(options, messageType, server).value == head + (lease + req);
    LookupNone(head, code);
    LookupNone(lease, code);
    LookupAppend(head, lease + req, code);
    LookupAppend(lease, req, code);
    RequestedLookup(reqList, server, code);
  }

  /** A reply other than a NAK needs the parameter request list: without option 55 the
      reply fails with NullReferenceException and the options stay as they were. */
  lemma MissingRequestList(options: seq<byte>, messageType: DhcpMessageType, server: DhcpServerSettings)
    requires messageType != Nak && MessageTypeByte(options).Ok? && server.ServerIp.Some?
    requires FindOption(options, PARAMETER_REQUEST_LIST, 0) == Ok(None)
    ensures ReplyOptions(options, messageType, server) == Err(NullReference)
  {
  }
}
