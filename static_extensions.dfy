/** StaticExtensions.cs: the address arithmetic behind the pool (an IPv4 address as a
    32-bit unsigned integer and back, network and broadcast addresses, the hosts of a
    subnet, the successor of an address) and two byte-array helpers (zero filling and
    the hexadecimal rendering that gives a client its MAC address string). */
module StaticExtensions {
  import opened Base
  import opened Bits

  // ---------------------------------------------------------------------------------
  // Addresses as integers

  /** `ToLong`: the sum of `data[i] << 8*(Length - i - 1)`, the first octet most
      significant. For four octets the sum always fits the `uint`, so nothing wraps. */
  function ToLong(address: IPv4): uint32
  {
    address[0] as int * 0x100_0000 + address[1] as int * 0x1_0000 + address[2] as int * 0x100 + address[3] as int
  }

  /** `ToBytes`: `(byte)(data >> 8*(3 - i))` for i = 0..3. An arithmetic right shift is
      floor division and the `byte` cast keeps the low eight bits, so this is also the
      source's result for negative and for wider values. */
  function ToBytes(data: int): IPv4
  {
    [(data / 0x100_0000) % 0x100, (data / 0x1_0000) % 0x100, (data / 0x100) % 0x100, data % 0x100]
  }

  lemma Div256(q: int, r: int)
    requires 0 <= r < 0x100
    ensures (q * 0x100 + r) / 0x100 == q && (q * 0x100 + r) % 0x100 == r
  {
  }

  lemma Div65536(q: int, r: int)
    requires 0 <= r < 0x1_0000
    ensures (q * 0x1_0000 + r) / 0x1_0000 == q
  {
  }

  lemma Div2p24(q: int, r: int)
    requires 0 <= r < 0x100_0000
    ensures (q * 0x100_0000 + r) / 0x100_0000 == q
  {
  }

  /** Every address survives the trip through its integer value. */
  lemma ToBytesOfToLong(a: IPv4)
    ensures ToBytes(ToLong(a)) == a
  {
    Div256(a[0] as int * 0x1_0000 + a[1] as int * 0x100 + a[2] as int, a[3]);
    Div65536(a[0] as int * 0x100 + a[1] as int, a[2] as int * 0x100 + a[3] as int);
    Div256(a[0] as int * 0x100 + a[1] as int, a[2]);
    Div2p24(a[0] as int, a[1] as int * 0x1_0000 + a[2] as int * 0x100 + a[3] as int);
    Div256(a[0] as int, a[1]);
    Div256(0, a[0]);
  }

  /** Every 32-bit value survives the trip through its octets. */
  lemma ToLongOfToBytes(x: uint32)
    ensures ToLong(ToBytes(x)) == x
  {
    var q1, d3 := x / 0x100, x % 0x100;
    var q2, d2 := q1 / 0x100, q1 % 0x100;
    var d0, d1 := q2 / 0x100, q2 % 0x100;
    assert d0 < 0x100;
    var digits: IPv4 := [d0, d1, d2, d3];
    assert ToLong(digits) == x;
    ToBytesOfToLong(digits);
  }

  /** Distinct addresses have distinct integer values. */
  lemma ToLongInjective(a: IPv4, b: IPv4)
    ensures ToLong(a) == ToLong(b) <==> a == b
  {
    if ToLong(a) == ToLong(b) {
      ToBytesOfToLong(a);
      ToBytesOfToLong(b);
    }
  }

  // ---------------------------------------------------------------------------------
  // Network and broadcast addresses

  /** `a & m` of two octets. */
  function AndOctet(a: byte, m: byte): byte
  {
    BitAnd(a, m)
  }

  /** `a | (m ^ 255)` of two octets; `m ^ 255` is `255 - m`. */
  function OrComplementOctet(a: byte, m: byte): byte
  {
    Pow2Eight();
    BitOrBound(a, 255 - m, 8);
    BitOr(a, 255 - m)
  }

  /** `GetNetworkAddress`: the octet-wise AND of address and mask; ArgumentException
      when the two have different lengths. */
  function GetNetworkAddress(address: AddressBytes, subnetMask: AddressBytes): (r: Result<AddressBytes>)
    ensures r.Ok? <==> |address| == |subnetMask|
    ensures r.Err? ==> r.fault == Argument
    ensures r.Ok? ==> |r.value| == |address|
  {
    if |address| != |subnetMask| then Err(Argument)
    else Ok(seq(|address|, i requires 0 <= i < |address| => AndOctet(address[i], subnetMask[i])))
  }

  /** `GetBroadcastAddress`: the octet-wise `a | ~m`; ArgumentException when the two
      have different lengths. */
  function GetBroadcastAddress(address: AddressBytes, subnetMask: AddressBytes): (r: Result<AddressBytes>)
    ensures r.Ok? <==> |address| == |subnetMask|
    ensures r.Err? ==> r.fault == Argument
    ensures r.Ok? ==> |r.value| == |address|
  {
    if |address| != |subnetMask| then Err(Argument)
    else Ok(seq(|address|, i requires 0 <= i < |address| => OrComplementOctet(address[i], subnetMask[i])))
  }

  /** The network address of an IPv4 host. */
  function Network(host: IPv4, mask: IPv4): IPv4
  {
    GetNetworkAddress(host, mask).value
  }

  /** The broadcast address of an IPv4 host. */
  function Broadcast(host: IPv4, mask: IPv4): IPv4
  {
    GetBroadcastAddress(host, mask).value
  }

  /** `~(uint)netmask.ToLong()`: the number of host bits' worth of addresses, minus one. */
  function Wildcard(mask: IPv4): uint32
  {
    0xFFFF_FFFF - ToLong(mask)
  }

  /** `x & y` on two 32-bit values. A bitwise AND acts on every octet separately, so it
      is the octet-wise AND of the four octets of each value, put back together. */
  function AndWord(x: uint32, y: uint32): uint32
  {
    var a, b := ToBytes(x), ToBytes(y);
    ToLong([AndOctet(a[0], b[0]), AndOctet(a[1], b[1]), AndOctet(a[2], b[2]), AndOctet(a[3], b[3])])
  }

  /** `hostIP.ToLong() & netmask.ToLong()`, as GetAllSubnet and Increment compute it. */
  function NetworkInt(host: IPv4, mask: IPv4): uint32
  {
    AndWord(ToLong(host), ToLong(mask))
  }

  /** Applying the mask a second time changes nothing. */
  lemma NetworkIdempotent(address: AddressBytes, subnetMask: AddressBytes)
    requires |address| == |subnetMask|
    ensures GetNetworkAddress(GetNetworkAddress(address, subnetMask).value, subnetMask)
         == GetNetworkAddress(address, subnetMask)
  {
    var n := GetNetworkAddress(address, subnetMask).value;
    var nn := GetNetworkAddress(n, subnetMask).value;
    forall i | 0 <= i < |address|
      ensures nn[i] == n[i]
    {
      BitAndIdempotent(address[i], subnetMask[i]);
    }
    assert nn == n;
  }

  /** The byte loop of GetNetworkAddress and the `hostInt & netmaskInt` of GetAllSubnet
      and Increment agree. */
  lemma NetworkIntIsNetwork(host: IPv4, mask: IPv4)
    ensures ToLong(Network(host, mask)) == NetworkInt(host, mask)
  {
    ToBytesOfToLong(host);
    ToBytesOfToLong(mask);
    var n := Network(host, mask);
    assert n == [AndOctet(host[0], mask[0]), AndOctet(host[1], mask[1]), AndOctet(host[2], mask[2]), AndOctet(host[3], mask[3])];
  }

  /** The broadcast address is the network address plus the wildcard. */
  lemma BroadcastIsNetworkPlusWildcard(host: IPv4, mask: IPv4)
    ensures ToLong(Broadcast(host, mask)) == ToLong(Network(host, mask)) + Wildcard(mask)
  {
    Pow2Eight();
    var n, b := Network(host, mask), Broadcast(host, mask);
    forall i | 0 <= i < 4
      ensures b[i] == n[i] + (255 - mask[i])
    {
      AndPlusComplement(host[i], mask[i], 255 - mask[i], 8);
    }
  }

  /** Every host lies between its network and broadcast addresses. */
  lemma HostWithinSubnet(host: IPv4, mask: IPv4)
    ensures ToLong(Network(host, mask)) <= ToLong(host) <= ToLong(Broadcast(host, mask))
  {
    var n, b := Network(host, mask), Broadcast(host, mask);
    assert forall i | 0 <= i < 4 :: n[i] <= host[i] <= b[i];
  }

  // ---------------------------------------------------------------------------------
  // Subnet membership

  /** `address2.IsInSameSubnet(address, subnetMask)`: the network address of `address`
      (computed first) equals that of `address2`. Either computation throws on a length
      mismatch with the mask. */
  function IsInSameSubnet(address2: AddressBytes, address: AddressBytes, subnetMask: AddressBytes): (r: Result<bool>)
    ensures r.Ok? <==> |address| == |subnetMask| == |address2|
  {
    var network1 := GetNetworkAddress(address, subnetMask);
    if network1.Err? then Err(network1.fault)
    else
      var network2 := GetNetworkAddress(address2, subnetMask);
      if network2.Err? then Err(network2.fault)
      else Ok(network1.value == network2.value)
  }

  /** Membership holds exactly when both addresses have the same network address. */
  lemma SameSubnetIffSameNetwork(address2: AddressBytes, address: AddressBytes, subnetMask: AddressBytes)
    ensures IsInSameSubnet(address2, address, subnetMask) == Ok(true)
        <==> (GetNetworkAddress(address, subnetMask).Ok?
              && GetNetworkAddress(address, subnetMask) == GetNetworkAddress(address2, subnetMask))
  {
  }

  /** Every address is in its own subnet. */
  lemma SameSubnetReflexive(address: AddressBytes, subnetMask: AddressBytes)
    requires |address| == |subnetMask|
    ensures IsInSameSubnet(address, address, subnetMask) == Ok(true)
  {
  }

  /** The two addresses play symmetric parts, error cases included. */
  lemma SameSubnetSymmetric(address2: AddressBytes, address: AddressBytes, subnetMask: AddressBytes)
    ensures IsInSameSubnet(address2, address, subnetMask) == IsInSameSubnet(address, address2, subnetMask)
  {
  }

  /** Membership is transitive. */
  lemma SameSubnetTransitive(a: AddressBytes, b: AddressBytes, c: AddressBytes, subnetMask: AddressBytes)
    requires IsInSameSubnet(a, b, subnetMask) == Ok(true) && IsInSameSubnet(b, c, subnetMask) == Ok(true)
    ensures IsInSameSubnet(a, c, subnetMask) == Ok(true)
  {
  }

  // ---------------------------------------------------------------------------------
  // Successor of an address

  /** `Increment`: null when the host is `net + wildcard - 1`, the last address before
      broadcast; otherwise the address `host + 1` built with `IPAddress(Int64)`, which
      throws ArgumentOutOfRangeException above 0xFFFFFFFF. The octets of that address are
      taken to be the ones ToBytes gives, most significant first (the same order as
      ToLong), so the successor's integer value is `host + 1`. */
  function Increment(hostIP: IPv4, netmask: IPv4): (r: Result<Option<IPv4>>)
    ensures r == Ok(None) <==> ToLong(hostIP) == NetworkInt(hostIP, netmask) + Wildcard(netmask) - 1
    ensures r.Err? <==> r != Ok(None) && ToLong(hostIP) == 0xFFFF_FFFF
    ensures r.Err? ==> r.fault == ArgumentOutOfRange
    ensures r.Ok? && r.value.Some? ==> ToLong(r.value.value) == ToLong(hostIP) + 1
  {
    var hostInt := ToLong(hostIP);
    var netmaskInt := ToLong(netmask);
    var wildCard := 0xFFFF_FFFF - netmaskInt;
    var netBytesInt := AndWord(hostInt, netmaskInt);
    if hostInt == netBytesInt + wildCard - 1 then Ok(None)
    else if hostInt + 1 > 0xFFFF_FFFF then Err(ArgumentOutOfRange)
    else
      ToLongOfToBytes(hostInt + 1);
      Ok(Some(ToBytes(hostInt + 1)))
  }

  /** Increment stops exactly at the address just below the broadcast address. */
  lemma IncrementStopsBelowBroadcast(hostIP: IPv4, netmask: IPv4)
    ensures Increment(hostIP, netmask) == Ok(None)
        <==> ToLong(hostIP) + 1 == ToLong(Broadcast(hostIP, netmask))
  {
    NetworkIntIsNetwork(hostIP, netmask);
    BroadcastIsNetworkPlusWildcard(hostIP, netmask);
  }

  /** Below the last host of its subnet, Increment always yields an address. */
  lemma IncrementBelowLastHost(hostIP: IPv4, netmask: IPv4)
    requires ToLong(hostIP) + 1 < ToLong(Broadcast(hostIP, netmask))
    ensures Increment(hostIP, netmask).Ok? && Increment(hostIP, netmask).value.Some?
  {
    NetworkIntIsNetwork(hostIP, netmask);
    BroadcastIsNetworkPlusWildcard(hostIP, netmask);
  }

  // ---------------------------------------------------------------------------------
  // All hosts of a subnet

  /** The address GetAllSubnet tries in turn `start`: `(netBytesInt + start).ToBytes()`. */
  function Candidate(net: int, start: int): IPv4
  {
    ToBytes(net + start)
  }

  /** The list GetAllSubnet has built after `count` turns of its loop: the addresses
      `net + 1 .. net + count` in that order, the host itself skipped. */
  function SubnetHosts(net: int, hostIP: IPv4, count: nat): seq<IPv4>
  {
    if count == 0 then []
    else
      var ip := Candidate(net, count);
      SubnetHosts(net, hostIP, count - 1) + (if ip != hostIP then [ip] else [])
  }

  /** `GetAllSubnet`: every address strictly between the network and the broadcast
      address except the host. The loop counter is an `int` compared with the `uint`
      `wildCard - 1`: with a wildcard of 0 the bound wraps to 0xFFFFFFFF, and with a
      wildcard of 2^31 or more the counter overflows before passing it, so the loop
      ends only for wildcards in 1 .. 2^31 - 1 (masks from 128.0.0.0 to
      255.255.255.254). */
  method GetAllSubnet(hostIP: IPv4, netmask: IPv4) returns (IPs: seq<IPv4>)
    requires 1 <= Wildcard(netmask) < 0x8000_0000
    ensures IPs == SubnetHosts(NetworkInt(hostIP, netmask), hostIP, Wildcard(netmask) - 1)
  {
    var hostInt := ToLong(hostIP);
    var netmaskInt := ToLong(netmask);
    var wildCard := 0xFFFF_FFFF - netmaskInt;
    var netBytesInt := AndWord(hostInt, netmaskInt);
    IPs := [];
    var start := 1;
    while start <= wildCard - 1
      invariant 1 <= start <= wildCard
      invariant IPs == SubnetHosts(netBytesInt, hostIP, start - 1)
    {
      var ip := Candidate(netBytesInt, start);
      if ip != hostIP {
        IPs := IPs + [ip];
      }
      start := start + 1;
    }
  }

  /** The elements are exactly the addresses `net + 1 .. net + count` other than the
      host. */
  lemma {:induction false} SubnetHostsMembers(net: nat, hostIP: IPv4, count: nat)
    requires net + count <= 0xFFFF_FFFF
    ensures forall ip <- SubnetHosts(net, hostIP, count) :: net < ToLong(ip) <= net + count && ip != hostIP
    ensures forall k | 1 <= k <= count :: Candidate(net, k) != hostIP ==> Candidate(net, k) in SubnetHosts(net, hostIP, count)
  {
    if count > 0 {
      SubnetHostsMembers(net, hostIP, count - 1);
      ToLongOfToBytes(net + count);
    }
  }

  /** The elements come in strictly ascending order. */
  lemma {:induction false} SubnetHostsAscending(net: nat, hostIP: IPv4, count: nat)
    requires net + count <= 0xFFFF_FFFF
    ensures forall i, j | 0 <= i < j < |SubnetHosts(net, hostIP, count)| ::
      ToLong(SubnetHosts(net, hostIP, count)[i]) < ToLong(SubnetHosts(net, hostIP, count)[j])
  {
    if count > 0 {
      SubnetHostsAscending(net, hostIP, count - 1);
      SubnetHostsMembers(net, hostIP, count - 1);
      ToLongOfToBytes(net + count);
      var prev := SubnetHosts(net, hostIP, count - 1);
      assert forall i | 0 <= i < |prev| :: ToLong(prev[i]) < net + count by {
        forall i | 0 <= i < |prev| ensures ToLong(prev[i]) < net + count {
          assert prev[i] in prev;
        }
      }
    }
  }

  /** One element per address, one fewer when the host is among them. */
  lemma {:induction false} SubnetHostsLength(net: nat, hostIP: IPv4, count: nat)
    requires net + count <= 0xFFFF_FFFF
    ensures |SubnetHosts(net, hostIP, count)| == if net < ToLong(hostIP) <= net + count then count - 1 else count
  {
    if count > 0 {
      SubnetHostsLength(net, hostIP, count - 1);
      ToLongOfToBytes(net + count);
      ToBytesOfToLong(hostIP);
    }
  }

  /** Every address GetAllSubnet returns lies strictly between the network and the
      broadcast address of the host, and the host itself is not among them. */
  lemma AllSubnetStrictlyInside(hostIP: IPv4, netmask: IPv4)
    requires 1 <= Wildcard(netmask)
    ensures forall ip <- SubnetHosts(NetworkInt(hostIP, netmask), hostIP, Wildcard(netmask) - 1) ::
      ToLong(Network(hostIP, netmask)) < ToLong(ip) < ToLong(Broadcast(hostIP, netmask)) && ip != hostIP
  {
    NetworkIntIsNetwork(hostIP, netmask);
    BroadcastIsNetworkPlusWildcard(hostIP, netmask);
    SubnetHostsMembers(NetworkInt(hostIP, netmask), hostIP, Wildcard(netmask) - 1);
  }

  // ---------------------------------------------------------------------------------
  // Byte-array helpers

  function Zeros(n: nat): (z: seq<byte>)
    ensures |z| == n && forall i | 0 <= i < n :: z[i] == 0
  {
    seq(n, _ => 0)
  }

  /** `FillZero`: overwrite every element with 0, in place. */
  method FillZero(data: array<byte>)
    modifies data
    ensures data[..] == Zeros(data.Length)
  {
    var i := 0;
    while i < data.Length
      invariant 0 <= i <= data.Length
      invariant data[..i] == Zeros(i)
    {
      data[i] := 0;
      i := i + 1;
    }
  }

  /** The character a value 0..15 is written as, upper case (`"X2"` format). */
  function HexDigit(d: nat): (c: char)
    requires d < 16
    ensures '0' <= c <= '9' || 'A' <= c <= 'F'
  {
    if d < 10 then ('0' as int + d) as char else ('A' as int + d - 10) as char
  }

  /** `b.ToString("X2")`: two upper-case hexadecimal digits. */
  function Hex2(b: byte): string
  {
    [HexDigit(b / 16), HexDigit(b % 16)]
  }

  /** The string the loop of ToString has built after the bytes `data`. */
  function HexString(data: seq<byte>): (s: string)
    ensures |s| == 2 * |data|
  {
    if data == [] then "" else HexString(data[..|data| - 1]) + Hex2(data[|data| - 1])
  }

  /** `ToString(data, len)`: the empty string for a null array or a non-positive length,
      otherwise the hexadecimal digits of the first `len` bytes; indexing past the end
      throws IndexOutOfRangeException. */
  function ToString(data: Option<seq<byte>>, len: int): (r: Result<string>)
    ensures data.None? ==> r == Ok("")
    ensures r.Err? <==> data.Some? && len > |data.value|
    ensures r.Err? ==> r.fault == IndexOutOfRange
    ensures r.Ok? ==> |r.value| == if data.Some? && len > 0 then 2 * len else 0
  {
    if data.None? || len <= 0 then Ok("")
    else if len > |data.value| then Err(IndexOutOfRange)
    else Ok(HexString(data.value[..len]))
  }

  /** The value a hexadecimal digit stands for (0 for any other character). */
  function DigitValue(c: char): (d: nat)
    ensures d < 16
  {
    if '0' <= c <= '9' then c as int - '0' as int
    else if 'A' <= c <= 'F' then c as int - 'A' as int + 10
    else 0
  }

  /** Reading two digits at a time: the inverse of HexString. */
  function FromHex(s: string): seq<byte>
  {
    if |s| < 2 then []
    else FromHex(s[..|s| - 2]) + [DigitValue(s[|s| - 2]) * 16 + DigitValue(s[|s| - 1])]
  }

  /** Every character HexString produces is a digit or an upper-case letter A-F. */
  lemma {:induction false} HexStringUpperCase(data: seq<byte>)
    ensures forall c <- HexString(data) :: '0' <= c <= '9' || 'A' <= c <= 'F'
  {
    if data != [] {
      HexStringUpperCase(data[..|data| - 1]);
    }
  }

  /** HexString loses nothing: the bytes can be read back from it. */
  lemma {:induction false} HexStringRoundTrip(data: seq<byte>)
    ensures FromHex(HexString(data)) == data
  {
    if data != [] {
      var init, last := data[..|data| - 1], data[|data| - 1];
      var s := HexString(data);
      assert s == HexString(init) + Hex2(last);
      HexStringRoundTrip(init);
      Hex2RoundTrip(last);
      FromHexStep(HexString(init), Hex2(last));
      assert init + [last] == data;
    }
  }

  /** One byte's two digits read back as that byte. */
  lemma Hex2RoundTrip(b: byte)
    ensures DigitValue(Hex2(b)[0]) * 16 + DigitValue(Hex2(b)[1]) == b
  {
  }

  /** FromHex reads the last two characters as the last byte. */
  lemma FromHexStep(s: string, pair: string)
    requires |pair| == 2
    ensures FromHex(s + pair) == FromHex(s) + [DigitValue(pair[0]) * 16 + DigitValue(pair[1])]
  {
    var t := s + pair;
    assert t[..|t| - 2] == s;
  }

  /** A successful ToString of a non-null array reads back as the first `len` bytes. */
  lemma ToStringRoundTrip(data: seq<byte>, len: int)
    requires len <= |data|
    ensures ToString(Some(data), len).Ok?
    ensures FromHex(ToString(Some(data), len).value) == data[..if len > 0 then len else 0]
  {
    if len > 0 {
      HexStringRoundTrip(data[..len]);
    }
  }
}
