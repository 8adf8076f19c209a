/** DhcpServerSettings.cs: the configuration record the server is built from. */
module Settings {
  import opened Base

  /** The settings struct. Every address is optional (a null reference) and IPv4; the
      server name is kept as the bytes `Encoding.ASCII.GetBytes` makes of it, which is
      the only form in which the model uses it. */
  datatype DhcpServerSettings = DhcpServerSettings(
    ServerIp: Option<IPv4>,
    StartIp: Option<IPv4>,
    EndIp: Option<IPv4>,
    SubnetMask: Option<IPv4>,
    RouterIp: Option<IPv4>,
    DomainIp: Option<IPv4>,
    LeaseTime: uint32,
    ServerName: Option<seq<byte>>)

  /** `IsValid`: a server address is given, and the range bounds are given both or neither. */
  predicate IsValid(settings: DhcpServerSettings)
  {
    settings.ServerIp != None
    && ((settings.StartIp == None && settings.EndIp == None)
        || (settings.StartIp != None && settings.EndIp != None))
  }

  /** The settings are valid exactly when the server address is present and the start of
      the range is present exactly when its end is: a one-sided range is refused. */
  lemma IsValidCases(settings: DhcpServerSettings)
    ensures IsValid(settings) <==> settings.ServerIp.Some? && (settings.StartIp.Some? <==> settings.EndIp.Some?)
  {
  }
}
