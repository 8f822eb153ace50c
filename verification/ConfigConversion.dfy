/**
 `NetworkConfig::gen_config` and `NetworkConfig::new_from_config` (iconnectd/src/launcher.rs): the flat form
 to the stored form and back, part by part and then as a whole.
 */
module ConfigConversion {
  import opened Wrappers
  import opened Text
  import opened Addresses
  import opened NetworkConfigs

  /** A conversion gives a value, reports an error, or panics. */
  datatype Outcome<+T> = Ok(value: T) | Failed | Panicked

  // ---------------------------------------------------------------- proxy networks

  /** Split at every "->". */
  function SplitArrow(s: string): (parts: seq<string>)
    ensures |parts| >= 1
  {
    if |s| < 2 then [s]
    else if s[0] == '-' && s[1] == '>' then [""] + SplitArrow(s[2..])
    else
      var rest := SplitArrow(s[1..]);
      [[s[0]] + rest[0]] + rest[1..]
  }

  function ParseProxy(s: string): Option<(Inet, Option<Inet>)> {
    var parts := SplitArrow(s);
    match ParseCidr(parts[0])
    case None => None
    case Some(cidr) =>
      if |parts| > 2 then None
      else if |parts| == 1 then Some((cidr, None))
      else match ParseCidr(parts[1]) case None => None case Some(mapped) => Some((cidr, Some(mapped)))
  }

  function PrintProxy(p: ProxyNetwork): string {
    match p.mapped
    case Some(mapped) => PrintInet(p.cidr) + "->" + PrintInet(mapped)
    case None => PrintInet(p.cidr)
  }

  predicate HasProxy(ps: seq<ProxyNetwork>, cidr: Inet, mapped: Option<Inet>) {
    exists i :: 0 <= i < |ps| && ps[i].cidr == cidr && ps[i].mapped == mapped
  }

  /** Add a proxy network unless it is there already; a mapped network must have the same length. */
  function AddProxy(ps: seq<ProxyNetwork>, cidr: Inet, mapped: Option<Inet>): Option<seq<ProxyNetwork>> {
    if mapped.Some? && cidr.len != mapped.value.len then None
    else if HasProxy(ps, cidr, mapped) then Some(ps)
    else Some(ps + [ProxyNetwork(cidr, mapped, None)])
  }

  function AddProxies(texts: seq<string>): Option<seq<ProxyNetwork>> {
    if texts == [] then Some([])
    else
      var n := |texts| - 1;
      match AddProxies(texts[..n])
      case None => None
      case Some(ps) => match ParseProxy(texts[n]) case None => None case Some(p) => AddProxy(ps, p.0, p.1)
  }

  method AddProxyNetworks(texts: seq<string>) returns (r: Option<seq<ProxyNetwork>>)
    ensures r == AddProxies(texts)
  {
    var ps: seq<ProxyNetwork> := [];
    var i := 0;
    while i < |texts|
      invariant 0 <= i <= |texts|
      invariant AddProxies(texts[..i]) == Some(ps)
    {
      assert texts[..i + 1][..i] == texts[..i];
      var p := ParseProxy(texts[i]);
      var next := if p.None? then None else AddProxy(ps, p.value.0, p.value.1);
      if next.None? {
        AddProxiesFails(texts, i);
        return None;
      }
      ps := next.value;
      i := i + 1;
    }
    assert texts[..i] == texts;
    return Some(ps);
  }

  lemma {:induction false} AddProxiesFails(texts: seq<string>, i: nat)
    requires i < |texts| && AddProxies(texts[..i + 1]).None?
    ensures AddProxies(texts).None?
    decreases |texts| - i
  {
    if i + 1 == |texts| {
      assert texts[..i + 1] == texts;
    } else {
      assert texts[..i + 2][..i + 1] == texts[..i + 1];
      AddProxiesFails(texts, i + 1);
    }
  }

  // ---------------------------------------------------------------- port forwards

  function ParseForward(lib: Library, f: FlatForward): Option<PortForward> {
    if f.bindIp == "" || f.dstIp == "" then None
    else
      match (ParseSocket(lib.ipv6, f.bindIp + ":" + Dec(f.bindPort)), ParseSocket(lib.ipv6, f.dstIp + ":" + Dec(f.dstPort)))
      case (Some(bind), Some(dst)) => Some(PortForward(bind, dst, f.proto))
      case _ => None
  }

  /** Forwards with a missing or unreadable address are dropped. */
  function KeepForwards(lib: Library, fs: seq<FlatForward>): seq<PortForward> {
    if fs == [] then []
    else
      var n := |fs| - 1;
      var f := ParseForward(lib, fs[n]);
      KeepForwards(lib, fs[..n]) + (if f.Some? then [f.value] else [])
  }

  function FlattenForward(f: PortForward): FlatForward {
    FlatForward(PrintIp(f.bind.ip), f.bind.port, PrintIp(f.dst.ip), f.dst.port, f.proto)
  }

  // ---------------------------------------------------------------- secure mode and identity

  /** Complete the keys of an enabled secure mode. */
  function ProcessSecureMode(lib: Library, m: SecureMode): Option<SecureMode> {
    if !m.enabled then Some(m)
    else if m.privateKey.Some? && !lib.privateKeyOk(m.privateKey.value) then None
    else
      var key := m.privateKey.GetOr(lib.freshKey);
      match m.publicKey
      case None => Some(SecureMode(true, Some(key), Some(lib.derivePublicKey(key))))
      case Some(p) => if lib.canonPublicKey(p) == Some(p) then Some(SecureMode(true, Some(key), Some(p))) else None
  }

  /** The private key that turns a config without a network secret into a credential config. */
  function CredentialKey(secret: Option<string>, mode: Option<SecureMode>): Option<string> {
    if secret.Some? || mode.None? || mode.value.privateKey.None? || mode.value.privateKey.value == "" then None
    else mode.value.privateKey
  }

  function GenSecureMode(lib: Library, secret: Option<string>, mode: Option<SecureMode>): Option<Option<SecureMode>> {
    var key := CredentialKey(secret, mode);
    if key.None? && mode.None? then Some(None)
    else
      match ProcessSecureMode(lib, if key.Some? then SecureMode(true, key, None) else mode.value)
      case None => None
      case Some(m) => Some(Some(m))
  }

  function GenIdentity(name: Option<string>, secret: Option<string>, mode: Option<SecureMode>): Identity {
    Identity(name.GetOr(""), if CredentialKey(secret, mode).Some? then None else Some(secret.GetOr("")))
  }

  // ---------------------------------------------------------------- addresses

  function GenIpv4(dhcp: bool, addr: Option<string>, len: Option<I32>): Option<Option<string>> {
    if dhcp || addr.GetOr("") == "" then Some(None)
    else
      match ParseInet(addr.value + "/" + DecInt(len.GetOr(24)))
      case None => None
      case Some(x) => Some(Some(PrintInet(x)))
  }

  /** The stored address as it is read back: a host address counts as a /24. */
  function ReadIpv4(stored: Option<string>): Option<Inet> {
    if stored.None? then None
    else
      match ParseInet(stored.value)
      case None => None
      case Some(x) => Some(if x.len == 32 then Inet(x.addr, 24) else x)
  }

  function GenPrefix(lib: Library, text: Option<string>): Option<Option<string>> {
    if text.GetOr("") == "" then Some(None)
    else match lib.ipv6Cidr(text.value) case None => None case Some(x) => Some(Some(x))
  }

  function ReadPrefix(lib: Library, stored: Option<string>): Option<string> {
    if stored.None? then None else lib.ipv6Cidr(stored.value)
  }

  function Anonymous(urls: seq<string>): seq<Peer> {
    seq(|urls|, i requires 0 <= i < |urls| => Peer(urls[i], None))
  }

  function Uris(peers: seq<Peer>): seq<string> {
    seq(|peers|, i requires 0 <= i < |peers| => peers[i].uri)
  }

  const MANUAL: I32 := 1
  const STANDALONE: I32 := 2

  /** Any other networking method means the public server. */
  function GenPeers(lib: Library, how: I32, server: Option<string>, urls: seq<string>): Option<Option<seq<Peer>>> {
    if how == STANDALONE then Some(None)
    else
      match if how == MANUAL then ParseAll(lib.url, urls, true) else ParseAll(lib.url, [server.GetOr("")], false)
      case None => None
      case Some(us) => Some(IfAny(Anonymous(us)))
  }

  function GenVpn(enabled: bool, addr: Option<string>, len: Option<I32>, port: Option<I32>): Option<Option<VpnPortal>> {
    if !enabled then Some(None)
    else
      var cidr := ParseCidr(addr.GetOr("") + "/" + DecInt(len.GetOr(24)));
      if cidr.Some? && 0 <= port.GetOr(0) <= MAX_PORT
      then Some(Some(VpnPortal(cidr.value, SocketAddr(V4(ANY_V4), port.GetOr(0)))))
      else None
  }

  function GenRoutes(enabled: bool, texts: seq<string>): Option<Option<seq<Inet>>> {
    if !enabled then Some(None)
    else match ParseAll(ParseCidr, texts, false) case None => None case Some(rs) => Some(Some(rs))
  }

  function IpParser(lib: Library): string -> Option<IpAddr> {
    s => ParseIp(lib.ipv6, s)
  }

  function ParseMapped(lib: Library, s: string): Option<string> {
    match lib.url(s)
    case None => None
    case Some(u) => if lib.mappedListenerOk(u) then Some(u) else None
  }

  function MappedParser(lib: Library): string -> Option<string> {
    s => ParseMapped(lib, s)
  }

  /** The proxy URL is built and parsed without a check, so a bad port panics. */
  function GenSocks5(lib: Library, enabled: bool, port: Option<I32>): Outcome<Option<string>> {
    if !enabled || port.None? then Ok(None)
    else match lib.url(Socks5Url(port.value)) case Some(u) => Ok(Some(u)) case None => Panicked
  }

  function ReadPort(lib: Library, url: Option<string>): Option<I32> {
    if url.None? then None else match lib.urlPort(url.value) case Some(p) => Some(p) case None => None
  }

  /** `None` for an empty list. */
  function IfAny<T>(xs: seq<T>): Option<seq<T>> {
    if |xs| == 0 then None else Some(xs)
  }

  // ---------------------------------------------------------------- flags

  /** A field that is present overrides the default. */
  function GenSwitches(d: Switches, f: FlatSwitches): Switches {
    Switches(
      f.latencyFirst.GetOr(d.latencyFirst), f.devName.GetOr(d.devName), f.useSmoltcp.GetOr(d.useSmoltcp),
      if f.disableIpv6.Some? then !f.disableIpv6.value else d.enableIpv6,
      f.enableKcpProxy.GetOr(d.enableKcpProxy), f.disableKcpInput.GetOr(d.disableKcpInput),
      f.enableQuicProxy.GetOr(d.enableQuicProxy), f.disableQuicInput.GetOr(d.disableQuicInput),
      f.disableP2p.GetOr(d.disableP2p), f.p2pOnly.GetOr(d.p2pOnly), f.lazyP2p.GetOr(d.lazyP2p),
      f.bindDevice.GetOr(d.bindDevice),
      if f.socketMark.Some? then f.socketMark else d.socketMark,
      f.noTun.GetOr(d.noTun), f.enableExitNode.GetOr(d.enableExitNode), f.relayAllPeerRpc.GetOr(d.relayAllPeerRpc),
      f.needP2p.GetOr(d.needP2p), f.multiThread.GetOr(d.multiThread), f.proxyForwardBySystem.GetOr(d.proxyForwardBySystem),
      if f.disableEncryption.Some? then !f.disableEncryption.value else d.enableEncryption,
      f.disableTcpHolePunching.GetOr(d.disableTcpHolePunching), f.disableUdpHolePunching.GetOr(d.disableUdpHolePunching),
      f.disableUpnp.GetOr(d.disableUpnp), f.disableRelayData.GetOr(d.disableRelayData),
      f.enableUdpBroadcastRelay.GetOr(d.enableUdpBroadcastRelay), f.disableSymHolePunching.GetOr(d.disableSymHolePunching),
      f.enableMagicDns.GetOr(d.acceptDns),
      if f.mtu.Some? then AsU32(f.mtu.value) else d.mtu,
      f.instanceRecvBpsLimit.GetOr(d.instanceRecvBpsLimit), f.enablePrivateMode.GetOr(d.privateMode))
  }

  function GenFlags(lib: Library, f: FlatFlags): Flags {
    var d := DefaultFlags(lib);
    Flags(
      GenSwitches(d.switches, f.switches),
      if f.enableRelayNetworkWhitelist.GetOr(false) then Join(f.relayNetworkWhitelist, " ") else d.relayNetworkWhitelist,
      d.rest.(encryptionAlgorithm := f.encryptionAlgorithm.GetOr(d.rest.encryptionAlgorithm),
              dataCompressAlgo := if f.dataCompressAlgo.None? then d.rest.dataCompressAlgo
                                  else if f.dataCompressAlgo.value < 1 then 1 else f.dataCompressAlgo.value))
  }

  function ExportSwitches(f: Switches): FlatSwitches {
    FlatSwitches(
      Some(f.latencyFirst), Some(f.devName), Some(f.useSmoltcp), Some(!f.enableIpv6), Some(f.enableKcpProxy),
      Some(f.disableKcpInput), Some(f.enableQuicProxy), Some(f.disableQuicInput), Some(f.disableP2p), Some(f.p2pOnly),
      Some(f.lazyP2p), Some(f.bindDevice), f.socketMark, Some(f.noTun), Some(f.enableExitNode), Some(f.relayAllPeerRpc),
      Some(f.needP2p), Some(f.multiThread), Some(f.proxyForwardBySystem), Some(!f.enableEncryption),
      Some(f.disableTcpHolePunching), Some(f.disableUdpHolePunching), Some(f.disableUpnp), Some(f.disableRelayData),
      Some(f.enableUdpBroadcastRelay), Some(f.disableSymHolePunching), Some(f.acceptDns), Some(AsI32(f.mtu)),
      if f.instanceRecvBpsLimit != U64_MAX then Some(f.instanceRecvBpsLimit) else None,
      Some(f.privateMode))
  }

  /** The encryption and compression algorithms are never reported. */
  function ExportFlags(f: Flags): FlatFlags {
    FlatFlags(
      ExportSwitches(f.switches), Some(f.relayNetworkWhitelist != "*"),
      if f.relayNetworkWhitelist == "*" then [] else SplitSpaces(f.relayNetworkWhitelist), None, None)
  }

  // ---------------------------------------------------------------- the host name

  predicate IsControl(c: char) {
    c as int < 0x20 || 0x7F <= c as int <= 0x9F
  }

  function DropControls(s: string): string {
    if s == "" then "" else (if IsControl(s[0]) then "" else [s[0]]) + DropControls(s[1..])
  }

  /** The stored name as it is read: at most 32 characters, none of them a control character. */
  function CleanHostname(stored: Option<string>): Option<string> {
    if stored.None? then None
    else
      var t := DropControls(stored.value);
      if t == "" then None else Some(if |t| <= 32 then t else t[..32])
  }

  /** The name is reported when it differs from the system's. */
  function ExportHostname(lib: Library, stored: Option<string>): Option<string> {
    var name := CleanHostname(stored);
    if name == Some(lib.systemHostname) then None else name
  }

  // ---------------------------------------------------------------- the conversions

  function OnlyTrue(b: Option<bool>): Option<bool> {
    if b.GetOr(false) then Some(true) else None
  }

  function GenId(lib: Library, id: Option<string>): Option<string> {
    lib.uuid(id.GetOr(lib.freshUuid))
  }

  function GenPeersOf(lib: Library, nc: NetworkConfig): Option<Option<seq<Peer>>> {
    GenPeers(lib, nc.networkingMethod.GetOr(0), nc.publicServerUrl, nc.peerUrls)
  }

  function GenVpnOf(nc: NetworkConfig): Option<Option<VpnPortal>> {
    GenVpn(nc.enableVpnPortal.GetOr(false), nc.vpnPortalClientNetworkAddr, nc.vpnPortalClientNetworkLen, nc.vpnPortalListenPort)
  }

  function GenForwards(lib: Library, fs: seq<FlatForward>): Option<seq<PortForward>> {
    if fs == [] then None else Some(KeepForwards(lib, fs))
  }

  function GenAcl(acl: Option<Acl>): Option<Acl> {
    if acl.Some? && !AclEmpty(acl.value) then acl else None
  }

  function NonEmpty(s: Option<string>): Option<string> {
    if s == Some("") then None else s
  }

  /** Every part that is read before the proxy URL is built can be read. */
  predicate EarlyPartsRead(lib: Library, nc: NetworkConfig) {
    && GenId(lib, nc.instanceId).Some?
    && GenIpv4(nc.dhcp.GetOr(false), nc.virtualIpv4, nc.networkLength).Some?
    && GenPeersOf(lib, nc).Some?
    && ParseAll(lib.url, nc.listenerUrls, true).Some?
    && AddProxies(nc.proxyCidrs).Some?
    && GenVpnOf(nc).Some?
    && GenRoutes(nc.enableManualRoutes.GetOr(false), nc.routes).Some?
    && ParseAll(IpParser(lib), nc.exitNodes, false).Some?
  }

  predicate LatePartsRead(lib: Library, nc: NetworkConfig) {
    && ParseAll(MappedParser(lib), nc.mappedListeners, false).Some?
    && GenSecureMode(lib, nc.networkSecret, nc.secureMode).Some?
    && GenPrefix(lib, nc.ipv6PublicAddrPrefix).Some?
  }

  /** The config after the parts up to the exit nodes. */
  function EarlyConfig(lib: Library, nc: NetworkConfig): Config
    requires EarlyPartsRead(lib, nc)
  {
    var dhcp := nc.dhcp.GetOr(false);
    DefaultConfig(lib).(
    instanceId := GenId(lib, nc.instanceId),
    hostname := nc.hostname,
    dhcp := Some(dhcp),
    instanceName := Some(nc.networkName.GetOr("")),
    identity := Some(GenIdentity(nc.networkName, nc.networkSecret, nc.secureMode)),
    ipv4 := GenIpv4(dhcp, nc.virtualIpv4, nc.networkLength).value,
    peers := GenPeersOf(lib, nc).value,
    listeners := ParseAll(lib.url, nc.listenerUrls, true),
    proxyNetworks := IfAny(AddProxies(nc.proxyCidrs).value),
    portForwards := GenForwards(lib, nc.portForwards),
    vpnPortal := GenVpnOf(nc).value,
    routes := GenRoutes(nc.enableManualRoutes.GetOr(false), nc.routes).value,
    exitNodes := IfAny(ParseAll(IpParser(lib), nc.exitNodes, false).value))
  }

  /** Flat to stored. */
  function Gen(lib: Library, nc: NetworkConfig): Outcome<Config> {
    var socks := GenSocks5(lib, nc.enableSocks5.GetOr(false), nc.socks5Port);
    if !EarlyPartsRead(lib, nc) then Failed
    else if !socks.Ok? then Panicked
    else if !LatePartsRead(lib, nc) then Failed
    else
      Ok(EarlyConfig(lib, nc).(
         socks5Proxy := socks.value,
         mappedListeners := IfAny(ParseAll(MappedParser(lib), nc.mappedListeners, false).value),
         credentialFile := NonEmpty(nc.credentialFile),
         secureMode := GenSecureMode(lib, nc.networkSecret, nc.secureMode).value,
         ipv6PublicAddrProvider := nc.ipv6PublicAddrProvider,
         ipv6PublicAddrAuto := nc.ipv6PublicAddrAuto,
         ipv6PublicAddrPrefix := GenPrefix(lib, nc.ipv6PublicAddrPrefix).value,
         acl := GenAcl(nc.acl),
         flags := Some(GenFlags(lib, nc.flags))))
  }

  function PrintProxies(ps: seq<ProxyNetwork>): seq<string> {
    seq(|ps|, i requires 0 <= i < |ps| => PrintProxy(ps[i]))
  }

  function FlattenForwards(fs: seq<PortForward>): seq<FlatForward> {
    seq(|fs|, i requires 0 <= i < |fs| => FlattenForward(fs[i]))
  }

  function PrintRoutes(rs: seq<Inet>): seq<string> {
    seq(|rs|, i requires 0 <= i < |rs| => PrintInet(rs[i]))
  }

  function PrintIps(ips: seq<IpAddr>): seq<string> {
    seq(|ips|, i requires 0 <= i < |ips| => PrintIp(ips[i]))
  }

  /** Stored to flat. */
  function Export(lib: Library, c: Config): NetworkConfig {
    var identity := c.identity.GetOr(Identity("default", Some("")));
    var ipv4 := ReadIpv4(c.ipv4);
    NetworkConfig(
      Some(c.instanceId.GetOr(lib.freshUuid)),
      Some(c.dhcp.GetOr(false)),
      if ipv4.Some? then Some(PrintV4(ipv4.value.addr)) else None,
      if ipv4.Some? then Some(ipv4.value.len) else None,
      ExportHostname(lib, c.hostname),
      Some(identity.name),
      identity.secret,
      Some(MANUAL),
      None,
      Uris(c.peers.GetOr([])),
      PrintProxies(c.proxyNetworks.GetOr([])),
      if c.vpnPortal.Some? then Some(true) else None,
      if c.vpnPortal.Some? then Some(c.vpnPortal.value.listen.port) else None,
      if c.vpnPortal.Some? then Some(PrintV4(c.vpnPortal.value.clientCidr.addr)) else None,
      if c.vpnPortal.Some? then Some(c.vpnPortal.value.clientCidr.len) else None,
      c.listeners.GetOr([]),
      if c.routes.GetOr([]) != [] then Some(true) else None,
      PrintRoutes(c.routes.GetOr([])),
      PrintIps(c.exitNodes.GetOr([])),
      if c.socks5Proxy.Some? then Some(true) else None,
      ReadPort(lib, c.socks5Proxy),
      c.mappedListeners.GetOr([]),
      FlattenForwards(c.portForwards.GetOr([])),
      c.secureMode,
      c.acl,
      c.credentialFile,
      OnlyTrue(c.ipv6PublicAddrProvider),
      OnlyTrue(c.ipv6PublicAddrAuto),
      ReadPrefix(lib, c.ipv6PublicAddrPrefix),
      ExportFlags(c.flags.GetOr(ZERO_FLAGS)))
  }
}
