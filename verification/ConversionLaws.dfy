/**
 The two conversions of a network's configuration against each other: which stored configs survive an export
 and a re-import unchanged, and when re-importing an export settles.
 */
module ConversionLaws {
  import opened Wrappers
  import opened Text
  import opened Addresses
  import opened NetworkConfigs
  import opened ConfigConversion
  import opened ConversionParts

  /** What the field types of the stored form guarantee: parsed URLs, identifiers, networks and addresses. */
  ghost predicate WellTyped(lib: Library, c: Config) {
    && (c.instanceId.Some? ==> lib.uuid(c.instanceId.value) == c.instanceId)
    && AllCanonical(lib.url, Uris(c.peers.GetOr([])))
    && AllCanonical(lib.url, c.listeners.GetOr([]))
    && AllCanonical(lib.url, c.mappedListeners.GetOr([]))
    && AllProxyNetworks(c.proxyNetworks.GetOr([]))
    && AllForwards(lib, c.portForwards.GetOr([]))
    && AllNetworks(c.routes.GetOr([]))
    && AllIps(lib, c.exitNodes.GetOr([]))
    && (c.vpnPortal.Some? ==> IsNetwork(c.vpnPortal.value.clientCidr))
    && (c.socks5Proxy.Some? ==> lib.url(c.socks5Proxy.value) == c.socks5Proxy)
  }

  // ---------------------------------------------------------------- which configs survive

  /** A list that is absent or has elements. */
  predicate NotEmpty<T>(xs: Option<seq<T>>) {
    xs.Some? ==> |xs.value| > 0
  }

  predicate TrueOrAbsent(b: Option<bool>) {
    b != Some(false)
  }

  /** Secure mode with every key in place: a key pair in credential mode, valid keys otherwise. */
  predicate KeysComplete(lib: Library, secret: Option<string>, mode: Option<SecureMode>) {
    mode.None? ||
    var m := mode.value;
    var key := m.privateKey.GetOr("");
    if secret.None? && key != "" then
      m.enabled && lib.privateKeyOk(key) && m.publicKey == Some(lib.derivePublicKey(key))
    else
      m.enabled ==>
        && m.privateKey.Some? && lib.privateKeyOk(key)
        && m.publicKey.Some? && lib.canonPublicKey(m.publicKey.value) == m.publicKey
  }

  predicate NoPeerKeys(peers: seq<Peer>) {
    forall p :: p in peers ==> p.publicKey.None?
  }

  predicate RepresentableIdentity(lib: Library, c: Config) {
    && c.instanceId.Some?
    && (c.hostname.Some? ==> PlainHostname(c.hostname.value) && c.hostname.value != lib.systemHostname)
    && c.dhcp.Some?
    && c.identity.Some?
    && c.instanceName == Some(c.identity.value.name)
    && (c.identity.value.secret.None? ==> c.secureMode.Some? && c.secureMode.value.privateKey.GetOr("") != "")
    && KeysComplete(lib, c.identity.value.secret, c.secureMode)
    && c.credentialFile != Some("")
  }

  predicate RepresentableAddresses(lib: Library, c: Config) {
    && (c.ipv4.Some? ==>
          c.dhcp != Some(true) && CanonicalInet(c.ipv4.value) && ParseInet(c.ipv4.value).value.len != 32)
    && TrueOrAbsent(c.ipv6PublicAddrProvider)
    && TrueOrAbsent(c.ipv6PublicAddrAuto)
    && (c.ipv6PublicAddrPrefix.Some? ==>
          c.ipv6PublicAddrPrefix.value != "" && lib.ipv6Cidr(c.ipv6PublicAddrPrefix.value) == c.ipv6PublicAddrPrefix)
  }

  predicate RepresentableNetworks(c: Config) {
    && NotEmpty(c.routes)
    && NotEmpty(c.exitNodes)
    && (c.vpnPortal.Some? ==> c.vpnPortal.value.listen.ip == V4(ANY_V4))
  }

  ghost predicate RepresentableUrls(lib: Library, c: Config) {
    && NotEmpty(c.peers) && NoPeerKeys(c.peers.GetOr([]))
    && c.listeners.Some?
    && NotEmpty(c.mappedListeners) && MappedOk(lib, c.mappedListeners.GetOr([]))
    && (c.socks5Proxy.Some? ==> exists p: Port :: c.socks5Proxy == Some(Socks5Url(p)))
  }

  predicate RepresentableForwards(c: Config) {
    && NotEmpty(c.proxyNetworks) && Buildable(c.proxyNetworks.GetOr([]))
    && NotEmpty(c.portForwards) && AllV4(c.portForwards.GetOr([]))
  }

  predicate RepresentableRest(lib: Library, c: Config) {
    && c.flags.Some?
    && c.flags.value.rest == HiddenDefaults(lib)
    && Tidy(c.flags.value.relayNetworkWhitelist)
    && (c.acl.Some? ==> !AclEmpty(c.acl.value))
    && Unexported(c)
  }

  /** The flat form has no place for these. */
  predicate Unexported(c: Config) {
    && c.netns.None? && c.ipv6.None? && c.tcpWhitelist.None? && c.udpWhitelist.None?
    && c.stunServers.None? && c.stunServersV6.None? && c.source.None?
  }

  /** The stored configs that the flat form can express. */
  ghost predicate Representable(lib: Library, c: Config) {
    && RepresentableIdentity(lib, c)
    && RepresentableAddresses(lib, c)
    && RepresentableNetworks(c)
    && RepresentableUrls(lib, c)
    && RepresentableForwards(c)
    && RepresentableRest(lib, c)
  }

  // ---------------------------------------------------------------- the conversion, part by part

  predicate YieldsIdentity(lib: Library, nc: NetworkConfig, c: Config) {
    && GenId(lib, nc.instanceId).Some? && GenId(lib, nc.instanceId) == c.instanceId
    && nc.hostname == c.hostname
    && Some(nc.dhcp.GetOr(false)) == c.dhcp
    && Some(nc.networkName.GetOr("")) == c.instanceName
    && Some(GenIdentity(nc.networkName, nc.networkSecret, nc.secureMode)) == c.identity
    && GenSecureMode(lib, nc.networkSecret, nc.secureMode) == Some(c.secureMode)
    && NonEmpty(nc.credentialFile) == c.credentialFile
  }

  predicate YieldsAddresses(lib: Library, nc: NetworkConfig, c: Config) {
    && GenIpv4(nc.dhcp.GetOr(false), nc.virtualIpv4, nc.networkLength) == Some(c.ipv4)
    && nc.ipv6PublicAddrProvider == c.ipv6PublicAddrProvider
    && nc.ipv6PublicAddrAuto == c.ipv6PublicAddrAuto
    && GenPrefix(lib, nc.ipv6PublicAddrPrefix) == Some(c.ipv6PublicAddrPrefix)
  }

  predicate YieldsNetworks(lib: Library, nc: NetworkConfig, c: Config) {
    && GenRoutes(nc.enableManualRoutes.GetOr(false), nc.routes) == Some(c.routes)
    && ParseAll(IpParser(lib), nc.exitNodes, false).Some?
    && IfAny(ParseAll(IpParser(lib), nc.exitNodes, false).value) == c.exitNodes
    && GenVpnOf(nc) == Some(c.vpnPortal)
  }

  predicate YieldsUrls(lib: Library, nc: NetworkConfig, c: Config) {
    && GenPeersOf(lib, nc) == Some(c.peers)
    && ParseAll(lib.url, nc.listenerUrls, true).Some?
    && ParseAll(lib.url, nc.listenerUrls, true) == c.listeners
    && ParseAll(MappedParser(lib), nc.mappedListeners, false).Some?
    && IfAny(ParseAll(MappedParser(lib), nc.mappedListeners, false).value) == c.mappedListeners
    && GenSocks5(lib, nc.enableSocks5.GetOr(false), nc.socks5Port) == Ok(c.socks5Proxy)
  }

  predicate YieldsForwards(lib: Library, nc: NetworkConfig, c: Config) {
    && AddProxies(nc.proxyCidrs).Some?
    && IfAny(AddProxies(nc.proxyCidrs).value) == c.proxyNetworks
    && GenForwards(lib, nc.portForwards) == c.portForwards
  }

  predicate YieldsRest(lib: Library, nc: NetworkConfig, c: Config) {
    && Some(GenFlags(lib, nc.flags)) == c.flags
    && GenAcl(nc.acl) == c.acl
    && Unexported(c)
  }

  /** `gen_config` gives a config exactly when every part of the flat form gives that config's part. */
  lemma GenIff(lib: Library, nc: NetworkConfig, c: Config)
    ensures Gen(lib, nc) == Ok(c)
       <==> && YieldsIdentity(lib, nc, c) && YieldsAddresses(lib, nc, c) && YieldsNetworks(lib, nc, c)
            && YieldsUrls(lib, nc, c) && YieldsForwards(lib, nc, c) && YieldsRest(lib, nc, c)
  {
  }

  // ---------------------------------------------------------------- survival

  /** A host name that is unset, or plain and not the system's, is stored as it was. */
  lemma HostnameSurvivesIff(lib: Library, name: Option<string>)
    ensures ExportHostname(lib, name) == name <==> (name.Some? ==> PlainHostname(name.value) && name.value != lib.systemHostname)
  {
    if name.Some? {
      CleanHostnameIff(name.value);
    }
  }

  /** Credential mode and secret mode are told apart by the secret, and complete keys stay as they are. */
  lemma SecureModeSurvivesIff(lib: Library, secret: Option<string>, mode: Option<SecureMode>)
    ensures GenSecureMode(lib, secret, mode) == Some(mode) <==> KeysComplete(lib, secret, mode)
  {
  }

  lemma IdentityPartSurvivesIff(id: Identity, mode: Option<SecureMode>)
    ensures GenIdentity(Some(id.name), id.secret, mode) == id
       <==> (id.secret.None? ==> mode.Some? && mode.value.privateKey.GetOr("") != "")
  {
  }

  lemma IdSurvivesIff(lib: Library, id: Option<string>)
    requires id.Some? ==> lib.uuid(id.value) == id
    requires lib.uuid(lib.freshUuid) == Some(lib.freshUuid)
    ensures GenId(lib, Some(id.GetOr(lib.freshUuid))) == id <==> id.Some?
    ensures GenId(lib, Some(id.GetOr(lib.freshUuid))).Some?
  {
  }

  lemma IdentitySurvivesIff(lib: Library, c: Config)
    requires Lawful(lib) && WellTyped(lib, c)
    ensures YieldsIdentity(lib, Export(lib, c), c) <==> RepresentableIdentity(lib, c)
  {
    IdSurvivesIff(lib, c.instanceId);
    if c.identity.Some? {
      HostnameSurvivesIff(lib, c.hostname);
      IdentityPartSurvivesIff(c.identity.value, c.secureMode);
      SecureModeSurvivesIff(lib, c.identity.value.secret, c.secureMode);
    }
  }

  lemma PrefixSurvivesIff(lib: Library, stored: Option<string>)
    requires Lawful(lib)
    ensures GenPrefix(lib, ReadPrefix(lib, stored)) == Some(stored)
       <==> (stored.Some? ==> stored.value != "" && lib.ipv6Cidr(stored.value) == stored)
  {
    if stored.Some? && lib.ipv6Cidr(stored.value).Some? {
      var s := lib.ipv6Cidr(stored.value).value;
      assert s != "" && lib.ipv6Cidr(s) == Some(s);
    }
  }

  lemma RoutesSurviveIff(routes: Option<seq<Inet>>)
    requires AllNetworks(routes.GetOr([]))
    ensures GenRoutes(routes.GetOr([]) != [], PrintRoutes(routes.GetOr([]))) == Some(routes) <==> NotEmpty(routes)
  {
    RoutesReadBack(routes.GetOr([]));
  }

  lemma VpnSurvivesIff(c: Config, nc: NetworkConfig)
    requires c.vpnPortal.Some? ==> IsNetwork(c.vpnPortal.value.clientCidr)
    requires nc.enableVpnPortal == (if c.vpnPortal.Some? then Some(true) else None)
    requires c.vpnPortal.Some? ==>
      && nc.vpnPortalListenPort == Some(c.vpnPortal.value.listen.port)
      && nc.vpnPortalClientNetworkAddr == Some(PrintV4(c.vpnPortal.value.clientCidr.addr))
      && nc.vpnPortalClientNetworkLen == Some(c.vpnPortal.value.clientCidr.len)
    ensures GenVpnOf(nc) == Some(c.vpnPortal) <==> (c.vpnPortal.Some? ==> c.vpnPortal.value.listen.ip == V4(ANY_V4))
  {
    if c.vpnPortal.Some? {
      VpnReadsBack(c.vpnPortal.value);
    }
  }

  lemma AddressesReadIff(lib: Library, nc: NetworkConfig, c: Config, ipv4: Option<Inet>)
    requires Lawful(lib) && c.dhcp.Some? && nc.dhcp == c.dhcp
    requires ipv4 == ReadIpv4(c.ipv4) && nc.virtualIpv4 == ExportAddr(ipv4) && nc.networkLength == ExportLen(ipv4)
    requires nc.ipv6PublicAddrProvider == OnlyTrue(c.ipv6PublicAddrProvider)
    requires nc.ipv6PublicAddrAuto == OnlyTrue(c.ipv6PublicAddrAuto)
    requires nc.ipv6PublicAddrPrefix == ReadPrefix(lib, c.ipv6PublicAddrPrefix)
    ensures YieldsAddresses(lib, nc, c) <==> RepresentableAddresses(lib, c)
  {
    Ipv4ReadsBackIff(c.dhcp.value, c.ipv4);
    PrefixSurvivesIff(lib, c.ipv6PublicAddrPrefix);
  }

  lemma AddressesSurviveIff(lib: Library, c: Config)
    requires Lawful(lib) && WellTyped(lib, c)
    requires c.dhcp.Some?
    ensures YieldsAddresses(lib, Export(lib, c), c) <==> RepresentableAddresses(lib, c)
  {
    AddressesReadIff(lib, Export(lib, c), c, ReadIpv4(c.ipv4));
  }

  lemma NetworksSurviveIff(lib: Library, c: Config)
    requires Lawful(lib) && WellTyped(lib, c)
    ensures YieldsNetworks(lib, Export(lib, c), c) <==> RepresentableNetworks(c)
  {
    RoutesSurviveIff(c.routes);
    ExitNodesReadBack(lib, c.exitNodes.GetOr([]));
    VpnSurvivesIff(c, Export(lib, c));
  }

  lemma PeersSurviveIff(lib: Library, c: Config)
    requires Lawful(lib) && WellTyped(lib, c)
    ensures GenPeers(lib, MANUAL, None, Uris(c.peers.GetOr([]))) == Some(c.peers)
       <==> NotEmpty(c.peers) && NoPeerKeys(c.peers.GetOr([]))
  {
    var peers := c.peers.GetOr([]);
    PeersReadBack(lib, peers);
    if NoPeerKeys(peers) {
      assert Anonymous(Uris(peers)) == peers;
    } else {
      var i :| 0 <= i < |peers| && peers[i].publicKey.Some?;
      assert Anonymous(Uris(peers))[i].publicKey.None?;
    }
  }

  lemma UrlsSurviveIff(lib: Library, c: Config)
    requires Lawful(lib) && WellTyped(lib, c)
    ensures YieldsUrls(lib, Export(lib, c), c) <==> RepresentableUrls(lib, c)
  {
    PeersSurviveIff(lib, c);
    ParseCanonical(lib.url, c.listeners.GetOr([]));
    MappedReadBackIff(lib, c.mappedListeners.GetOr([]));
    SocksSurvivesIff(lib, c.socks5Proxy);
  }

  lemma ForwardsSurviveIff(lib: Library, c: Config)
    requires Lawful(lib) && WellTyped(lib, c)
    ensures YieldsForwards(lib, Export(lib, c), c) <==> RepresentableForwards(c)
  {
    ProxiesReadBackIff(c.proxyNetworks.GetOr([]));
    ForwardsReadBack(lib, c.portForwards.GetOr([]));
    OnlyV4Iff(c.portForwards.GetOr([]));
  }

  lemma SocksSurvivesIff(lib: Library, url: Option<string>)
    requires Lawful(lib)
    ensures GenSocks5(lib, url.Some?, ReadPort(lib, url)) == Ok(url)
       <==> (url.Some? ==> exists p: Port :: url == Some(Socks5Url(p)))
  {
    if url.Some? && lib.urlPort(url.value).Some? {
      var p: Port := lib.urlPort(url.value).value;
      assert lib.url(Socks5Url(p)) == Some(Socks5Url(p));
    }
  }

  lemma RestSurvivesIff(lib: Library, c: Config)
    ensures YieldsRest(lib, Export(lib, c), c) <==> RepresentableRest(lib, c)
  {
    if c.flags.Some? {
      FlagsReadBackIff(lib, c.flags.value);
    }
  }

  /** A stored config survives an export and a re-import exactly when the flat form can express it. */
  lemma RoundTripIff(lib: Library, c: Config)
    requires Lawful(lib) && WellTyped(lib, c)
    ensures Gen(lib, Export(lib, c)) == Ok(c) <==> Representable(lib, c)
  {
    GenIff(lib, Export(lib, c), c);
    IdentitySurvivesIff(lib, c);
    if c.dhcp.Some? {
      AddressesSurviveIff(lib, c);
    }
    NetworksSurviveIff(lib, c);
    UrlsSurviveIff(lib, c);
    ForwardsSurviveIff(lib, c);
    RestSurvivesIff(lib, c);
  }

  /** An import panics exactly when it gets as far as an enabled SOCKS5 proxy with a number that is no port. */
  lemma PanicsIff(lib: Library, nc: NetworkConfig)
    requires Lawful(lib)
    ensures Gen(lib, nc).Panicked?
       <==> && EarlyPartsRead(lib, nc) && nc.enableSocks5.GetOr(false)
            && nc.socks5Port.Some? && !(0 <= nc.socks5Port.value <= MAX_PORT)
  {
    if nc.socks5Port.Some? {
      var p := nc.socks5Port.value;
      assert lib.url(Socks5Url(p)).Some? <==> 0 <= p <= MAX_PORT;
    }
  }
}
