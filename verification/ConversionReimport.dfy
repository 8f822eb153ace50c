/**
 What becomes of any stored config that is exported and read back, field by field: what an absent field turns into, what
 is lost, and which exports are refused.
 */
module ConversionReimport {
  import opened Wrappers
  import opened Text
  import opened Addresses
  import opened NetworkConfigs
  import opened ConfigConversion
  import opened ConversionParts
  import opened ConversionLaws
  import opened ConversionMeaning

  // ---------------------------------------------------------------- identity

  /** A config without an identity is reported as the network "default" with an empty secret. */
  function IdentityOf(c: Config): Identity {
    if c.identity.Some? then c.identity.value else Identity("default", Some(""))
  }

  /** The host name is reported unless it is the system's, without control characters and cut to 32 characters. */
  ghost predicate HostnameReimports(lib: Library, stored: Option<string>, name: Option<string>) {
    var clean := DropControls(Given(stored));
    var cut := if |clean| > 32 then clean[..32] else clean;
    name == if cut == "" || cut == lib.systemHostname then None else Some(cut)
  }

  lemma HostnameIs(lib: Library, stored: Option<string>)
    ensures HostnameReimports(lib, stored, ExportHostname(lib, stored))
  {
  }

  /** Control characters are dropped one by one. */
  lemma {:induction false} DropControlsSplits(a: string, b: string)
    ensures DropControls(a + b) == DropControls(a) + DropControls(b)
    ensures |a| == 1 ==> DropControls(a) == if IsControl(a[0]) then "" else a
  {
    assert |a| == 1 ==> a == [a[0]] && a[1..] == "";
    if a == "" {
      assert a + b == b;
    } else {
      assert (a + b)[1..] == a[1..] + b;
      DropControlsSplits(a[1..], b);
    }
  }

  ghost predicate IdentityReimports(lib: Library, c: Config, d: Config) {
    var id := IdentityOf(c);
    && d.instanceId == Some(if c.instanceId.Some? then c.instanceId.value else lib.freshUuid)
    && HostnameReimports(lib, c.hostname, d.hostname)
    && d.dhcp == Some(On(c.dhcp))
    && d.instanceName == Some(id.name)
    && d.identity.Some? && d.identity.value.name == id.name
    && d.identity.value.secret == (if CredentialMode(id.secret, c.secureMode) then None else Some(Given(id.secret)))
    && SecureModeMeans(lib, id.secret, c.secureMode, d.secureMode)
    && d.credentialFile == (if Given(c.credentialFile) == "" then None else c.credentialFile)
  }

  lemma IdentityReimportIff(lib: Library, c: Config, d: Config)
    requires Lawful(lib) && WellTyped(lib, c)
    ensures IdentityMeans(lib, Export(lib, c), d) <==> IdentityReimports(lib, c, d)
  {
    HostnameIs(lib, c.hostname);
  }

  // ---------------------------------------------------------------- addresses

  /** A stored address that can be read, a host address as a /24; none under DHCP. */
  ghost predicate Ipv4Reimports(c: Config, stored: Option<string>) {
    if !On(c.dhcp) && c.ipv4.Some? && exists x :: InetText(c.ipv4.value, x)
    then exists x :: InetText(c.ipv4.value, x) && stored == Some(PrintInet(if x.len == 32 then Inet(x.addr, 24) else x))
    else stored.None?
  }

  lemma Ipv4ReimportIff(lib: Library, c: Config, stored: Option<string>)
    ensures Ipv4Means(Export(lib, c), stored) <==> Ipv4Reimports(c, stored)
  {
    Ipv4Iff(Export(lib, c), stored);
    Ipv4ReadsBack(On(c.dhcp), c.ipv4);
    assert c.dhcp.GetOr(false) == On(c.dhcp);
    if c.ipv4.Some? {
      if ParseInet(c.ipv4.value).Some? {
        InetIff(c.ipv4.value, ParseInet(c.ipv4.value).value);
      }
      forall x | InetText(c.ipv4.value, x) ensures ParseInet(c.ipv4.value) == Some(x) {
        InetIff(c.ipv4.value, x);
      }
    }
  }

  ghost predicate AddressesReimport(lib: Library, c: Config, d: Config) {
    && Ipv4Reimports(c, d.ipv4)
    && d.ipv6PublicAddrProvider == (if On(c.ipv6PublicAddrProvider) then Some(true) else None)
    && d.ipv6PublicAddrAuto == (if On(c.ipv6PublicAddrAuto) then Some(true) else None)
    && d.ipv6PublicAddrPrefix == (if c.ipv6PublicAddrPrefix.Some? then lib.ipv6Cidr(c.ipv6PublicAddrPrefix.value) else None)
  }

  lemma PrefixReimportIff(lib: Library, c: Config, stored: Option<string>)
    requires Lawful(lib)
    ensures PrefixMeans(lib, Export(lib, c), stored)
       <==> stored == if c.ipv6PublicAddrPrefix.Some? then lib.ipv6Cidr(c.ipv6PublicAddrPrefix.value) else None
  {
    if c.ipv6PublicAddrPrefix.Some? && lib.ipv6Cidr(c.ipv6PublicAddrPrefix.value).Some? {
      var s := lib.ipv6Cidr(c.ipv6PublicAddrPrefix.value).value;
      assert s != "" && lib.ipv6Cidr(s) == Some(s);
    }
  }

  lemma AddressesReimportIff(lib: Library, c: Config, d: Config)
    requires Lawful(lib)
    ensures AddressesMean(lib, Export(lib, c), d) <==> AddressesReimport(lib, c, d)
  {
    Ipv4ReimportIff(lib, c, d.ipv4);
    PrefixReimportIff(lib, c, d.ipv6PublicAddrPrefix);
  }

  // ---------------------------------------------------------------- routes, exit nodes, VPN portal

  /** A list without elements turns into no list. */
  predicate ListReimports<T(==)>(stored: Option<seq<T>>, again: Option<seq<T>>) {
    again == if stored == Some([]) then None else stored
  }

  /** The VPN portal listens on every address. */
  predicate NetworksReimport(c: Config, d: Config) {
    && ListReimports(c.routes, d.routes)
    && ListReimports(c.exitNodes, d.exitNodes)
    && d.vpnPortal.Some? == c.vpnPortal.Some?
    && (c.vpnPortal.Some? ==>
          && d.vpnPortal.value.clientCidr == c.vpnPortal.value.clientCidr
          && d.vpnPortal.value.listen == SocketAddr(V4(Ipv4(0, 0, 0, 0)), c.vpnPortal.value.listen.port))
  }

  lemma RoutesReimportIff(lib: Library, c: Config, d: Config)
    requires Lawful(lib) && WellTyped(lib, c)
    ensures RoutesMean(Export(lib, c), d.routes) <==> ListReimports(c.routes, d.routes)
  {
    RoutesIff(Export(lib, c), d.routes);
    RoutesReadBack(c.routes.GetOr([]));
  }

  lemma ExitNodesReimportIff(lib: Library, c: Config, d: Config)
    requires Lawful(lib) && WellTyped(lib, c)
    ensures ListMeans(IpParser(lib), Export(lib, c).exitNodes, d.exitNodes) <==> ListReimports(c.exitNodes, d.exitNodes)
  {
    ListIff(IpParser(lib), Export(lib, c).exitNodes, d.exitNodes);
    ExitNodesReadBack(lib, c.exitNodes.GetOr([]));
  }

  lemma VpnReimportIff(lib: Library, c: Config, d: Config)
    requires Lawful(lib) && WellTyped(lib, c)
    requires ListReimports(c.routes, d.routes) && ListReimports(c.exitNodes, d.exitNodes)
    ensures VpnMeans(Export(lib, c), d.vpnPortal) <==> NetworksReimport(c, d)
  {
    VpnIff(Export(lib, c), d.vpnPortal);
    if c.vpnPortal.Some? {
      VpnReadsBack(c.vpnPortal.value);
    }
  }

  lemma NetworksReimportIff(lib: Library, c: Config, d: Config)
    requires Lawful(lib) && WellTyped(lib, c)
    ensures NetworksMean(lib, Export(lib, c), d) <==> NetworksReimport(c, d)
  {
    RoutesReimportIff(lib, c, d);
    ExitNodesReimportIff(lib, c, d);
    if ListReimports(c.routes, d.routes) && ListReimports(c.exitNodes, d.exitNodes) {
      VpnReimportIff(lib, c, d);
    }
  }

  // ---------------------------------------------------------------- URLs

  /** The peers lose their public keys. */
  predicate PeersReimport(stored: Option<seq<Peer>>, again: Option<seq<Peer>>) {
    if stored.GetOr([]) == [] then again.None?
    else again.Some? && Uris(again.value) == Uris(stored.value) && NoPeerKeys(again.value)
  }

  lemma PeersReimportIff(lib: Library, c: Config, d: Config)
    requires Lawful(lib) && WellTyped(lib, c)
    ensures PeersMean(lib, Export(lib, c), d.peers) <==> PeersReimport(c.peers, d.peers)
  {
    var peers := c.peers.GetOr([]);
    PeersIff(lib, Export(lib, c), d.peers);
    PeersReadBack(lib, peers);
    var kept := Anonymous(Uris(peers));
    assert Uris(kept) == Uris(peers) && NoPeerKeys(kept);
    if d.peers.Some? && Uris(d.peers.value) == Uris(peers) && NoPeerKeys(d.peers.value) {
      forall i | 0 <= i < |peers| ensures |d.peers.value| == |peers| && d.peers.value[i] == kept[i] {
        assert |Uris(d.peers.value)| == |peers|;
        assert Uris(d.peers.value)[i] == Uris(peers)[i];
        assert d.peers.value[i] in d.peers.value;
      }
      assert |Uris(d.peers.value)| == |peers|;
      assert d.peers.value == kept;
    }
  }

  /** Of a SOCKS5 proxy only the port is reported. */
  ghost predicate UrlsReimport(lib: Library, c: Config, d: Config) {
    && PeersReimport(c.peers, d.peers)
    && d.listeners == (if c.listeners.Some? then c.listeners else Some([]))
    && ListReimports(c.mappedListeners, d.mappedListeners)
    && MappedOk(lib, c.mappedListeners.GetOr([]))
    && d.socks5Proxy == (if c.socks5Proxy.Some? && lib.urlPort(c.socks5Proxy.value).Some?
                         then Some("socks5://0.0.0.0:" + Dec(lib.urlPort(c.socks5Proxy.value).value)) else None)
  }

  lemma SocksReimportIff(lib: Library, c: Config, d: Config)
    requires Lawful(lib)
    ensures GenSocks5(lib, c.socks5Proxy.Some?, ReadPort(lib, c.socks5Proxy)) == Ok(d.socks5Proxy)
       <==> d.socks5Proxy == (if c.socks5Proxy.Some? && lib.urlPort(c.socks5Proxy.value).Some?
                              then Some("socks5://0.0.0.0:" + Dec(lib.urlPort(c.socks5Proxy.value).value)) else None)
  {
    if c.socks5Proxy.Some? && lib.urlPort(c.socks5Proxy.value).Some? {
      var p: Port := lib.urlPort(c.socks5Proxy.value).value;
      assert lib.url(Socks5Url(p)) == Some(Socks5Url(p));
    }
  }

  lemma MappedReimportIff(lib: Library, c: Config, d: Config)
    requires Lawful(lib) && WellTyped(lib, c)
    ensures ParseAll(MappedParser(lib), Export(lib, c).mappedListeners, false).Some?
         && IfAny(ParseAll(MappedParser(lib), Export(lib, c).mappedListeners, false).value) == d.mappedListeners
       <==> ListReimports(c.mappedListeners, d.mappedListeners) && MappedOk(lib, c.mappedListeners.GetOr([]))
  {
    MappedReadBackIff(lib, c.mappedListeners.GetOr([]));
  }

  lemma UrlsReimportIff(lib: Library, c: Config, d: Config)
    requires Lawful(lib) && WellTyped(lib, c)
    ensures UrlsMean(lib, Export(lib, c), d) <==> UrlsReimport(lib, c, d)
  {
    UrlsIff(lib, Export(lib, c), d);
    PeersIff(lib, Export(lib, c), d.peers);
    PeersReimportIff(lib, c, d);
    ParseCanonical(lib.url, c.listeners.GetOr([]));
    MappedReimportIff(lib, c, d);
    SocksReimportIff(lib, c, d);
  }

  // ---------------------------------------------------------------- proxy networks and port forwards

  lemma PrintedProxiesRead(ps: seq<ProxyNetwork>)
    requires AllProxyNetworks(ps) && LengthsMatch(ps)
    ensures ProxiesRead(PrintProxies(ps), Pairs(ps))
  {
    forall i | 0 <= i < |ps| ensures ProxyText(PrintProxies(ps)[i], ps[i].cidr, ps[i].mapped) {
      assert ps[i] in ps;
      ProxyRoundTrip(ps[i]);
      ProxyIff(PrintProxies(ps)[i], ps[i].cidr, ps[i].mapped);
    }
    forall p | p in Pairs(ps) && p.1.Some? ensures p.1.value.len == p.0.len {
      var i :| 0 <= i < |ps| && Pairs(ps)[i] == p;
      assert ps[i] in ps;
    }
  }

  lemma ReadProxiesMatch(ps: seq<ProxyNetwork>, pairs: seq<(Inet, Option<Inet>)>)
    requires AllProxyNetworks(ps) && ProxiesRead(PrintProxies(ps), pairs)
    ensures pairs == Pairs(ps) && LengthsMatch(ps)
  {
    forall i | 0 <= i < |ps| ensures pairs[i] == Pairs(ps)[i] {
      assert ps[i] in ps;
      ProxyRoundTrip(ps[i]);
      ProxyIff(PrintProxies(ps)[i], pairs[i].0, pairs[i].1);
    }
    assert pairs == Pairs(ps);
    forall p | p in ps && p.mapped.Some? ensures p.mapped.value.len == p.cidr.len {
      var i :| 0 <= i < |ps| && ps[i] == p;
      assert pairs[i] in pairs;
    }
  }

  /** Printed networks are refused when a mapped one has another length, and else stored without repeats. */
  lemma ProxiesReimportIff(ps: seq<ProxyNetwork>, qs: seq<ProxyNetwork>)
    requires AllProxyNetworks(ps)
    ensures ProxiesMean(PrintProxies(ps), qs) <==> LengthsMatch(ps) && NoAllowLists(qs) && Pairs(qs) == FirstOnes(Pairs(ps))
  {
    if ProxiesMean(PrintProxies(ps), qs) {
      var pairs :| ProxiesRead(PrintProxies(ps), pairs) && Pairs(qs) == FirstOnes(pairs);
      ReadProxiesMatch(ps, pairs);
    }
    if LengthsMatch(ps) {
      PrintedProxiesRead(ps);
    }
  }

  /** Proxy networks lose what they allow and their repeats, port forwards those that are not IPv4. */
  predicate ForwardsReimport(c: Config, d: Config) {
    && LengthsMatch(c.proxyNetworks.GetOr([]))
    && (if c.proxyNetworks.GetOr([]) == [] then d.proxyNetworks.None?
        else d.proxyNetworks.Some? && NoAllowLists(d.proxyNetworks.value)
             && Pairs(d.proxyNetworks.value) == FirstOnes(Pairs(c.proxyNetworks.value)))
    && d.portForwards == (if c.portForwards.GetOr([]) == [] then None else Some(OnlyV4(c.portForwards.value)))
  }

  lemma PortForwardsReimportIff(lib: Library, fs: seq<PortForward>, ps: seq<PortForward>)
    requires Lawful(lib) && AllForwards(lib, fs)
    ensures AreForwards(lib, Readable(lib, FlattenForwards(fs)), ps) <==> ps == OnlyV4(fs)
  {
    KeepForwardsIff(lib, FlattenForwards(fs), ps);
    ForwardsReadBack(lib, fs);
  }

  lemma ForwardsReimportIff(lib: Library, c: Config, d: Config)
    requires Lawful(lib) && WellTyped(lib, c)
    ensures ForwardsMean(lib, Export(lib, c), d) <==> ForwardsReimport(c, d)
  {
    var ps, fs := c.proxyNetworks.GetOr([]), c.portForwards.GetOr([]);
    var nc := Export(lib, c);
    assert nc.proxyCidrs == PrintProxies(ps) && nc.portForwards == FlattenForwards(fs);
    assert ps == [] ==> LengthsMatch(ps);
    if d.proxyNetworks.Some? {
      ProxiesReimportIff(ps, d.proxyNetworks.value);
    }
    if d.portForwards.Some? {
      PortForwardsReimportIff(lib, fs, d.portForwards.value);
    }
  }

  // ---------------------------------------------------------------- flags and the whole

  /** A config without flags is reported with every flag at zero. */
  ghost predicate RestReimports(lib: Library, c: Config, d: Config) {
    var flags := if c.flags.Some? then c.flags.value else ZERO_FLAGS;
    && d.flags == Some(Flags(flags.switches, Whitelist(flags.relayNetworkWhitelist), HiddenDefaults(lib)))
    && d.acl == (if c.acl.Some? && HasRules(c.acl.value) then c.acl else None)
    && Unexported(d)
  }

  lemma RestReimportIff(lib: Library, c: Config, d: Config)
    ensures RestMeans(lib, Export(lib, c), d) <==> RestReimports(lib, c, d)
  {
    RestIff(lib, Export(lib, c), d);
    FlagsReadBack(lib, c.flags.GetOr(ZERO_FLAGS));
  }

  ghost predicate Reimports(lib: Library, c: Config, d: Config) {
    && IdentityReimports(lib, c, d)
    && AddressesReimport(lib, c, d)
    && NetworksReimport(c, d)
    && UrlsReimport(lib, c, d)
    && ForwardsReimport(c, d)
    && RestReimports(lib, c, d)
  }

  /** For every well-typed stored config: this is the config that its export is read back as. */
  lemma ReimportIff(lib: Library, c: Config, d: Config)
    requires Lawful(lib) && WellTyped(lib, c)
    ensures Gen(lib, Export(lib, c)) == Ok(d) <==> Reimports(lib, c, d)
  {
    ImportIff(lib, Export(lib, c), d);
    IdentityReimportIff(lib, c, d);
    AddressesReimportIff(lib, c, d);
    NetworksReimportIff(lib, c, d);
    UrlsReimportIff(lib, c, d);
    ForwardsReimportIff(lib, c, d);
    RestReimportIff(lib, c, d);
  }
}
