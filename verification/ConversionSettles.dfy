/**
 Re-importing an export: what `gen_config` makes of its own output after `new_from_config`.
 */
module ConversionSettles {
  import opened Wrappers
  import opened Text
  import opened Addresses
  import opened NetworkConfigs
  import opened ConfigConversion
  import opened ConversionParts
  import opened ConversionLaws

  // ---------------------------------------------------------------- what gen_config produces

  /** A stored address is the text of some address, and there is none under DHCP. */
  ghost predicate StoredAddress(c: Config) {
    c.ipv4.Some? ==> c.dhcp == Some(false) && exists x: Inet :: c.ipv4 == Some(PrintInet(x))
  }

  predicate GeneratedIdentity(lib: Library, c: Config) {
    && c.instanceId.Some? && lib.uuid(c.instanceId.value) == c.instanceId
    && c.dhcp.Some?
    && c.identity.Some?
    && c.instanceName == Some(c.identity.value.name)
    && (c.identity.value.secret.None? ==> c.secureMode.Some? && c.secureMode.value.privateKey.GetOr("") != "")
    && KeysComplete(lib, c.identity.value.secret, c.secureMode)
    && c.credentialFile != Some("")
  }

  ghost predicate GeneratedAddresses(lib: Library, c: Config) {
    && StoredAddress(c)
    && (c.ipv6PublicAddrPrefix.Some? ==>
          c.ipv6PublicAddrPrefix.value != "" && lib.ipv6Cidr(c.ipv6PublicAddrPrefix.value) == c.ipv6PublicAddrPrefix)
  }

  ghost predicate GeneratedNetworks(lib: Library, c: Config) {
    && AllNetworks(c.routes.GetOr([]))
    && NotEmpty(c.exitNodes) && AllIps(lib, c.exitNodes.GetOr([]))
    && (c.vpnPortal.Some? ==> IsNetwork(c.vpnPortal.value.clientCidr) && c.vpnPortal.value.listen.ip == V4(ANY_V4))
  }

  ghost predicate GeneratedUrls(lib: Library, c: Config) {
    && NotEmpty(c.peers) && NoPeerKeys(c.peers.GetOr([])) && AllCanonical(lib.url, Uris(c.peers.GetOr([])))
    && c.listeners.Some? && AllCanonical(lib.url, c.listeners.GetOr([]))
    && NotEmpty(c.mappedListeners) && MappedOk(lib, c.mappedListeners.GetOr([]))
    && AllCanonical(lib.url, c.mappedListeners.GetOr([]))
    && (c.socks5Proxy.Some? ==> exists p: Port :: c.socks5Proxy == Some(Socks5Url(p)))
  }

  ghost predicate GeneratedForwards(lib: Library, c: Config) {
    && NotEmpty(c.proxyNetworks) && Buildable(c.proxyNetworks.GetOr([])) && AllProxyNetworks(c.proxyNetworks.GetOr([]))
    && AllForwards(lib, c.portForwards.GetOr([]))
  }

  predicate GeneratedRest(c: Config) {
    && c.flags.Some?
    && (c.acl.Some? ==> !AclEmpty(c.acl.value))
    && Unexported(c)
  }

  /** What holds of every config that `gen_config` returns. */
  ghost predicate Generated(lib: Library, c: Config) {
    && GeneratedIdentity(lib, c)
    && GeneratedAddresses(lib, c)
    && GeneratedNetworks(lib, c)
    && GeneratedUrls(lib, c)
    && GeneratedForwards(lib, c)
    && GeneratedRest(c)
  }

  lemma SecureModeGenerated(lib: Library, name: Option<string>, secret: Option<string>, mode: Option<SecureMode>)
    requires Lawful(lib) && GenSecureMode(lib, secret, mode).Some?
    ensures var id := GenIdentity(name, secret, mode);
            var m := GenSecureMode(lib, secret, mode).value;
            && KeysComplete(lib, id.secret, m)
            && (id.secret.None? ==> m.Some? && m.value.privateKey.GetOr("") != "")
  {
  }

  lemma IdentityGenerated(lib: Library, nc: NetworkConfig, c: Config)
    requires Lawful(lib) && YieldsIdentity(lib, nc, c)
    ensures GeneratedIdentity(lib, c)
  {
    SecureModeGenerated(lib, nc.networkName, nc.networkSecret, nc.secureMode);
  }

  lemma AddressesGenerated(lib: Library, nc: NetworkConfig, c: Config)
    requires Lawful(lib) && YieldsAddresses(lib, nc, c) && c.dhcp == Some(nc.dhcp.GetOr(false))
    ensures GeneratedAddresses(lib, c)
  {
  }

  lemma NetworksGenerated(lib: Library, nc: NetworkConfig, c: Config)
    requires Lawful(lib) && YieldsNetworks(lib, nc, c)
    ensures GeneratedNetworks(lib, c)
  {
    ParseAllParsed(IpParser(lib), nc.exitNodes, false);
    if c.routes.Some? {
      ParseAllParsed(ParseCidr, nc.routes, false);
    }
  }

  lemma PeersGenerated(lib: Library, nc: NetworkConfig)
    requires Lawful(lib) && GenPeersOf(lib, nc).Some?
    ensures var peers := GenPeersOf(lib, nc).value;
            NotEmpty(peers) && NoPeerKeys(peers.GetOr([])) && AllCanonical(lib.url, Uris(peers.GetOr([])))
  {
    var how := nc.networkingMethod.GetOr(0);
    if how != STANDALONE {
      var texts := if how == MANUAL then nc.peerUrls else [nc.publicServerUrl.GetOr("")];
      ParsedIsCanonical(lib.url, texts, how == MANUAL);
      var us := ParseAll(lib.url, texts, how == MANUAL).value;
      assert Uris(Anonymous(us)) == us;
    }
  }

  lemma SocksGenerated(lib: Library, enabled: bool, port: Option<I32>)
    requires Lawful(lib) && GenSocks5(lib, enabled, port).Ok?
    ensures var url := GenSocks5(lib, enabled, port).value;
            url.Some? ==> exists p: Port :: url == Some(Socks5Url(p))
  {
  }

  lemma UrlsGenerated(lib: Library, nc: NetworkConfig, c: Config)
    requires Lawful(lib) && YieldsUrls(lib, nc, c)
    ensures GeneratedUrls(lib, c)
  {
    PeersGenerated(lib, nc);
    ParsedIsCanonical(lib.url, nc.listenerUrls, true);
    MappedParsed(lib, nc.mappedListeners);
    SocksGenerated(lib, nc.enableSocks5.GetOr(false), nc.socks5Port);
  }

  lemma ForwardsGenerated(lib: Library, nc: NetworkConfig, c: Config)
    requires Lawful(lib) && YieldsForwards(lib, nc, c)
    ensures GeneratedForwards(lib, c)
  {
    AddedProxies(nc.proxyCidrs);
    KeptForwards(lib, nc.portForwards);
  }

  lemma GenGenerates(lib: Library, nc: NetworkConfig, c: Config)
    requires Lawful(lib) && Gen(lib, nc) == Ok(c)
    ensures Generated(lib, c)
  {
    GenIff(lib, nc, c);
    IdentityGenerated(lib, nc, c);
    AddressesGenerated(lib, nc, c);
    NetworksGenerated(lib, nc, c);
    UrlsGenerated(lib, nc, c);
    ForwardsGenerated(lib, nc, c);
  }

  // ---------------------------------------------------------------- one round

  function SettledIpv4(stored: Option<string>): Option<string> {
    var x := ReadIpv4(stored);
    if x.Some? then Some(PrintInet(x.value)) else None
  }

  function SettledForwards(fs: Option<seq<PortForward>>): Option<seq<PortForward>> {
    if fs.GetOr([]) == [] then None else Some(OnlyV4(fs.value))
  }

  function SettledFlags(lib: Library, f: Flags): Flags {
    Flags(f.switches, Whitelist(f.relayNetworkWhitelist), HiddenDefaults(lib))
  }

  /** A generated config after an export and a re-import. */
  function Settled(lib: Library, c: Config): Config
    requires c.flags.Some?
  {
    c.(hostname := ExportHostname(lib, c.hostname),
       ipv4 := SettledIpv4(c.ipv4),
       ipv6PublicAddrProvider := OnlyTrue(c.ipv6PublicAddrProvider),
       ipv6PublicAddrAuto := OnlyTrue(c.ipv6PublicAddrAuto),
       routes := IfAny(c.routes.GetOr([])),
       portForwards := SettledForwards(c.portForwards),
       flags := Some(SettledFlags(lib, c.flags.value)))
  }

  lemma IdentitySettles(lib: Library, c: Config)
    requires Lawful(lib) && GeneratedIdentity(lib, c) && c.flags.Some?
    ensures YieldsIdentity(lib, Export(lib, c), Settled(lib, c))
  {
    IdentityPartSurvivesIff(c.identity.value, c.secureMode);
    SecureModeSurvivesIff(lib, c.identity.value.secret, c.secureMode);
  }

  lemma AddressesSettle(lib: Library, c: Config)
    requires Lawful(lib) && GeneratedAddresses(lib, c) && c.flags.Some? && c.dhcp.Some?
    ensures YieldsAddresses(lib, Export(lib, c), Settled(lib, c))
  {
    Ipv4ReadsBack(c.dhcp.value, c.ipv4);
    PrefixSurvivesIff(lib, c.ipv6PublicAddrPrefix);
  }

  lemma NetworksSettle(lib: Library, c: Config)
    requires Lawful(lib) && GeneratedNetworks(lib, c) && c.flags.Some?
    ensures YieldsNetworks(lib, Export(lib, c), Settled(lib, c))
  {
    RoutesReadBack(c.routes.GetOr([]));
    ExitNodesReadBack(lib, c.exitNodes.GetOr([]));
    VpnSurvivesIff(c, Export(lib, c));
  }

  lemma GeneratedIsWellTyped(lib: Library, c: Config)
    requires Lawful(lib) && Generated(lib, c)
    ensures WellTyped(lib, c)
  {
  }

  /** Settling leaves the URLs alone. */
  lemma SameUrls(lib: Library, nc: NetworkConfig, c: Config)
    requires c.flags.Some?
    ensures YieldsUrls(lib, nc, Settled(lib, c)) == YieldsUrls(lib, nc, c)
  {
  }

  lemma UrlsSettle(lib: Library, c: Config)
    requires Lawful(lib) && Generated(lib, c)
    ensures YieldsUrls(lib, Export(lib, c), Settled(lib, c))
  {
    GeneratedIsWellTyped(lib, c);
    UrlsSurviveIff(lib, c);
    SameUrls(lib, Export(lib, c), c);
  }

  lemma ForwardsSettle(lib: Library, c: Config)
    requires Lawful(lib) && GeneratedForwards(lib, c) && c.flags.Some?
    ensures YieldsForwards(lib, Export(lib, c), Settled(lib, c))
  {
    ProxiesReadBackIff(c.proxyNetworks.GetOr([]));
    ForwardsReadBack(lib, c.portForwards.GetOr([]));
  }

  /** An export of a generated config is always accepted, and this is the config it gives. */
  lemma OneRound(lib: Library, c: Config)
    requires Lawful(lib) && Generated(lib, c)
    ensures Gen(lib, Export(lib, c)) == Ok(Settled(lib, c))
  {
    IdentitySettles(lib, c);
    AddressesSettle(lib, c);
    NetworksSettle(lib, c);
    UrlsSettle(lib, c);
    ForwardsSettle(lib, c);
    FlagsReadBack(lib, c.flags.value);
    GenIff(lib, Export(lib, c), Settled(lib, c));
  }

  // ---------------------------------------------------------------- what the round keeps

  /** What a generated config may lose in a round: an IPv6 forward, and the padding of a lone "*". */
  predicate Stable(c: Config)
    requires c.flags.Some?
  {
    AllV4(c.portForwards.GetOr([])) && !PaddedStar(c.flags.value.relayNetworkWhitelist)
  }

  lemma Ipv4Exports(c: Config)
    requires StoredAddress(c)
    ensures ReadIpv4(SettledIpv4(c.ipv4)) == ReadIpv4(c.ipv4)
  {
    if c.ipv4.Some? {
      var x: Inet :| c.ipv4 == Some(PrintInet(x));
      StoredIpv4(x);
      var y := ReadIpv4(c.ipv4).value;
      StoredIpv4(y);
    }
  }

  lemma ForwardsExportIff(fs: Option<seq<PortForward>>)
    ensures FlattenForwards(SettledForwards(fs).GetOr([])) == FlattenForwards(fs.GetOr([])) <==> AllV4(fs.GetOr([]))
  {
    OnlyV4Iff(fs.GetOr([]));
    assert |FlattenForwards(SettledForwards(fs).GetOr([]))| == |OnlyV4(fs.GetOr([]))|;
  }

  lemma FlagsExportIff(lib: Library, f: Flags)
    ensures ExportFlags(SettledFlags(lib, f)) == ExportFlags(f) <==> !PaddedStar(f.relayNetworkWhitelist)
  {
    FlagsReadBack(lib, f);
    FlagsSettleIff(lib, f);
  }

  /** The fields of the flat form other than the forwards and the flags are stable. */
  lemma OtherPartsExport(lib: Library, c: Config)
    requires Generated(lib, c)
    ensures Export(lib, Settled(lib, c))
         == Export(lib, c).(portForwards := FlattenForwards(SettledForwards(c.portForwards).GetOr([])),
                            flags := ExportFlags(SettledFlags(lib, c.flags.value)))
  {
    var d := Settled(lib, c);
    HostnameSettles(lib, c.hostname);
    Ipv4Exports(c);
    ExportDependsOn(lib, c, d);
  }

  /** What the export of two configs has in common. */
  lemma ExportDependsOn(lib: Library, c: Config, d: Config)
    requires c.instanceId == d.instanceId && c.dhcp == d.dhcp && ReadIpv4(c.ipv4) == ReadIpv4(d.ipv4)
    requires ExportHostname(lib, c.hostname) == ExportHostname(lib, d.hostname)
    requires c.identity == d.identity && c.peers == d.peers && c.proxyNetworks == d.proxyNetworks && c.vpnPortal == d.vpnPortal
    requires c.listeners == d.listeners && c.routes.GetOr([]) == d.routes.GetOr([]) && c.exitNodes == d.exitNodes
    requires c.socks5Proxy == d.socks5Proxy && c.mappedListeners == d.mappedListeners && c.secureMode == d.secureMode
    requires c.acl == d.acl && c.credentialFile == d.credentialFile && c.ipv6PublicAddrPrefix == d.ipv6PublicAddrPrefix
    requires OnlyTrue(c.ipv6PublicAddrProvider) == OnlyTrue(d.ipv6PublicAddrProvider)
    requires OnlyTrue(c.ipv6PublicAddrAuto) == OnlyTrue(d.ipv6PublicAddrAuto)
    ensures Export(lib, d) == Export(lib, c).(portForwards := FlattenForwards(d.portForwards.GetOr([])),
                                              flags := ExportFlags(d.flags.GetOr(ZERO_FLAGS)))
  {
  }

  lemma ExportStableIff(lib: Library, c: Config)
    requires Lawful(lib) && Generated(lib, c)
    ensures Export(lib, Settled(lib, c)) == Export(lib, c) <==> Stable(c)
  {
    OtherPartsExport(lib, c);
    ForwardsExportIff(c.portForwards);
    FlagsExportIff(lib, c.flags.value);
    var e := Export(lib, c);
    assert e.portForwards == FlattenForwards(c.portForwards.GetOr([])) && e.flags == ExportFlags(c.flags.value);
  }

  // ---------------------------------------------------------------- the laws

  /**
   Whatever flat config was imported: its export is accepted again, and re-exporting gives the same flat config
   exactly when the stored config holds no IPv6 forward and no padded "*" whitelist.
   */
  lemma ReimportStableIff(lib: Library, nc: NetworkConfig, c: Config)
    requires Lawful(lib) && Gen(lib, nc) == Ok(c)
    ensures Generated(lib, c)
    ensures Gen(lib, Export(lib, c)) == Ok(Settled(lib, c))
    ensures Export(lib, Settled(lib, c)) == Export(lib, c) <==> Stable(c)
  {
    GenGenerates(lib, nc, c);
    OneRound(lib, c);
    ExportStableIff(lib, c);
  }

  /** In credential mode the network keeps its private key and stays without a secret. */
  lemma CredentialModeKept(lib: Library, nc: NetworkConfig, c: Config)
    requires Lawful(lib) && Gen(lib, nc) == Ok(c)
    requires CredentialKey(nc.networkSecret, nc.secureMode).Some?
    ensures Settled(lib, c).identity == c.identity && c.identity.value.secret.None?
    ensures Settled(lib, c).secureMode == c.secureMode && c.secureMode.value.privateKey == nc.secureMode.value.privateKey
    ensures CredentialKey(Export(lib, c).networkSecret, Export(lib, c).secureMode) == nc.secureMode.value.privateKey
  {
    GenIff(lib, nc, c);
  }

  /** After a round nothing is left to lose. */
  lemma SettledIsStable(lib: Library, c: Config)
    requires c.flags.Some?
    ensures Stable(Settled(lib, c))
  {
    var w := c.flags.value.relayNetworkWhitelist;
    WhitelistSettlesIff(w);
    SplitSpacesWords(w);
    SplitSpacesJoin(SplitSpaces(w));
    assert Join(["*"], " ") == "*";
  }

  /** Two rounds always settle: from then on the stored config is representable and survives unchanged. */
  lemma TwoRoundsSettle(lib: Library, nc: NetworkConfig, c: Config)
    requires Lawful(lib) && Gen(lib, nc) == Ok(c)
    ensures var once := Settled(lib, c);
            var twice := Settled(lib, once);
            && Gen(lib, Export(lib, c)) == Ok(once)
            && Gen(lib, Export(lib, once)) == Ok(twice)
            && Gen(lib, Export(lib, twice)) == Ok(twice)
            && Export(lib, twice) == Export(lib, once)
  {
    ReimportStableIff(lib, nc, c);
    var once := Settled(lib, c);
    SettledIsStable(lib, c);
    ReimportStableIff(lib, Export(lib, c), once);
  }

  // ---------------------------------------------------------------- the losses

  const NO_SWITCHES := FlatSwitches(
    None, None, None, None, None, None, None, None, None, None, None, None, None, None, None, None, None, None, None, None,
    None, None, None, None, None, None, None, None, None, None)

  /** A stand-alone network with the given forwards and whitelist and nothing else set. */
  function Standalone(forwards: seq<FlatForward>, words: seq<string>): NetworkConfig {
    NetworkConfig(None, None, None, None, None, None, None, Some(STANDALONE), None, [], [], None, None, None, None, [], None, [],
                  [], None, None, [], forwards, None, None, None, None, None, None,
                  FlatFlags(NO_SWITCHES, Some(true), words, None, None))
  }

  lemma StandaloneStores(lib: Library, forwards: seq<FlatForward>, words: seq<string>) returns (c: Config)
    requires Lawful(lib)
    ensures Gen(lib, Standalone(forwards, words)) == Ok(c)
    ensures c.portForwards == GenForwards(lib, forwards)
    ensures c.flags.Some? && c.flags.value.relayNetworkWhitelist == Join(words, " ")
  {
    c := Gen(lib, Standalone(forwards, words)).value;
  }

  lemma PaddedStarText()
    ensures Join(["", "*"], " ") == " *"
    ensures PaddedStar(" *")
  {
    assert ["", "*"][1..] == ["*"];
    assert Join(["*"], " ") == "*";
    assert Join(["", "*"], " ") == "" + " " + "*";
    assert " *"[1..] == "*";
    SplitSpacesWord("*", "");
    assert "*" + "" == "*";
  }

  /** The whitelist words "" and "*" are stored as " *", reported as "*", and then as no whitelist at all. */
  lemma PaddedStarIsLost(lib: Library) returns (nc: NetworkConfig, c: Config)
    requires Lawful(lib)
    ensures Gen(lib, nc) == Ok(c) && Generated(lib, c)
    ensures Export(lib, Settled(lib, c)) != Export(lib, c)
  {
    nc := Standalone([], ["", "*"]);
    c := StandaloneStores(lib, [], ["", "*"]);
    PaddedStarText();
    ReimportStableIff(lib, nc, c);
  }

  lemma LoneForwardKept(lib: Library, f: FlatForward)
    requires ParseForward(lib, f).Some?
    ensures GenForwards(lib, [f]) == Some([ParseForward(lib, f).value])
  {
    var fs := [f];
    var n := |fs| - 1;
    assert fs[..n] == [] && fs[n] == f;
    assert KeepForwards(lib, fs[..n]) == [];
    assert KeepForwards(lib, fs) == [ParseForward(lib, f).value];
  }

  lemma LoneForwardLost(f: PortForward)
    requires !IsV4(f)
    ensures SettledForwards(Some([f])) == Some([])
  {
    var fs := [f];
    assert fs[..0] == [] && fs[0] == f;
  }

  /** A bracketed IPv6 forward is accepted once and gone after a round. */
  lemma Ipv6ForwardIsLost(lib: Library, f: FlatForward) returns (nc: NetworkConfig, c: Config)
    requires Lawful(lib)
    requires ParseForward(lib, f).Some? && !IsV4(ParseForward(lib, f).value)
    ensures Gen(lib, nc) == Ok(c) && c.flags.Some?
    ensures c.portForwards == Some([ParseForward(lib, f).value]) && Settled(lib, c).portForwards == Some([])
  {
    nc := Standalone([f], []);
    c := StandaloneStores(lib, [f], []);
    LoneForwardKept(lib, f);
    LoneForwardLost(ParseForward(lib, f).value);
  }

  /** A stand-alone network with a SOCKS5 proxy on port 70000 passes every check before the proxy and then panics. */
  lemma BadPortPanics(lib: Library)
    requires Lawful(lib)
    ensures Gen(lib, Standalone([], []).(enableSocks5 := Some(true), socks5Port := Some(70000))) == Panicked
  {
    var nc := Standalone([], []).(enableSocks5 := Some(true), socks5Port := Some(70000));
    assert EarlyPartsRead(lib, nc);
    PanicsIff(lib, nc);
  }
}
