/**
 What `gen_config` makes of every flat config, field by field, in terms of the raw texts and numbers of the flat form.
 */
module ConversionMeaning {
  import opened Wrappers
  import opened Text
  import opened Addresses
  import opened NetworkConfigs
  import opened ConfigConversion
  import opened ConversionParts
  import opened ConversionLaws

  predicate On(b: Option<bool>) {
    b == Some(true)
  }

  /** An absent text counts as an empty one. */
  function Given(s: Option<string>): string {
    match s
    case Some(t) => t
    case None => ""
  }

  // ---------------------------------------------------------------- peers

  ghost predicate ArePeers(lib: Library, urls: seq<string>, peers: seq<Peer>) {
    && |peers| == |urls|
    && forall i :: 0 <= i < |urls| ==> lib.url(urls[i]) == Some(peers[i].uri) && peers[i].publicKey.None?
  }

  /** Method 2 has no peers, method 1 the listed ones, and every other method the public server. */
  ghost predicate PeersMean(lib: Library, nc: NetworkConfig, peers: Option<seq<Peer>>) {
    var urls := NonEmptyTexts(nc.peerUrls);
    match nc.networkingMethod.GetOr(0)
    case 2 => peers.None?
    case 1 => if urls == [] then peers.None? else peers.Some? && ArePeers(lib, urls, peers.value)
    case _ => peers.Some? && ArePeers(lib, [Given(nc.publicServerUrl)], peers.value)
  }

  lemma AnonymousIff(lib: Library, texts: seq<string>, urls: seq<string>, peers: seq<Peer>)
    ensures Anonymous(urls) == peers && Reads(lib.url, texts, urls) <==> ArePeers(lib, texts, peers) && urls == Uris(peers)
  {
    if ArePeers(lib, texts, peers) && urls == Uris(peers) {
      assert Anonymous(urls) == peers;
    }
  }

  lemma PeersIff(lib: Library, nc: NetworkConfig, peers: Option<seq<Peer>>)
    ensures GenPeersOf(lib, nc) == Some(peers) <==> PeersMean(lib, nc, peers)
  {
    var how := nc.networkingMethod.GetOr(0);
    var skip := how == MANUAL;
    var texts := if skip then nc.peerUrls else [Given(nc.publicServerUrl)];
    var kept := if skip then NonEmptyTexts(texts) else texts;
    var read := ParseAll(lib.url, texts, skip);
    if how != STANDALONE {
      if read.Some? {
        ParseAllReads(lib.url, texts, skip, read.value);
        AnonymousIff(lib, kept, read.value, Anonymous(read.value));
      }
      if peers.Some? {
        var urls := Uris(peers.value);
        ParseAllReads(lib.url, texts, skip, urls);
        AnonymousIff(lib, kept, urls, peers.value);
      } else {
        ParseAllReads(lib.url, texts, skip, []);
      }
    }
  }

  // ---------------------------------------------------------------- addresses

  /** An address text, a slash and a signed length read as a network exactly when they are that network's. */
  lemma SlashIff(addr: string, len: int, x: Inet)
    ensures ParseInet(addr + "/" + DecInt(len)) == Some(x) <==> addr == PrintV4(x.addr) && len == x.len
  {
    var text := DecInt(len);
    if len >= 0 {
      ParseDec(len, 32);
      DecFree(len, '/');
    } else {
      DecFree(-len, '/');
      assert text[0] == '-';
    }
    assert Free(text, '/');
    SplitBetween(addr, text, '/');
    SplitFree(text, '/');
    LonePart(addr, '/');
    V4Iff(addr, x.addr);
    V4Free(x.addr, '/');
  }

  /** A dotted address with a length of 0 to 32, 24 unless given; none under DHCP or without an address. */
  ghost predicate Ipv4Means(nc: NetworkConfig, stored: Option<string>) {
    if On(nc.dhcp) || Given(nc.virtualIpv4) == "" then stored.None?
    else exists x: Inet ::
      Given(nc.virtualIpv4) == PrintV4(x.addr) && x.len == nc.networkLength.GetOr(24) && stored == Some(PrintInet(x))
  }

  lemma Ipv4Iff(nc: NetworkConfig, stored: Option<string>)
    ensures GenIpv4(nc.dhcp.GetOr(false), nc.virtualIpv4, nc.networkLength) == Some(stored) <==> Ipv4Means(nc, stored)
  {
    var addr, len := Given(nc.virtualIpv4), nc.networkLength.GetOr(24);
    var read := ParseInet(addr + "/" + DecInt(len));
    if read.Some? {
      SlashIff(addr, len, read.value);
    }
    if x: Inet :| addr == PrintV4(x.addr) && x.len == len && stored == Some(PrintInet(x)) {
      SlashIff(addr, len, x);
    }
  }

  ghost predicate PrefixMeans(lib: Library, nc: NetworkConfig, stored: Option<string>) {
    if Given(nc.ipv6PublicAddrPrefix) == "" then stored.None?
    else stored.Some? && lib.ipv6Cidr(Given(nc.ipv6PublicAddrPrefix)) == stored
  }

  ghost predicate AddressesMean(lib: Library, nc: NetworkConfig, c: Config) {
    && Ipv4Means(nc, c.ipv4)
    && c.ipv6PublicAddrProvider == nc.ipv6PublicAddrProvider
    && c.ipv6PublicAddrAuto == nc.ipv6PublicAddrAuto
    && PrefixMeans(lib, nc, c.ipv6PublicAddrPrefix)
  }

  lemma AddressesIff(lib: Library, nc: NetworkConfig, c: Config)
    ensures YieldsAddresses(lib, nc, c) <==> AddressesMean(lib, nc, c)
  {
    Ipv4Iff(nc, c.ipv4);
  }

  // ---------------------------------------------------------------- identity

  /** No network secret, and a private key instead. */
  predicate CredentialMode(secret: Option<string>, mode: Option<SecureMode>) {
    secret.None? && mode.Some? && Given(mode.value.privateKey) != ""
  }

  /** The keys of an enabled secure mode: those given must be good, and missing ones are made. */
  ghost predicate KeysMean(lib: Library, given: SecureMode, kept: SecureMode) {
    && kept.enabled && kept.privateKey.Some? && kept.publicKey.Some?
    && (if given.privateKey.Some? then kept.privateKey == given.privateKey && lib.privateKeyOk(kept.privateKey.value)
        else kept.privateKey == Some(lib.freshKey))
    && (if given.publicKey.Some? then kept.publicKey == given.publicKey && lib.canonPublicKey(kept.publicKey.value) == kept.publicKey
        else kept.publicKey == Some(lib.derivePublicKey(kept.privateKey.value)))
  }

  /** Credential mode turns secure mode on and makes the public key anew; a mode that is off is kept as it is. */
  ghost predicate SecureModeMeans(lib: Library, secret: Option<string>, mode: Option<SecureMode>, stored: Option<SecureMode>) {
    if mode.None? then stored.None?
    else
      && stored.Some?
      && (if CredentialMode(secret, mode) then KeysMean(lib, SecureMode(true, mode.value.privateKey, None), stored.value)
          else if mode.value.enabled then KeysMean(lib, mode.value, stored.value)
          else stored == mode)
  }

  lemma SecureModeIff(lib: Library, secret: Option<string>, mode: Option<SecureMode>, stored: Option<SecureMode>)
    ensures GenSecureMode(lib, secret, mode) == Some(stored) <==> SecureModeMeans(lib, secret, mode, stored)
  {
  }

  ghost predicate IdentityMeans(lib: Library, nc: NetworkConfig, c: Config) {
    && c.instanceId.Some?
    && (if nc.instanceId.Some? then lib.uuid(nc.instanceId.value) == c.instanceId else lib.uuid(lib.freshUuid) == c.instanceId)
    && c.hostname == nc.hostname
    && c.dhcp == Some(On(nc.dhcp))
    && c.instanceName == Some(Given(nc.networkName))
    && c.identity.Some? && c.identity.value.name == Given(nc.networkName)
    && c.identity.value.secret == (if CredentialMode(nc.networkSecret, nc.secureMode) then None else Some(Given(nc.networkSecret)))
    && SecureModeMeans(lib, nc.networkSecret, nc.secureMode, c.secureMode)
    && c.credentialFile == (if Given(nc.credentialFile) == "" then None else nc.credentialFile)
  }

  lemma IdentityIff(lib: Library, nc: NetworkConfig, c: Config)
    ensures YieldsIdentity(lib, nc, c) <==> IdentityMeans(lib, nc, c)
  {
    SecureModeIff(lib, nc.networkSecret, nc.secureMode, c.secureMode);
    assert nc.dhcp.GetOr(false) == On(nc.dhcp);
    assert NonEmpty(nc.credentialFile) == if Given(nc.credentialFile) == "" then None else nc.credentialFile;
    var id := GenIdentity(nc.networkName, nc.networkSecret, nc.secureMode);
    assert id == Identity(Given(nc.networkName), if CredentialMode(nc.networkSecret, nc.secureMode) then None else Some(Given(nc.networkSecret)));
    assert c.identity.Some? ==> c.identity.value == Identity(c.identity.value.name, c.identity.value.secret);
  }

  // ---------------------------------------------------------------- routes, exit nodes, VPN portal

  /** A list that is stored when there is something to store. */
  ghost predicate ListMeans<T>(parse: string -> Option<T>, texts: seq<string>, stored: Option<seq<T>>) {
    if texts == [] then stored.None? else stored.Some? && Reads(parse, texts, stored.value)
  }

  lemma ListIff<T>(parse: string -> Option<T>, texts: seq<string>, stored: Option<seq<T>>)
    ensures ParseAll(parse, texts, false).Some? && IfAny(ParseAll(parse, texts, false).value) == stored
       <==> ListMeans(parse, texts, stored)
  {
    var read := ParseAll(parse, texts, false);
    if read.Some? {
      ParseAllReads(parse, texts, false, read.value);
    }
    if stored.Some? {
      ParseAllReads(parse, texts, false, stored.value);
    }
  }

  ghost predicate NetworkText(s: string, x: Inet) {
    InetText(s, x) && IsNetwork(x)
  }

  lemma CidrIff(s: string, x: Inet)
    ensures ParseCidr(s) == Some(x) <==> NetworkText(s, x)
  {
    InetIff(s, x);
  }

  ghost predicate AreNetworks(texts: seq<string>, networks: seq<Inet>) {
    |networks| == |texts| && forall i :: 0 <= i < |texts| ==> NetworkText(texts[i], networks[i])
  }

  /** Manual routes are stored, even an empty list of them, when they are enabled. */
  ghost predicate RoutesMean(nc: NetworkConfig, stored: Option<seq<Inet>>) {
    if On(nc.enableManualRoutes) then stored.Some? && AreNetworks(nc.routes, stored.value) else stored.None?
  }

  lemma RoutesIff(nc: NetworkConfig, stored: Option<seq<Inet>>)
    ensures GenRoutes(nc.enableManualRoutes.GetOr(false), nc.routes) == Some(stored) <==> RoutesMean(nc, stored)
  {
    if stored.Some? {
      ParseAllReads(ParseCidr, nc.routes, false, stored.value);
      if |stored.value| == |nc.routes| {
        forall i | 0 <= i < |nc.routes|
          ensures ParseCidr(nc.routes[i]) == Some(stored.value[i]) <==> NetworkText(nc.routes[i], stored.value[i])
        {
          CidrIff(nc.routes[i], stored.value[i]);
        }
      }
    }
  }

  /** The client network, of length 24 unless given, and a listener on every address, on port 0 unless given. */
  ghost predicate VpnMeans(nc: NetworkConfig, stored: Option<VpnPortal>) {
    if !On(nc.enableVpnPortal) then stored.None?
    else
      && stored.Some?
      && IsNetwork(stored.value.clientCidr)
      && Given(nc.vpnPortalClientNetworkAddr) == PrintV4(stored.value.clientCidr.addr)
      && stored.value.clientCidr.len == nc.vpnPortalClientNetworkLen.GetOr(24)
      && stored.value.listen.ip == V4(Ipv4(0, 0, 0, 0))
      && stored.value.listen.port == nc.vpnPortalListenPort.GetOr(0)
  }

  lemma VpnIff(nc: NetworkConfig, stored: Option<VpnPortal>)
    ensures GenVpnOf(nc) == Some(stored) <==> VpnMeans(nc, stored)
  {
    var addr, len := Given(nc.vpnPortalClientNetworkAddr), nc.vpnPortalClientNetworkLen.GetOr(24);
    var read := ParseCidr(addr + "/" + DecInt(len));
    if read.Some? {
      SlashIff(addr, len, read.value);
    }
    if stored.Some? {
      SlashIff(addr, len, stored.value.clientCidr);
    }
  }

  ghost predicate NetworksMean(lib: Library, nc: NetworkConfig, c: Config) {
    && RoutesMean(nc, c.routes)
    && ListMeans(IpParser(lib), nc.exitNodes, c.exitNodes)
    && VpnMeans(nc, c.vpnPortal)
  }

  lemma NetworksIff(lib: Library, nc: NetworkConfig, c: Config)
    ensures YieldsNetworks(lib, nc, c) <==> NetworksMean(lib, nc, c)
  {
    RoutesIff(nc, c.routes);
    ListIff(IpParser(lib), nc.exitNodes, c.exitNodes);
    VpnIff(nc, c.vpnPortal);
  }

  // ---------------------------------------------------------------- URLs

  ghost predicate UrlsMean(lib: Library, nc: NetworkConfig, c: Config) {
    && PeersMean(lib, nc, c.peers)
    && c.listeners.Some? && Reads(lib.url, NonEmptyTexts(nc.listenerUrls), c.listeners.value)
    && ListMeans(lib.url, nc.mappedListeners, c.mappedListeners)
    && MappedOk(lib, c.mappedListeners.GetOr([]))
    && (if On(nc.enableSocks5) && nc.socks5Port.Some?
        then c.socks5Proxy.Some? && lib.url("socks5://0.0.0.0:" + DecInt(nc.socks5Port.value)) == c.socks5Proxy
        else c.socks5Proxy.None?)
  }

  lemma MappedReads(lib: Library, texts: seq<string>, urls: seq<string>)
    ensures Reads(MappedParser(lib), texts, urls) <==> Reads(lib.url, texts, urls) && MappedOk(lib, urls)
  {
    if |texts| == |urls| {
      forall i | 0 <= i < |texts|
        ensures MappedParser(lib)(texts[i]) == Some(urls[i]) <==> lib.url(texts[i]) == Some(urls[i]) && lib.mappedListenerOk(urls[i])
      {
      }
      assert MappedOk(lib, urls) <==> forall i :: 0 <= i < |urls| ==> lib.mappedListenerOk(urls[i]);
    }
  }

  lemma UrlsIff(lib: Library, nc: NetworkConfig, c: Config)
    ensures YieldsUrls(lib, nc, c) <==> UrlsMean(lib, nc, c)
  {
    PeersIff(lib, nc, c.peers);
    if c.listeners.Some? {
      ParseAllReads(lib.url, nc.listenerUrls, true, c.listeners.value);
    }
    ListIff(MappedParser(lib), nc.mappedListeners, c.mappedListeners);
    if c.mappedListeners.Some? {
      MappedReads(lib, nc.mappedListeners, c.mappedListeners.value);
    }
  }

  // ---------------------------------------------------------------- proxy networks

  /** A network, or two networks with an arrow between them. */
  ghost predicate ProxyText(s: string, cidr: Inet, mapped: Option<Inet>) {
    match mapped
    case None => NetworkText(s, cidr)
    case Some(m) => exists a, b :: s == a + "->" + b && NetworkText(a, cidr) && NetworkText(b, m)
  }

  lemma {:induction false} JoinArrow(s: string)
    ensures Join(SplitArrow(s), "->") == s
  {
    if |s| >= 2 {
      if s[0] == '-' && s[1] == '>' {
        JoinArrow(s[2..]);
        assert SplitArrow(s)[1..] == SplitArrow(s[2..]);
        assert "" + "->" + s[2..] == s;
      } else {
        JoinArrow(s[1..]);
        JoinCons(s[0], SplitArrow(s[1..]), "->");
        assert [s[0]] + s[1..] == s;
      }
    }
  }

  lemma NetworkTextFree(s: string, x: Inet)
    requires NetworkText(s, x)
    ensures Free(s, '-')
  {
    V4Free(x.addr, '-');
    if t :| s == PrintV4(x.addr) + "/" + t && Numeral(t, x.len) {
      NumeralFree(t, x.len, '-');
    }
  }

  lemma ProxyIff(s: string, cidr: Inet, mapped: Option<Inet>)
    ensures ParseProxy(s) == Some((cidr, mapped)) <==> ProxyText(s, cidr, mapped)
  {
    var parts := SplitArrow(s);
    JoinArrow(s);
    if ParseProxy(s) == Some((cidr, mapped)) {
      CidrIff(parts[0], cidr);
      if mapped.Some? {
        CidrIff(parts[1], mapped.value);
        assert parts[1..] == [parts[1]];
        assert s == parts[0] + "->" + parts[1];
      }
    }
    if ProxyText(s, cidr, mapped) {
      if mapped.None? {
        NetworkTextFree(s, cidr);
        ArrowFree(s);
        CidrIff(s, cidr);
      } else {
        var a, b :| s == a + "->" + b && NetworkText(a, cidr) && NetworkText(b, mapped.value);
        NetworkTextFree(a, cidr);
        NetworkTextFree(b, mapped.value);
        ArrowSplits(a, b);
        CidrIff(a, cidr);
        CidrIff(b, mapped.value);
      }
    }
  }

  /** A list without the elements that occur in it before. */
  function FirstOnes<T(==)>(xs: seq<T>): seq<T> {
    if xs == [] then []
    else
      var n := |xs| - 1;
      FirstOnes(xs[..n]) + if xs[n] in xs[..n] then [] else [xs[n]]
  }

  lemma {:induction false} FirstOnesSame<T>(xs: seq<T>)
    ensures forall x :: x in FirstOnes(xs) <==> x in xs
  {
    if xs != [] {
      var n := |xs| - 1;
      FirstOnesSame(xs[..n]);
      assert xs == xs[..n] + [xs[n]];
    }
  }

  /** Each text reads as a network and the network it is mapped to, which is of the same length. */
  ghost predicate ProxiesRead(texts: seq<string>, pairs: seq<(Inet, Option<Inet>)>) {
    && |pairs| == |texts|
    && (forall i :: 0 <= i < |texts| ==> ProxyText(texts[i], pairs[i].0, pairs[i].1))
    && forall p :: p in pairs && p.1.Some? ==> p.1.value.len == p.0.len
  }

  function Pairs(ps: seq<ProxyNetwork>): seq<(Inet, Option<Inet>)> {
    seq(|ps|, i requires 0 <= i < |ps| => (ps[i].cidr, ps[i].mapped))
  }

  /** Repeated networks are stored once, where they first occur, and none with a list of what it allows. */
  ghost predicate ProxiesMean(texts: seq<string>, ps: seq<ProxyNetwork>) {
    NoAllowLists(ps) && exists pairs :: ProxiesRead(texts, pairs) && Pairs(ps) == FirstOnes(pairs)
  }

  lemma HasProxyIff(ps: seq<ProxyNetwork>, cidr: Inet, mapped: Option<Inet>)
    ensures HasProxy(ps, cidr, mapped) <==> (cidr, mapped) in Pairs(ps)
  {
    if HasProxy(ps, cidr, mapped) {
      var i :| 0 <= i < |ps| && ps[i].cidr == cidr && ps[i].mapped == mapped;
      assert Pairs(ps)[i] == (cidr, mapped);
    }
  }

  lemma AddProxyMeans(ps: seq<ProxyNetwork>, pairs: seq<(Inet, Option<Inet>)>, p: (Inet, Option<Inet>))
    requires NoAllowLists(ps) && Pairs(ps) == FirstOnes(pairs)
    ensures AddProxy(ps, p.0, p.1).Some? <==> (p.1.Some? ==> p.1.value.len == p.0.len)
    ensures AddProxy(ps, p.0, p.1).Some? ==>
              NoAllowLists(AddProxy(ps, p.0, p.1).value) && Pairs(AddProxy(ps, p.0, p.1).value) == FirstOnes(pairs + [p])
  {
    HasProxyIff(ps, p.0, p.1);
    FirstOnesSame(pairs);
    assert (pairs + [p])[..|pairs|] == pairs;
    assert Pairs(ps + [ProxyNetwork(p.0, p.1, None)]) == Pairs(ps) + [p];
  }

  lemma OneMoreRead(texts: seq<string>, pairs: seq<(Inet, Option<Inet>)>, p: (Inet, Option<Inet>))
    requires texts != [] && ProxiesRead(texts[..|texts| - 1], pairs)
    requires ProxyText(texts[|texts| - 1], p.0, p.1) && (p.1.Some? ==> p.1.value.len == p.0.len)
    ensures ProxiesRead(texts, pairs + [p])
  {
  }

  /** What the built list holds. */
  lemma {:induction false} AddedMeans(texts: seq<string>) returns (pairs: seq<(Inet, Option<Inet>)>)
    requires AddProxies(texts).Some?
    ensures ProxiesRead(texts, pairs)
    ensures NoAllowLists(AddProxies(texts).value) && Pairs(AddProxies(texts).value) == FirstOnes(pairs)
  {
    pairs := [];
    if texts != [] {
      var n := |texts| - 1;
      var before := AddedMeans(texts[..n]);
      var p := ParseProxy(texts[n]).value;
      ProxyIff(texts[n], p.0, p.1);
      AddProxyMeans(AddProxies(texts[..n]).value, before, p);
      OneMoreRead(texts, before, p);
      pairs := before + [p];
    }
  }

  lemma {:induction false} ReadIsAdded(texts: seq<string>, pairs: seq<(Inet, Option<Inet>)>)
    requires ProxiesRead(texts, pairs)
    ensures AddProxies(texts).Some?
    ensures NoAllowLists(AddProxies(texts).value) && Pairs(AddProxies(texts).value) == FirstOnes(pairs)
  {
    if texts != [] {
      var n := |texts| - 1;
      assert pairs == pairs[..n] + [pairs[n]];
      ReadIsAdded(texts[..n], pairs[..n]);
      ProxyIff(texts[n], pairs[n].0, pairs[n].1);
      AddProxyMeans(AddProxies(texts[..n]).value, pairs[..n], pairs[n]);
    }
  }

  lemma PairsDecide(ps: seq<ProxyNetwork>, qs: seq<ProxyNetwork>)
    requires NoAllowLists(ps) && NoAllowLists(qs) && Pairs(ps) == Pairs(qs)
    ensures ps == qs
  {
    forall i | 0 <= i < |ps| ensures |qs| == |ps| && ps[i] == qs[i] {
      assert Pairs(ps)[i] == Pairs(qs)[i];
      assert ps[i] in ps && qs[i] in qs;
    }
    assert |Pairs(ps)| == |Pairs(qs)|;
  }

  lemma ProxiesIff(texts: seq<string>, ps: seq<ProxyNetwork>)
    ensures AddProxies(texts) == Some(ps) <==> ProxiesMean(texts, ps)
  {
    if AddProxies(texts) == Some(ps) {
      var pairs := AddedMeans(texts);
    }
    if ProxiesMean(texts, ps) {
      var pairs :| ProxiesRead(texts, pairs) && Pairs(ps) == FirstOnes(pairs);
      ReadIsAdded(texts, pairs);
      PairsDecide(ps, AddProxies(texts).value);
    }
  }

  // ---------------------------------------------------------------- port forwards

  /** A dotted address with a port, or else what the library reads. */
  ghost predicate SocketMeans(lib: Library, ip: string, port: nat, x: SocketAddr) {
    if (exists v4: Ipv4 :: ip == PrintV4(v4)) && port <= MAX_PORT
    then x.ip.V4? && ip == PrintV4(x.ip.v4) && x.port == port
    else x.ip.V6? && lib.ipv6.parseBracketed(ip + ":" + Dec(port)) == Some((x.ip.text, x.port))
  }

  lemma SocketMeansIff(lib: Library, ip: string, port: nat, x: SocketAddr)
    ensures ParseSocket(lib.ipv6, ip + ":" + Dec(port)) == Some(x) <==> SocketMeans(lib, ip, port, x)
  {
    SocketIff(lib.ipv6, ip, port, x);
    if ParseV4(ip).Some? {
      V4Iff(ip, ParseV4(ip).value);
    }
    if v4: Ipv4 :| ip == PrintV4(v4) {
      V4Iff(ip, v4);
    }
  }

  ghost predicate ForwardMeans(lib: Library, f: FlatForward, p: PortForward) {
    && f.bindIp != "" && f.dstIp != ""
    && SocketMeans(lib, f.bindIp, f.bindPort, p.bind)
    && SocketMeans(lib, f.dstIp, f.dstPort, p.dst)
    && p.proto == f.proto
  }

  lemma ForwardIff(lib: Library, f: FlatForward, p: PortForward)
    ensures ParseForward(lib, f) == Some(p) <==> ForwardMeans(lib, f, p)
  {
    SocketMeansIff(lib, f.bindIp, f.bindPort, p.bind);
    SocketMeansIff(lib, f.dstIp, f.dstPort, p.dst);
  }

  /** The forwards that mean something, in order. */
  ghost function Readable(lib: Library, fs: seq<FlatForward>): seq<FlatForward> {
    if fs == [] then []
    else
      var n := |fs| - 1;
      Readable(lib, fs[..n]) + if exists p :: ForwardMeans(lib, fs[n], p) then [fs[n]] else []
  }

  ghost predicate AreForwards(lib: Library, fs: seq<FlatForward>, ps: seq<PortForward>) {
    |ps| == |fs| && forall i :: 0 <= i < |fs| ==> ForwardMeans(lib, fs[i], ps[i])
  }

  lemma ReadableIff(lib: Library, f: FlatForward)
    ensures ParseForward(lib, f).Some? <==> exists p :: ForwardMeans(lib, f, p)
  {
    if ParseForward(lib, f).Some? {
      ForwardIff(lib, f, ParseForward(lib, f).value);
    }
    if p :| ForwardMeans(lib, f, p) {
      ForwardIff(lib, f, p);
    }
  }

  lemma {:induction false} KeptAreForwards(lib: Library, fs: seq<FlatForward>)
    ensures AreForwards(lib, Readable(lib, fs), KeepForwards(lib, fs))
  {
    if fs != [] {
      var n := |fs| - 1;
      KeptAreForwards(lib, fs[..n]);
      ReadableIff(lib, fs[n]);
      if ParseForward(lib, fs[n]).Some? {
        ForwardIff(lib, fs[n], ParseForward(lib, fs[n]).value);
      }
    }
  }

  lemma ForwardsMeanOne(lib: Library, fs: seq<FlatForward>, ps: seq<PortForward>, qs: seq<PortForward>)
    requires AreForwards(lib, fs, ps) && AreForwards(lib, fs, qs)
    ensures ps == qs
  {
    forall i | 0 <= i < |fs| ensures ps[i] == qs[i] {
      ForwardIff(lib, fs[i], ps[i]);
      ForwardIff(lib, fs[i], qs[i]);
    }
  }

  lemma KeepForwardsIff(lib: Library, fs: seq<FlatForward>, ps: seq<PortForward>)
    ensures KeepForwards(lib, fs) == ps <==> AreForwards(lib, Readable(lib, fs), ps)
  {
    KeptAreForwards(lib, fs);
    if AreForwards(lib, Readable(lib, fs), ps) {
      ForwardsMeanOne(lib, Readable(lib, fs), ps, KeepForwards(lib, fs));
    }
  }

  /** Unreadable forwards are dropped; there is a list, possibly empty, as soon as one was given. */
  ghost predicate ForwardsMean(lib: Library, nc: NetworkConfig, c: Config) {
    && (if c.proxyNetworks.Some? then nc.proxyCidrs != [] && ProxiesMean(nc.proxyCidrs, c.proxyNetworks.value)
        else nc.proxyCidrs == [])
    && (if c.portForwards.Some? then nc.portForwards != [] && AreForwards(lib, Readable(lib, nc.portForwards), c.portForwards.value)
        else nc.portForwards == [])
  }

  lemma {:induction false} SomeProxies(texts: seq<string>)
    requires AddProxies(texts).Some?
    ensures AddProxies(texts).value == [] <==> texts == []
  {
    if texts != [] {
      SomeProxies(texts[..|texts| - 1]);
    }
  }

  lemma ForwardsIff(lib: Library, nc: NetworkConfig, c: Config)
    ensures YieldsForwards(lib, nc, c) <==> ForwardsMean(lib, nc, c)
  {
    if AddProxies(nc.proxyCidrs).Some? {
      SomeProxies(nc.proxyCidrs);
    }
    if c.proxyNetworks.Some? {
      ProxiesIff(nc.proxyCidrs, c.proxyNetworks.value);
    }
    if c.portForwards.Some? {
      KeepForwardsIff(lib, nc.portForwards, c.portForwards.value);
    }
  }

  // ---------------------------------------------------------------- flags

  /** The switches that are off unless they are turned on. */
  predicate OffSwitchesMean(f: FlatSwitches, s: Switches) {
    && s.latencyFirst == On(f.latencyFirst)
    && s.useSmoltcp == On(f.useSmoltcp)
    && s.enableKcpProxy == On(f.enableKcpProxy)
    && s.disableKcpInput == On(f.disableKcpInput)
    && s.enableQuicProxy == On(f.enableQuicProxy)
    && s.disableQuicInput == On(f.disableQuicInput)
    && s.disableP2p == On(f.disableP2p)
    && s.p2pOnly == On(f.p2pOnly)
    && s.lazyP2p == On(f.lazyP2p)
    && s.noTun == On(f.noTun)
    && s.enableExitNode == On(f.enableExitNode)
    && s.relayAllPeerRpc == On(f.relayAllPeerRpc)
    && s.needP2p == On(f.needP2p)
    && s.proxyForwardBySystem == On(f.proxyForwardBySystem)
    && s.disableTcpHolePunching == On(f.disableTcpHolePunching)
    && s.disableUdpHolePunching == On(f.disableUdpHolePunching)
    && s.disableUpnp == On(f.disableUpnp)
    && s.disableRelayData == On(f.disableRelayData)
    && s.enableUdpBroadcastRelay == On(f.enableUdpBroadcastRelay)
    && s.disableSymHolePunching == On(f.disableSymHolePunching)
    && s.acceptDns == On(f.enableMagicDns)
    && s.privateMode == On(f.enablePrivateMode)
  }

  /** The switches that are on unless they are turned off, and the values with their defaults. */
  predicate OtherSwitchesMean(f: FlatSwitches, s: Switches) {
    && s.enableIpv6 == !On(f.disableIpv6)
    && s.enableEncryption == !On(f.disableEncryption)
    && s.bindDevice == (f.bindDevice != Some(false))
    && s.multiThread == (f.multiThread != Some(false))
    && s.devName == Given(f.devName)
    && s.socketMark == f.socketMark
    && (if f.mtu.Some? then (s.mtu - f.mtu.value) % 0x1_0000_0000 == 0 else s.mtu == 1380)
    && s.instanceRecvBpsLimit == f.instanceRecvBpsLimit.GetOr(0xFFFF_FFFF_FFFF_FFFF)
  }

  predicate FlagsMean(lib: Library, f: FlatFlags, flags: Flags) {
    && OffSwitchesMean(f.switches, flags.switches)
    && OtherSwitchesMean(f.switches, flags.switches)
    && flags.relayNetworkWhitelist == (if On(f.enableRelayNetworkWhitelist) then Join(f.relayNetworkWhitelist, " ") else "*")
    && flags.rest.encryptionAlgorithm == f.encryptionAlgorithm.GetOr(lib.defaultEncryption)
    && flags.rest.dataCompressAlgo == (if f.dataCompressAlgo.GetOr(1) < 1 then 1 else f.dataCompressAlgo.GetOr(1))
    && flags.rest == HiddenFlags("tcp", flags.rest.dataCompressAlgo, false, false, false, false, 0xFFFF_FFFF_FFFF_FFFF, 2,
                                 flags.rest.encryptionAlgorithm, lib.defaultDnsZone, 0xFFFF_FFFF)
  }

  lemma SwitchesMeanOne(f: FlatSwitches, s: Switches, t: Switches)
    requires OffSwitchesMean(f, s) && OtherSwitchesMean(f, s) && OffSwitchesMean(f, t) && OtherSwitchesMean(f, t)
    ensures s == t
  {
  }

  lemma MadeOffSwitches(lib: Library, f: FlatSwitches, d: Switches)
    requires d == DefaultFlags(lib).switches
    ensures OffSwitchesMean(f, GenSwitches(d, f))
  {
    assert forall b: Option<bool> :: On(b) == b.GetOr(false);
  }

  lemma MadeOtherSwitches(lib: Library, f: FlatSwitches, d: Switches)
    requires d == DefaultFlags(lib).switches
    ensures OtherSwitchesMean(f, GenSwitches(d, f))
  {
  }

  lemma MadeFlagsMean(lib: Library, f: FlatFlags, made: Flags)
    requires made == GenFlags(lib, f)
    ensures FlagsMean(lib, f, made)
  {
    var d := DefaultFlags(lib).switches;
    assert made.switches == GenSwitches(d, f.switches);
    MadeOffSwitches(lib, f.switches, d);
    MadeOtherSwitches(lib, f.switches, d);
  }

  lemma FlagsIff(lib: Library, f: FlatFlags, flags: Flags)
    ensures GenFlags(lib, f) == flags <==> FlagsMean(lib, f, flags)
  {
    MadeFlagsMean(lib, f, GenFlags(lib, f));
    if FlagsMean(lib, f, flags) {
      FlagsMeanOne(lib, f, flags, GenFlags(lib, f));
    }
  }

  lemma FlagsMeanOne(lib: Library, f: FlatFlags, a: Flags, b: Flags)
    requires FlagsMean(lib, f, a) && FlagsMean(lib, f, b)
    ensures a == b
  {
    SwitchesMeanOne(f.switches, a.switches, b.switches);
  }

  /** A rule set without rules and without groups is not stored. */
  predicate HasRules(acl: Acl) {
    && acl.v1.Some?
    && (|| acl.v1.value.chains != []
        || (acl.v1.value.group.Some? && (acl.v1.value.group.value.declares != [] || acl.v1.value.group.value.members != [])))
  }

  ghost predicate RestMeans(lib: Library, nc: NetworkConfig, c: Config) {
    && c.flags.Some? && FlagsMean(lib, nc.flags, c.flags.value)
    && c.acl == (if nc.acl.Some? && HasRules(nc.acl.value) then nc.acl else None)
    && Unexported(c)
  }

  lemma RestIff(lib: Library, nc: NetworkConfig, c: Config)
    ensures YieldsRest(lib, nc, c) <==> RestMeans(lib, nc, c)
  {
    if c.flags.Some? {
      FlagsIff(lib, nc.flags, c.flags.value);
    }
  }

  // ---------------------------------------------------------------- the whole import

  /** A stored config says what a flat one does. */
  ghost predicate Means(lib: Library, nc: NetworkConfig, c: Config) {
    && IdentityMeans(lib, nc, c)
    && AddressesMean(lib, nc, c)
    && NetworksMean(lib, nc, c)
    && UrlsMean(lib, nc, c)
    && ForwardsMean(lib, nc, c)
    && RestMeans(lib, nc, c)
  }

  /** For every flat config: it is imported as the config that says what it does, and only as that one. */
  lemma ImportIff(lib: Library, nc: NetworkConfig, c: Config)
    ensures Gen(lib, nc) == Ok(c) <==> Means(lib, nc, c)
  {
    GenIff(lib, nc, c);
    IdentityIff(lib, nc, c);
    AddressesIff(lib, nc, c);
    NetworksIff(lib, nc, c);
    UrlsIff(lib, nc, c);
    ForwardsIff(lib, nc, c);
    RestIff(lib, nc, c);
  }

  /** The peers of an import, by networking method. An unreadable public server is never accepted. */
  lemma ImportedPeers(lib: Library, nc: NetworkConfig, c: Config)
    requires Gen(lib, nc) == Ok(c)
    ensures nc.networkingMethod == Some(2) ==> c.peers.None?
    ensures nc.networkingMethod == Some(1) ==>
              var urls := NonEmptyTexts(nc.peerUrls);
              if urls == [] then c.peers.None?
              else c.peers.Some? && |c.peers.value| == |urls|
                   && forall i :: 0 <= i < |urls| ==> Some(c.peers.value[i].uri) == lib.url(urls[i]) && c.peers.value[i].publicKey.None?
    ensures nc.networkingMethod != Some(1) && nc.networkingMethod != Some(2) ==>
              lib.url(Given(nc.publicServerUrl)).Some? && c.peers == Some([Peer(lib.url(Given(nc.publicServerUrl)).value, None)])
  {
    ImportIff(lib, nc, c);
    if nc.networkingMethod != Some(1) && nc.networkingMethod != Some(2) {
      assert c.peers.value == [c.peers.value[0]];
    }
  }

  /** A flat config without the parts that are read after the proxy, and without the proxy. */
  function BeforeProxy(nc: NetworkConfig): NetworkConfig {
    nc.(enableSocks5 := None, mappedListeners := [], secureMode := None, ipv6PublicAddrPrefix := None)
  }

  /** An import panics exactly when the proxy is enabled with a number that is no port and all that comes before it is in order. */
  lemma PanicsBeforeIff(lib: Library, nc: NetworkConfig)
    requires Lawful(lib)
    ensures Gen(lib, nc).Panicked?
       <==> On(nc.enableSocks5) && nc.socks5Port.Some? && !(0 <= nc.socks5Port.value <= 65535) && Gen(lib, BeforeProxy(nc)).Ok?
  {
    PanicsIff(lib, nc);
    assert EarlyPartsRead(lib, BeforeProxy(nc)) <==> EarlyPartsRead(lib, nc);
    assert LatePartsRead(lib, BeforeProxy(nc));
  }
}
