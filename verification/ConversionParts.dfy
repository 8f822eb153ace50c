/**
 What becomes of each part of a stored config that is exported and read back.
 */
module ConversionParts {
  import opened Wrappers
  import opened Text
  import opened Addresses
  import opened NetworkConfigs
  import opened ConfigConversion

  // ---------------------------------------------------------------- lists

  ghost predicate Parsed<T>(parse: string -> Option<T>, x: T) {
    exists s :: parse(s) == Some(x)
  }

  /** Everything in the result of a parse came from a text. */
  lemma {:induction false} ParseAllParsed<T>(parse: string -> Option<T>, texts: seq<string>, skip: bool)
    requires ParseAll(parse, texts, skip).Some?
    ensures forall x :: x in ParseAll(parse, texts, skip).value ==> Parsed(parse, x)
  {
    if texts != [] {
      ParseAllParsed(parse, texts[..|texts| - 1], skip);
    }
  }

  ghost predicate AllCanonical(parse: string -> Option<string>, texts: seq<string>) {
    forall s :: s in texts ==> parse(s) == Some(s)
  }

  lemma ParseCanonical(parse: string -> Option<string>, texts: seq<string>)
    requires Canonicalises(parse) && AllCanonical(parse, texts)
    ensures ParseAll(parse, texts, true) == Some(texts)
  {
    forall i | 0 <= i < |texts| ensures parse(texts[i]) == Some(texts[i]) && texts[i] != "" {
      assert texts[i] in texts;
    }
    ParseAllIs(parse, texts, texts, true);
  }

  lemma ParsedIsCanonical(parse: string -> Option<string>, texts: seq<string>, skip: bool)
    requires Canonicalises(parse) && ParseAll(parse, texts, skip).Some?
    ensures AllCanonical(parse, ParseAll(parse, texts, skip).value)
  {
    ParseAllParsed(parse, texts, skip);
  }

  // ---------------------------------------------------------------- peers, listeners

  lemma PeersReadBack(lib: Library, peers: seq<Peer>)
    requires Lawful(lib) && AllCanonical(lib.url, Uris(peers))
    ensures GenPeers(lib, MANUAL, None, Uris(peers)) == Some(IfAny(Anonymous(Uris(peers))))
  {
    ParseCanonical(lib.url, Uris(peers));
  }

  ghost predicate MappedOk(lib: Library, urls: seq<string>) {
    forall u :: u in urls ==> lib.mappedListenerOk(u)
  }

  lemma MappedOne(lib: Library, u: string)
    requires lib.url(u) == Some(u)
    ensures MappedParser(lib)(u) == if lib.mappedListenerOk(u) then Some(u) else None
  {
  }

  lemma {:induction false} MappedReadBackIff(lib: Library, urls: seq<string>)
    requires AllCanonical(lib.url, urls)
    ensures ParseAll(MappedParser(lib), urls, false) == if MappedOk(lib, urls) then Some(urls) else None
  {
    if urls != [] {
      var n := |urls| - 1;
      var last := urls[n];
      assert last in urls;
      MappedReadBackIff(lib, urls[..n]);
      MappedOne(lib, last);
      assert urls == urls[..n] + [last];
      assert MappedOk(lib, urls) <==> MappedOk(lib, urls[..n]) && lib.mappedListenerOk(last);
    }
  }

  lemma MappedParsed(lib: Library, texts: seq<string>)
    requires Lawful(lib) && ParseAll(MappedParser(lib), texts, false).Some?
    ensures AllCanonical(lib.url, ParseAll(MappedParser(lib), texts, false).value)
    ensures MappedOk(lib, ParseAll(MappedParser(lib), texts, false).value)
  {
    ParseAllParsed(MappedParser(lib), texts, false);
  }

  // ---------------------------------------------------------------- routes, exit nodes

  predicate AllNetworks(rs: seq<Inet>) {
    forall r :: r in rs ==> IsNetwork(r)
  }

  lemma RoutesReadBack(rs: seq<Inet>)
    requires AllNetworks(rs)
    ensures ParseAll(ParseCidr, PrintRoutes(rs), false) == Some(rs)
  {
    forall i | 0 <= i < |rs| ensures ParseCidr(PrintRoutes(rs)[i]) == Some(rs[i]) {
      assert rs[i] in rs;
      InetRoundTrip(rs[i]);
    }
    ParseAllIs(ParseCidr, PrintRoutes(rs), rs, false);
  }

  ghost predicate AllIps(lib: Library, ips: seq<IpAddr>) {
    forall ip :: ip in ips ==> ValidIp(lib.ipv6, ip)
  }

  lemma ExitNodesReadBack(lib: Library, ips: seq<IpAddr>)
    requires Lawful(lib) && AllIps(lib, ips)
    ensures ParseAll(IpParser(lib), PrintIps(ips), false) == Some(ips)
  {
    forall i | 0 <= i < |ips| ensures IpParser(lib)(PrintIps(ips)[i]) == Some(ips[i]) {
      assert ips[i] in ips;
      IpRoundTrip(lib.ipv6, ips[i]);
    }
    ParseAllIs(IpParser(lib), PrintIps(ips), ips, false);
  }

  // ---------------------------------------------------------------- proxy networks

  predicate AllProxyNetworks(ps: seq<ProxyNetwork>) {
    forall p :: p in ps ==> IsNetwork(p.cidr) && (p.mapped.Some? ==> IsNetwork(p.mapped.value))
  }

  lemma {:induction false} ArrowFree(s: string)
    requires Free(s, '-')
    ensures SplitArrow(s) == [s]
  {
    if |s| >= 2 {
      ArrowFree(s[1..]);
      assert [s[0]] + s[1..] == s;
    }
  }

  lemma {:induction false} ArrowSplits(a: string, b: string)
    requires Free(a, '-') && Free(b, '-')
    ensures SplitArrow(a + "->" + b) == [a, b]
  {
    var s := a + "->" + b;
    if a == "" {
      assert s[2..] == b;
      ArrowFree(b);
    } else {
      assert s[1..] == a[1..] + "->" + b;
      ArrowSplits(a[1..], b);
      assert [s[0]] + a[1..] == a;
    }
  }

  /** The printed form of a proxy network is read back as it was. */
  lemma ProxyRoundTrip(p: ProxyNetwork)
    requires IsNetwork(p.cidr) && (p.mapped.Some? ==> IsNetwork(p.mapped.value))
    ensures ParseProxy(PrintProxy(p)) == Some((p.cidr, p.mapped))
  {
    InetFree(p.cidr, '-');
    InetRoundTrip(p.cidr);
    match p.mapped
    case None => ArrowFree(PrintInet(p.cidr));
    case Some(mapped) =>
      InetFree(mapped, '-');
      InetRoundTrip(mapped);
      ArrowSplits(PrintInet(p.cidr), PrintInet(mapped));
  }

  /** A mapped network has the length of the network it maps. */
  predicate LengthsMatch(ps: seq<ProxyNetwork>) {
    forall p :: p in ps && p.mapped.Some? ==> p.mapped.value.len == p.cidr.len
  }

  predicate NoRepeats(ps: seq<ProxyNetwork>) {
    forall i, j :: 0 <= i < j < |ps| ==> (ps[i].cidr, ps[i].mapped) != (ps[j].cidr, ps[j].mapped)
  }

  predicate NoAllowLists(ps: seq<ProxyNetwork>) {
    forall p :: p in ps ==> p.allow.None?
  }

  /** The proxy lists that `add_proxy_cidr` can build. */
  predicate Buildable(ps: seq<ProxyNetwork>) {
    LengthsMatch(ps) && NoRepeats(ps) && NoAllowLists(ps)
  }

  lemma {:induction false} AddedProxies(texts: seq<string>)
    requires AddProxies(texts).Some?
    ensures Buildable(AddProxies(texts).value) && AllProxyNetworks(AddProxies(texts).value)
  {
    if texts != [] {
      AddedProxies(texts[..|texts| - 1]);
    }
  }

  lemma BuildablePrefix(ps: seq<ProxyNetwork>, n: nat)
    requires n < |ps| && AllProxyNetworks(ps) && Buildable(ps)
    ensures AllProxyNetworks(ps[..n]) && Buildable(ps[..n])
    ensures AddProxy(ps[..n], ps[n].cidr, ps[n].mapped) == Some(ps[..n + 1])
  {
    var before := ps[..n];
    assert forall p :: p in before ==> p in ps;
    assert ps[n] in ps;
    assert !HasProxy(before, ps[n].cidr, ps[n].mapped);
    assert ps[..n + 1] == before + [ps[n]];
  }

  lemma {:induction false} ProxiesReadBackIf(ps: seq<ProxyNetwork>)
    requires AllProxyNetworks(ps) && Buildable(ps)
    ensures AddProxies(PrintProxies(ps)) == Some(ps)
  {
    if ps != [] {
      var n := |ps| - 1;
      BuildablePrefix(ps, n);
      ProxiesReadBackIf(ps[..n]);
      assert ps[n] in ps;
      ProxyRoundTrip(ps[n]);
      assert PrintProxies(ps)[..n] == PrintProxies(ps[..n]);
      assert ps[..n + 1] == ps;
    }
  }

  lemma ProxiesReadBackIff(ps: seq<ProxyNetwork>)
    requires AllProxyNetworks(ps)
    ensures AddProxies(PrintProxies(ps)) == Some(ps) <==> Buildable(ps)
  {
    if AddProxies(PrintProxies(ps)) == Some(ps) {
      AddedProxies(PrintProxies(ps));
    } else if Buildable(ps) {
      ProxiesReadBackIf(ps);
    }
  }

  // ---------------------------------------------------------------- port forwards

  ghost predicate AllForwards(lib: Library, fs: seq<PortForward>) {
    forall f :: f in fs ==> ValidIp(lib.ipv6, f.bind.ip) && ValidIp(lib.ipv6, f.dst.ip)
  }

  predicate IsV4(f: PortForward) {
    f.bind.ip.V4? && f.dst.ip.V4?
  }

  predicate AllV4(fs: seq<PortForward>) {
    forall f :: f in fs ==> IsV4(f)
  }

  function OnlyV4(fs: seq<PortForward>): (r: seq<PortForward>)
    ensures |r| <= |fs|
    ensures AllV4(r)
  {
    if fs == [] then [] else OnlyV4(fs[..|fs| - 1]) + if IsV4(fs[|fs| - 1]) then [fs[|fs| - 1]] else []
  }

  lemma {:induction false} OnlyV4Iff(fs: seq<PortForward>)
    ensures |OnlyV4(fs)| == |fs| <==> AllV4(fs)
    ensures AllV4(fs) ==> OnlyV4(fs) == fs
  {
    if fs != [] {
      var n := |fs| - 1;
      OnlyV4Iff(fs[..n]);
      assert fs == fs[..n] + [fs[n]];
      assert AllV4(fs) <==> AllV4(fs[..n]) && IsV4(fs[n]);
    }
  }

  lemma ForwardReadsBack(lib: Library, f: PortForward)
    requires Lawful(lib) && ValidIp(lib.ipv6, f.bind.ip) && ValidIp(lib.ipv6, f.dst.ip)
    ensures ParseForward(lib, FlattenForward(f)) == if IsV4(f) then Some(f) else None
  {
    SocketRoundTripIff(lib.ipv6, f.bind);
    SocketRoundTripIff(lib.ipv6, f.dst);
    IpNonEmpty(lib, f.bind.ip);
    IpNonEmpty(lib, f.dst.ip);
  }

  lemma IpNonEmpty(lib: Library, ip: IpAddr)
    requires Lawful(lib) && ValidIp(lib.ipv6, ip)
    ensures PrintIp(ip) != ""
  {
    if ip.V4? { V4NonEmpty(ip.v4); }
  }

  /** A forward survives exactly when both its addresses are IPv4. */
  lemma {:induction false} ForwardsReadBack(lib: Library, fs: seq<PortForward>)
    requires Lawful(lib) && AllForwards(lib, fs)
    ensures KeepForwards(lib, FlattenForwards(fs)) == OnlyV4(fs)
  {
    if fs != [] {
      var n := |fs| - 1;
      assert fs[n] in fs;
      assert FlattenForwards(fs)[..n] == FlattenForwards(fs[..n]);
      ForwardsReadBack(lib, fs[..n]);
      ForwardReadsBack(lib, fs[n]);
    }
  }

  lemma {:induction false} KeptForwards(lib: Library, fs: seq<FlatForward>)
    requires Lawful(lib)
    ensures AllForwards(lib, KeepForwards(lib, fs))
  {
    if fs != [] {
      var n := |fs| - 1;
      KeptForwards(lib, fs[..n]);
      ParsedForward(lib, fs[n]);
    }
  }

  lemma ParsedSocket(lib: Ipv6Lib, s: string)
    requires Ipv6LibOk(lib)
    ensures ParseSocket(lib, s).Some? ==> ValidIp(lib, ParseSocket(lib, s).value.ip)
  {
  }

  lemma ParsedForward(lib: Library, f: FlatForward)
    requires Lawful(lib)
    ensures ParseForward(lib, f).Some? ==> AllForwards(lib, [ParseForward(lib, f).value])
  {
    ParsedSocket(lib.ipv6, f.bindIp + ":" + Dec(f.bindPort));
    ParsedSocket(lib.ipv6, f.dstIp + ":" + Dec(f.dstPort));
  }

  // ---------------------------------------------------------------- addresses

  /** A text that prints the address it parses to. */
  predicate CanonicalInet(s: string) {
    ParseInet(s).Some? && PrintInet(ParseInet(s).value) == s
  }

  function ExportAddr(ipv4: Option<Inet>): Option<string> {
    if ipv4.Some? then Some(PrintV4(ipv4.value.addr)) else None
  }

  function ExportLen(ipv4: Option<Inet>): Option<I32> {
    if ipv4.Some? then Some(ipv4.value.len) else None
  }

  lemma Ipv4ReadsBack(dhcp: bool, stored: Option<string>)
    ensures GenIpv4(dhcp, ExportAddr(ReadIpv4(stored)), ExportLen(ReadIpv4(stored)))
         == Some(if dhcp || ReadIpv4(stored).None? then None else Some(PrintInet(ReadIpv4(stored).value)))
  {
    var x := ReadIpv4(stored);
    if x.Some? {
      V4NonEmpty(x.value.addr);
      SlashRoundTrip(x.value);
    }
  }

  /** A stored address survives when it is canonical, not a host address, and not overruled by DHCP. */
  lemma Ipv4ReadsBackIff(dhcp: bool, stored: Option<string>)
    ensures GenIpv4(dhcp, ExportAddr(ReadIpv4(stored)), ExportLen(ReadIpv4(stored))) == Some(stored)
       <==> (stored.Some? ==> !dhcp && CanonicalInet(stored.value) && ParseInet(stored.value).value.len != 32)
  {
    Ipv4ReadsBack(dhcp, stored);
    var x := ReadIpv4(stored);
    if x.Some? {
      InetRoundTrip(x.value);
    }
  }

  /** What is stored for an address reads back as that address, a host address as a /24. */
  lemma StoredIpv4(x: Inet)
    ensures ReadIpv4(Some(PrintInet(x))) == Some(if x.len == 32 then Inet(x.addr, 24) else x)
  {
    InetRoundTrip(x);
  }

  lemma VpnReadsBack(v: VpnPortal)
    requires IsNetwork(v.clientCidr)
    ensures GenVpn(true, Some(PrintV4(v.clientCidr.addr)), Some(v.clientCidr.len), Some(v.listen.port))
         == Some(Some(VpnPortal(v.clientCidr, SocketAddr(V4(ANY_V4), v.listen.port))))
  {
    SlashRoundTrip(v.clientCidr);
  }

  // ---------------------------------------------------------------- the host name

  predicate Clean(s: string) {
    forall i :: 0 <= i < |s| ==> !IsControl(s[i])
  }

  lemma {:induction false} DropControlsIff(s: string)
    ensures Clean(DropControls(s)) && |DropControls(s)| <= |s|
    ensures DropControls(s) == s <==> Clean(s)
  {
    if s != "" {
      DropControlsIff(s[1..]);
      assert Clean(s) <==> !IsControl(s[0]) && Clean(s[1..]);
      if IsControl(s[0]) {
        assert "" + DropControls(s[1..]) == DropControls(s[1..]);
      } else {
        assert s == [s[0]] + s[1..];
      }
    }
  }

  /** The names that are stored as they are reported. */
  predicate PlainHostname(s: string) {
    s != "" && |s| <= 32 && Clean(s)
  }

  lemma CleanHostnameIff(s: string)
    ensures CleanHostname(Some(s)) == Some(s) <==> PlainHostname(s)
    ensures CleanHostname(Some(s)).Some? ==> PlainHostname(CleanHostname(Some(s)).value)
  {
    DropControlsIff(s);
  }

  /** Exporting a name, storing it and exporting it again gives the same name. */
  lemma HostnameSettles(lib: Library, stored: Option<string>)
    ensures ExportHostname(lib, ExportHostname(lib, stored)) == ExportHostname(lib, stored)
    ensures ExportHostname(lib, CleanHostname(stored)) == ExportHostname(lib, stored)
  {
    if stored.Some? {
      CleanHostnameIff(stored.value);
      if CleanHostname(stored).Some? {
        CleanHostnameIff(CleanHostname(stored).value);
      }
    }
  }

  // ---------------------------------------------------------------- the relay whitelist

  /** Words with one space between them and none around them. */
  predicate Tidy(s: string) {
    && (s != "" ==> !IsSpace(s[0]) && !IsSpace(s[|s| - 1]))
    && (forall i :: 0 <= i < |s| && IsSpace(s[i]) ==> s[i] == ' ')
    && (forall i :: 0 <= i < |s| - 1 ==> !(IsSpace(s[i]) && IsSpace(s[i + 1])))
  }

  lemma {:induction false} JoinIsTidy(parts: seq<string>)
    requires Words(parts)
    ensures Tidy(Join(parts, " "))
    ensures parts != [] ==> Join(parts, " ") != ""
  {
    if |parts| > 1 {
      JoinIsTidy(parts[1..]);
      var rest := Join(parts[1..], " ");
      var s := Join(parts, " ");
      assert s == parts[0] + " " + rest;
      forall i | 0 <= i < |s| - 1 ensures !(IsSpace(s[i]) && IsSpace(s[i + 1])) {
        if i > |parts[0]| {
          var k := i - |parts[0]| - 1;
          assert s[i] == rest[k] && s[i + 1] == rest[k + 1];
        }
      }
      assert s[|s| - 1] == rest[|rest| - 1];
    } else if |parts| == 1 {
      assert Join(parts, " ") == parts[0];
    }
  }

  /** The first word of a tidy text and what follows it. */
  lemma {:induction false} TidyJoins(s: string)
    requires Tidy(s)
    ensures Join(SplitSpaces(s), " ") == s
  {
    SplitSpacesWords(s);
    if |s| >= 2 {
      if IsSpace(s[1]) {
        assert Tidy(s[2..]) by {
          assert forall i :: 0 <= i < |s[2..]| ==> s[2..][i] == s[i + 2];
        }
        TidyJoins(s[2..]);
        assert s[1..][1..] == s[2..];
        assert SplitSpaces(s[1..]) == SplitSpaces(s[2..]);
        SplitSpacesWords(s[2..]);
        assert s == [s[0]] + " " + s[2..];
        assert SplitSpaces(s)[1..] == SplitSpaces(s[2..]);
      } else {
        assert Tidy(s[1..]) by {
          assert forall i :: 0 <= i < |s[1..]| ==> s[1..][i] == s[i + 1];
        }
        TidyJoins(s[1..]);
        var rest := SplitSpaces(s[1..]);
        SplitSpacesWords(s[1..]);
        JoinCons(s[0], rest, " ");
        assert s == [s[0]] + s[1..];
      }
    }
  }

  lemma JoinCons(c: char, parts: seq<string>, sep: string)
    requires parts != []
    ensures Join([[c] + parts[0]] + parts[1..], sep) == [c] + Join(parts, sep)
  {
    var longer := [[c] + parts[0]] + parts[1..];
    assert longer[1..] == parts[1..];
    if |parts| > 1 {
      assert [c] + parts[0] + sep + Join(parts[1..], sep) == [c] + (parts[0] + sep + Join(parts[1..], sep));
    }
  }

  /** Splitting at white space and joining with single spaces fixes exactly the tidy texts. */
  lemma TidyIff(s: string)
    ensures Join(SplitSpaces(s), " ") == s <==> Tidy(s)
  {
    SplitSpacesWords(s);
    if Tidy(s) {
      TidyJoins(s);
    } else {
      JoinIsTidy(SplitSpaces(s));
    }
  }

  // ---------------------------------------------------------------- flags

  function Whitelist(s: string): string {
    if s == "*" then "*" else Join(SplitSpaces(s), " ")
  }

  /** The switches are read back as they were: no switch defaults to a value it cannot be set from. */
  lemma SwitchesReadBack(lib: Library, f: Switches)
    ensures GenSwitches(DefaultFlags(lib).switches, ExportSwitches(f)) == f
  {
    assert AsU32(AsI32(f.mtu)) == f.mtu;
  }

  lemma FlagsReadBack(lib: Library, f: Flags)
    ensures GenFlags(lib, ExportFlags(f)) == Flags(f.switches, Whitelist(f.relayNetworkWhitelist), HiddenDefaults(lib))
  {
    SwitchesReadBack(lib, f.switches);
  }

  lemma FlagsReadBackIff(lib: Library, f: Flags)
    ensures GenFlags(lib, ExportFlags(f)) == f <==> f.rest == HiddenDefaults(lib) && Tidy(f.relayNetworkWhitelist)
  {
    FlagsReadBack(lib, f);
    TidyIff(f.relayNetworkWhitelist);
  }

  /** A padded "*" turns into the plain one, which is reported differently. */
  predicate PaddedStar(s: string) {
    s != "*" && SplitSpaces(s) == ["*"]
  }

  lemma WhitelistSettlesIff(s: string)
    ensures Whitelist(s) == "*" <==> s == "*" || PaddedStar(s)
    ensures SplitSpaces(Whitelist(s)) == SplitSpaces(s)
  {
    SplitSpacesWords(s);
    SplitSpacesJoin(SplitSpaces(s));
    SplitSpacesWord("*", "");
    assert "*" + "" == "*";
    assert Join(["*"], " ") == "*";
  }

  /** Both conversions bring a whitelist into its tidy form, which a second trip leaves alone. */
  lemma WhitelistNormalises(lib: Library, f: Flags)
    ensures var g := GenFlags(lib, ExportFlags(f));
            && Tidy(g.relayNetworkWhitelist)
            && SplitSpaces(g.relayNetworkWhitelist) == SplitSpaces(f.relayNetworkWhitelist)
            && GenFlags(lib, ExportFlags(g)).relayNetworkWhitelist == g.relayNetworkWhitelist
  {
    var w := f.relayNetworkWhitelist;
    FlagsReadBack(lib, f);
    FlagsReadBack(lib, GenFlags(lib, ExportFlags(f)));
    WhitelistSettlesIff(w);
    SplitSpacesWords(w);
    JoinIsTidy(SplitSpaces(w));
    TidyIff(Whitelist(w));
  }

  lemma FlagsSettleIff(lib: Library, f: Flags)
    ensures ExportFlags(GenFlags(lib, ExportFlags(f))) == ExportFlags(f) <==> !PaddedStar(f.relayNetworkWhitelist)
  {
    FlagsReadBack(lib, f);
    WhitelistSettlesIff(f.relayNetworkWhitelist);
  }
}
