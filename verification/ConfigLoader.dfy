/**
 The conversions as the program runs them: `gen_config` fills a loader step by step and stops at the first part
 it cannot read, and `new_from_config` reads one, completing its instance id and cleaning its host name on the way.
 */
module ConfigLoader {
  import opened Wrappers
  import opened Text
  import opened Addresses
  import opened NetworkConfigs
  import opened ConfigConversion
  import opened ConversionParts

  /** `TomlConfigLoader`: a stored config behind a lock. */
  class Loader {
    var config: Config

    constructor (config: Config)
      ensures this.config == config
    {
      this.config := config;
    }

    /** Reading the instance id of a config that has none stores a fresh one. */
    method GetId(lib: Library) returns (id: string)
      modifies this
      ensures config == old(config).(instanceId := Some(id))
      ensures id == old(config).instanceId.GetOr(lib.freshUuid)
    {
      match config.instanceId {
        case Some(stored) => return stored;
        case None =>
          config := config.(instanceId := Some(lib.freshUuid));
          return lib.freshUuid;
      }
    }

    /** Reading the host name writes the cleaned name back. */
    method GetHostname(lib: Library) returns (name: string)
      modifies this
      ensures config == old(config).(hostname := CleanHostname(old(config).hostname))
      ensures name == CleanHostname(old(config).hostname).GetOr(lib.systemHostname)
    {
      match config.hostname {
        case None => return lib.systemHostname;
        case Some(stored) =>
          var kept, i := "", 0;
          while i < |stored|
            invariant 0 <= i <= |stored|
            invariant DropControls(stored) == kept + DropControls(stored[i..])
          {
            if !IsControl(stored[i]) {
              kept := kept + [stored[i]];
            }
            i := i + 1;
          }
          assert DropControls(stored) == kept;
          kept := if |kept| <= 32 then kept else kept[..32];
          if kept != "" {
            config := config.(hostname := Some(kept));
            return kept;
          }
          config := config.(hostname := None);
          return lib.systemHostname;
      }
    }
  }

  /** A stored config after it has been read: it has an instance id, and its host name is clean. */
  function Touched(lib: Library, c: Config): Config {
    c.(instanceId := Some(c.instanceId.GetOr(lib.freshUuid)), hostname := CleanHostname(c.hostname))
  }

  /** What reading a config changes in it does not change what is exported, then or later. */
  lemma ReadingIsInvisible(lib: Library, c: Config)
    ensures Export(lib, Touched(lib, c)) == Export(lib, c)
    ensures Touched(lib, Touched(lib, c)) == Touched(lib, c)
  {
    HostnameSettles(lib, c.hostname);
    if c.hostname.Some? {
      CleanHostnameIff(c.hostname.value);
      if CleanHostname(c.hostname).Some? {
        CleanHostnameIff(CleanHostname(c.hostname).value);
      }
    }
  }

  method NewFromConfig(lib: Library, loader: Loader) returns (nc: NetworkConfig)
    modifies loader
    ensures nc == Export(lib, old(loader.config))
    ensures loader.config == Touched(lib, old(loader.config))
    ensures Export(lib, loader.config) == nc
  {
    ghost var before := loader.config;
    ReadingIsInvisible(lib, before);
    var id := loader.GetId(lib);
    var hostname: Option<string> := None;
    var name := loader.GetHostname(lib);
    if name != lib.systemHostname {
      hostname := Some(name);
    }
    nc := Export(lib, loader.config).(instanceId := Some(id), hostname := hostname);
  }

  /** The parts up to the exit nodes, read in the order of the source. */
  method GenEarly(lib: Library, nc: NetworkConfig) returns (r: Option<Config>)
    ensures r == if EarlyPartsRead(lib, nc) then Some(EarlyConfig(lib, nc)) else None
  {
    var cfg := DefaultConfig(lib);
    var id := lib.uuid(nc.instanceId.GetOr(lib.freshUuid));
    if id.None? { return None; }
    var dhcp := nc.dhcp.GetOr(false);
    cfg := cfg.(instanceId := id, hostname := nc.hostname, dhcp := Some(dhcp), instanceName := Some(nc.networkName.GetOr("")),
                identity := Some(GenIdentity(nc.networkName, nc.networkSecret, nc.secureMode)));
    var ipv4 := GenIpv4(dhcp, nc.virtualIpv4, nc.networkLength);
    if ipv4.None? { return None; }
    cfg := cfg.(ipv4 := ipv4.value);

    var how := nc.networkingMethod.GetOr(0);
    if how != STANDALONE {
      var urls := ParseList(lib.url, if how == MANUAL then nc.peerUrls else [nc.publicServerUrl.GetOr("")], how == MANUAL);
      if urls.None? { return None; }
      cfg := cfg.(peers := IfAny(Anonymous(urls.value)));
    }
    var listeners := ParseList(lib.url, nc.listenerUrls, true);
    if listeners.None? { return None; }
    cfg := cfg.(listeners := listeners);
    var proxies := AddProxyNetworks(nc.proxyCidrs);
    if proxies.None? { return None; }
    cfg := cfg.(proxyNetworks := IfAny(proxies.value), portForwards := GenForwards(lib, nc.portForwards));
    var vpn := GenVpnOf(nc);
    if vpn.None? { return None; }
    cfg := cfg.(vpnPortal := vpn.value);
    if nc.enableManualRoutes.GetOr(false) {
      var routes := ParseList(ParseCidr, nc.routes, false);
      if routes.None? { return None; }
      cfg := cfg.(routes := routes);
    }
    var exits := ParseList(IpParser(lib), nc.exitNodes, false);
    if exits.None? { return None; }
    return Some(cfg.(exitNodes := IfAny(exits.value)));
  }

  /** Import a flat config. A part that cannot be read ends the import; a bad SOCKS5 port ends the program. */
  method GenConfig(lib: Library, nc: NetworkConfig) returns (r: Outcome<Config>)
    ensures r == Gen(lib, nc)
  {
    var early := GenEarly(lib, nc);
    if early.None? { return Failed; }
    var cfg := early.value;
    var socks := GenSocks5(lib, nc.enableSocks5.GetOr(false), nc.socks5Port);
    if !socks.Ok? { return Panicked; }
    cfg := cfg.(socks5Proxy := socks.value);
    var mapped := ParseList(MappedParser(lib), nc.mappedListeners, false);
    if mapped.None? { return Failed; }
    cfg := cfg.(mappedListeners := IfAny(mapped.value), credentialFile := NonEmpty(nc.credentialFile));
    var secure := GenSecureMode(lib, nc.networkSecret, nc.secureMode);
    if secure.None? { return Failed; }
    cfg := cfg.(secureMode := secure.value, ipv6PublicAddrProvider := nc.ipv6PublicAddrProvider,
                ipv6PublicAddrAuto := nc.ipv6PublicAddrAuto);
    var prefix := GenPrefix(lib, nc.ipv6PublicAddrPrefix);
    if prefix.None? { return Failed; }
    cfg := cfg.(ipv6PublicAddrPrefix := prefix.value, acl := GenAcl(nc.acl), flags := Some(GenFlags(lib, nc.flags)));
    return Ok(cfg);
  }
}
