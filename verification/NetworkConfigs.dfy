/**
 The two forms of a network's configuration: the stored form of `TomlConfigLoader`
 (iconnectd/src/common/config.rs) and the flat `NetworkConfig` message of the management API
 (iconnectd/src/proto/api_manage.proto).

 URLs, UUIDs and IPv6 networks are held as their canonical text.
 */
module NetworkConfigs {
  import opened Wrappers
  import opened Text
  import opened Addresses

  datatype Identity = Identity(name: string, secret: Option<string>)
  datatype Peer = Peer(uri: string, publicKey: Option<string>)
  datatype ProxyNetwork = ProxyNetwork(cidr: Inet, mapped: Option<Inet>, allow: Option<seq<string>>)
  datatype VpnPortal = VpnPortal(clientCidr: Inet, listen: SocketAddr)
  datatype PortForward = PortForward(bind: SocketAddr, dst: SocketAddr, proto: string)
  datatype SecureMode = SecureMode(enabled: bool, privateKey: Option<string>, publicKey: Option<string>)

  datatype GroupInfo = GroupInfo(declares: seq<string>, members: seq<string>)
  datatype AclV1 = AclV1(chains: seq<string>, group: Option<GroupInfo>)
  datatype Acl = Acl(v1: Option<AclV1>)

  predicate AclEmpty(acl: Acl) {
    acl.v1.None? ||
    (acl.v1.value.chains == [] &&
     (acl.v1.value.group.None? || (acl.v1.value.group.value.declares == [] && acl.v1.value.group.value.members == [])))
  }

  type U32 = n: nat | n < 0x1_0000_0000
  type U64 = n: nat | n < 0x1_0000_0000_0000_0000
  type I32 = n: int | -0x8000_0000 <= n < 0x8000_0000

  const U32_MAX: U32 := 0xFFFF_FFFF
  const U64_MAX: U64 := 0xFFFF_FFFF_FFFF_FFFF

  function AsI32(n: U32): I32 {
    if n < 0x8000_0000 then n else n - 0x1_0000_0000
  }

  function AsU32(n: I32): U32 {
    if n < 0 then n + 0x1_0000_0000 else n
  }

  /** The flags: those that the two forms hold one for one, the relay whitelist, and the rest. */
  datatype Flags = Flags(switches: Switches, relayNetworkWhitelist: string, rest: HiddenFlags)

  datatype Switches = Switches(
    latencyFirst: bool, devName: string, useSmoltcp: bool, enableIpv6: bool, enableKcpProxy: bool, disableKcpInput: bool,
    enableQuicProxy: bool, disableQuicInput: bool, disableP2p: bool, p2pOnly: bool, lazyP2p: bool, bindDevice: bool,
    socketMark: Option<U32>, noTun: bool, enableExitNode: bool, relayAllPeerRpc: bool, needP2p: bool, multiThread: bool,
    proxyForwardBySystem: bool, enableEncryption: bool, disableTcpHolePunching: bool,
    disableUdpHolePunching: bool, disableUpnp: bool, disableRelayData: bool, enableUdpBroadcastRelay: bool,
    disableSymHolePunching: bool, acceptDns: bool, mtu: U32, instanceRecvBpsLimit: U64, privateMode: bool)

  /** The flags that the flat form either cannot express or does not report. */
  datatype HiddenFlags = HiddenFlags(
    defaultProtocol: string, dataCompressAlgo: int, disableRelayKcp: bool, enableRelayForeignNetworkKcp: bool,
    disableRelayQuic: bool, enableRelayForeignNetworkQuic: bool, foreignRelayBpsLimit: U64, multiThreadCount: U32,
    encryptionAlgorithm: string, tldDnsZone: string, quicListenPort: U32)

  /** The stored form. Absent fields are `None`; `ipv4` and `ipv6PublicAddrPrefix` are stored as text. */
  datatype Config = Config(
    netns: Option<string>,
    hostname: Option<string>,
    instanceName: Option<string>,
    instanceId: Option<string>,
    ipv4: Option<string>,
    ipv6: Option<string>,
    ipv6PublicAddrProvider: Option<bool>,
    ipv6PublicAddrAuto: Option<bool>,
    ipv6PublicAddrPrefix: Option<string>,
    dhcp: Option<bool>,
    identity: Option<Identity>,
    listeners: Option<seq<string>>,
    mappedListeners: Option<seq<string>>,
    exitNodes: Option<seq<IpAddr>>,
    peers: Option<seq<Peer>>,
    proxyNetworks: Option<seq<ProxyNetwork>>,
    vpnPortal: Option<VpnPortal>,
    routes: Option<seq<Inet>>,
    socks5Proxy: Option<string>,
    portForwards: Option<seq<PortForward>>,
    secureMode: Option<SecureMode>,
    flags: Option<Flags>,
    acl: Option<Acl>,
    tcpWhitelist: Option<seq<string>>,
    udpWhitelist: Option<seq<string>>,
    stunServers: Option<seq<string>>,
    stunServersV6: Option<seq<string>>,
    credentialFile: Option<string>,
    source: Option<string>)

  datatype FlatForward = FlatForward(bindIp: string, bindPort: U32, dstIp: string, dstPort: U32, proto: string)

  /** The flat form. */
  datatype NetworkConfig = NetworkConfig(
    instanceId: Option<string>,
    dhcp: Option<bool>,
    virtualIpv4: Option<string>,
    networkLength: Option<I32>,
    hostname: Option<string>,
    networkName: Option<string>,
    networkSecret: Option<string>,
    networkingMethod: Option<I32>,
    publicServerUrl: Option<string>,
    peerUrls: seq<string>,
    proxyCidrs: seq<string>,
    enableVpnPortal: Option<bool>,
    vpnPortalListenPort: Option<I32>,
    vpnPortalClientNetworkAddr: Option<string>,
    vpnPortalClientNetworkLen: Option<I32>,
    listenerUrls: seq<string>,
    enableManualRoutes: Option<bool>,
    routes: seq<string>,
    exitNodes: seq<string>,
    enableSocks5: Option<bool>,
    socks5Port: Option<I32>,
    mappedListeners: seq<string>,
    portForwards: seq<FlatForward>,
    secureMode: Option<SecureMode>,
    acl: Option<Acl>,
    credentialFile: Option<string>,
    ipv6PublicAddrProvider: Option<bool>,
    ipv6PublicAddrAuto: Option<bool>,
    ipv6PublicAddrPrefix: Option<string>,
    flags: FlatFlags)

  /** The flag fields of the flat form, most of them optional. */
  datatype FlatFlags = FlatFlags(
    switches: FlatSwitches, enableRelayNetworkWhitelist: Option<bool>, relayNetworkWhitelist: seq<string>,
    encryptionAlgorithm: Option<string>, dataCompressAlgo: Option<int>)

  datatype FlatSwitches = FlatSwitches(
    latencyFirst: Option<bool>, devName: Option<string>, useSmoltcp: Option<bool>, disableIpv6: Option<bool>,
    enableKcpProxy: Option<bool>, disableKcpInput: Option<bool>, enableQuicProxy: Option<bool>, disableQuicInput: Option<bool>,
    disableP2p: Option<bool>, p2pOnly: Option<bool>, lazyP2p: Option<bool>, bindDevice: Option<bool>,
    socketMark: Option<U32>, noTun: Option<bool>, enableExitNode: Option<bool>, relayAllPeerRpc: Option<bool>,
    needP2p: Option<bool>, multiThread: Option<bool>, proxyForwardBySystem: Option<bool>, disableEncryption: Option<bool>,
    disableTcpHolePunching: Option<bool>,
    disableUdpHolePunching: Option<bool>, disableUpnp: Option<bool>, disableRelayData: Option<bool>,
    enableUdpBroadcastRelay: Option<bool>, disableSymHolePunching: Option<bool>, enableMagicDns: Option<bool>,
    mtu: Option<I32>, instanceRecvBpsLimit: Option<U64>, enablePrivateMode: Option<bool>)

  /**
   What the conversions use from elsewhere. A parser of URLs, UUIDs or IPv6 networks gives the canonical
   text; `freshUuid` and `freshKey` are the next random values.
   */
  datatype Library = Library(
    uuid: string -> Option<string>,
    url: string -> Option<string>,
    urlPort: string -> Option<Port>,
    mappedListenerOk: string -> bool,
    ipv6: Ipv6Lib,
    ipv6Cidr: string -> Option<string>,
    privateKeyOk: string -> bool,
    derivePublicKey: string -> string,
    canonPublicKey: string -> Option<string>,
    systemHostname: string,
    freshUuid: string,
    freshKey: string,
    defaultEncryption: string,
    defaultDnsZone: string)

  ghost predicate Canonicalises(parse: string -> Option<string>) {
    forall s :: parse(s).Some? ==> parse(s).value != "" && parse(parse(s).value) == parse(s)
  }

  /** A signed number in decimal. */
  function DecInt(n: int): string {
    if n < 0 then "-" + Dec(-n) else Dec(n)
  }

  function Socks5Url(port: I32): string {
    "socks5://0.0.0.0:" + DecInt(port)
  }

  /** What is assumed of the libraries. */
  ghost predicate Lawful(lib: Library) {
    && Canonicalises(lib.uuid) && Canonicalises(lib.url) && Canonicalises(lib.ipv6Cidr)
    && Ipv6LibOk(lib.ipv6)
    && (forall p: I32 ::
          if 0 <= p <= MAX_PORT
          then lib.url(Socks5Url(p)) == Some(Socks5Url(p)) && lib.urlPort(Socks5Url(p)) == Some(p)
          else lib.url(Socks5Url(p)).None?)
    && lib.uuid(lib.freshUuid) == Some(lib.freshUuid)
    && lib.privateKeyOk(lib.freshKey) && lib.freshKey != ""
    && !lib.privateKeyOk("")
    && (forall k :: lib.canonPublicKey(lib.derivePublicKey(k)) == Some(lib.derivePublicKey(k)))
  }

  function HiddenDefaults(lib: Library): HiddenFlags {
    HiddenFlags("tcp", 1, false, false, false, false, U64_MAX, 2, lib.defaultEncryption, lib.defaultDnsZone, U32_MAX)
  }

  function DefaultFlags(lib: Library): Flags {
    Flags(Switches(false, "", false, true, false, false, false, false, false, false, false, true, None, false, false, false,
                   false, true, false, true, false, false, false, false, false, false, false, 1380, U64_MAX, false),
          "*", HiddenDefaults(lib))
  }

  /** The flags of a loader that holds none: every field is the zero of its type. */
  const ZERO_FLAGS := Flags(
    Switches(false, "", false, false, false, false, false, false, false, false, false, false, None, false, false, false, false,
             false, false, false, false, false, false, false, false, false, false, 0, 0, false),
    "", HiddenFlags("", 0, false, false, false, false, 0, 0, "", "", 0))

  /** The loader before anything is set. */
  function DefaultConfig(lib: Library): Config {
    Config(None, None, None, None, None, None, None, None, None, None, Some(Identity("default", Some(""))), None, None, None,
           None, None, None, None, None, None, None, Some(DefaultFlags(lib)), None, None, None, None, None, None, None)
  }
}
