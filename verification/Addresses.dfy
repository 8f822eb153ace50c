/**
 Printing and parsing of IPv4 addresses, networks and socket addresses. IPv6 text is left to a library,
 of which only what its documentation promises is used.
 */
module Addresses {
  import opened Wrappers
  import opened Text

  type Octet = n: nat | n < 256

  datatype Ipv4 = Ipv4(a: Octet, b: Octet, c: Octet, d: Octet)

  const ANY_V4 := Ipv4(0, 0, 0, 0)

  /** An address with a prefix length; a network when its host bits are zero. */
  datatype Inet = Inet(addr: Ipv4, len: PrefixLen)

  type PrefixLen = n: nat | n <= 32

  /** An IPv6 address is its canonical text. */
  datatype IpAddr = V4(v4: Ipv4) | V6(text: string)

  datatype SocketAddr = SocketAddr(ip: IpAddr, port: Port)

  const MAX_PORT := 65535

  type Port = n: nat | n <= MAX_PORT

  // ---------------------------------------------------------------- IPv4 addresses

  function PrintV4(x: Ipv4): string {
    Join([Dec(x.a), Dec(x.b), Dec(x.c), Dec(x.d)], ".")
  }

  /** One number of a dotted address: at most three digits, no leading zero. */
  function ParseOctet(s: string): Option<Octet> {
    if s == "" || |s| > 3 || !AllDigits(s) || (s[0] == '0' && |s| > 1) || Value(s) > 255 then None else Some(Value(s))
  }

  function ParseV4(s: string): Option<Ipv4> {
    var parts := Split(s, '.');
    if |parts| != 4 then None
    else
      match (ParseOctet(parts[0]), ParseOctet(parts[1]), ParseOctet(parts[2]), ParseOctet(parts[3]))
      case (Some(a), Some(b), Some(c), Some(d)) => Some(Ipv4(a, b, c, d))
      case _ => None
  }

  lemma OctetRoundTrip(n: Octet)
    ensures ParseOctet(Dec(n)) == Some(n)
  {
    ValueDec(n);
    DecShape(n);
  }

  lemma V4RoundTrip(x: Ipv4)
    ensures ParseV4(PrintV4(x)) == Some(x)
  {
    var parts := [Dec(x.a), Dec(x.b), Dec(x.c), Dec(x.d)];
    forall i | 0 <= i < 4 ensures Free(parts[i], '.') {
      var n := [x.a, x.b, x.c, x.d][i];
      assert parts[i] == Dec(n);
      DecFree(n, '.');
    }
    SplitJoin(parts, '.');
    OctetRoundTrip(x.a);
    OctetRoundTrip(x.b);
    OctetRoundTrip(x.c);
    OctetRoundTrip(x.d);
  }

  lemma OctetIff(s: string, n: Octet)
    ensures ParseOctet(s) == Some(n) <==> s == Dec(n)
  {
    OctetRoundTrip(n);
    if ParseOctet(s) == Some(n) {
      var k := DigitsAreNumeral(s);
      assert k == 0;
    }
  }

  /** An address is read from its dotted text and from no other. */
  lemma V4Iff(s: string, x: Ipv4)
    ensures ParseV4(s) == Some(x) <==> s == PrintV4(x)
  {
    V4RoundTrip(x);
    if ParseV4(s) == Some(x) {
      var parts := Split(s, '.');
      JoinSplit(s, '.');
      OctetIff(parts[0], x.a);
      OctetIff(parts[1], x.b);
      OctetIff(parts[2], x.c);
      OctetIff(parts[3], x.d);
      assert parts == [Dec(x.a), Dec(x.b), Dec(x.c), Dec(x.d)];
    }
  }

  /** A text has one part exactly when it holds no separator, and is then that part. */
  lemma LonePart(s: string, c: char)
    ensures |Split(s, c)| == 1 <==> Free(s, c)
    ensures |Split(s, c)| == 1 ==> Split(s, c) == [s]
  {
    JoinSplit(s, c);
    if Free(s, c) {
      SplitFree(s, c);
    }
  }

  /** A printed IPv4 address holds digits and dots only. */
  lemma V4Free(x: Ipv4, c: char)
    requires !IsDigit(c) && c != '.'
    ensures Free(PrintV4(x), c)
  {
    DecFree(x.a, c);
    DecFree(x.b, c);
    DecFree(x.c, c);
    DecFree(x.d, c);
    JoinFour(Dec(x.a), Dec(x.b), Dec(x.c), Dec(x.d), ".");
  }

  lemma JoinFour(a: string, b: string, c: string, d: string, sep: string)
    ensures Join([a, b, c, d], sep) == a + sep + (b + sep + (c + sep + d))
  {
    assert [c, d][1..] == [d];
    assert Join([c, d], sep) == c + sep + d;
    assert [b, c, d][1..] == [c, d];
    assert Join([b, c, d], sep) == b + sep + (c + sep + d);
    assert [a, b, c, d][1..] == [b, c, d];
  }

  lemma V4NonEmpty(x: Ipv4)
    ensures PrintV4(x) != ""
  {
  }

  // ---------------------------------------------------------------- networks

  function Pow2(n: nat): nat {
    if n == 0 then 1 else 2 * Pow2(n - 1)
  }

  lemma {:induction false} Pow2Positive(n: nat)
    ensures Pow2(n) > 0
  {
    if n > 0 { Pow2Positive(n - 1); }
  }

  function Bits(x: Ipv4): nat {
    ((x.a * 256 + x.b) * 256 + x.c) * 256 + x.d
  }

  predicate IsNetwork(x: Inet) {
    Pow2Positive(32 - x.len);
    Bits(x.addr) % Pow2(32 - x.len) == 0
  }

  /** A host route is printed without its length. */
  function PrintInet(x: Inet): string {
    if x.len == 32 then PrintV4(x.addr) else PrintV4(x.addr) + "/" + Dec(x.len)
  }

  function ParseInet(s: string): Option<Inet> {
    var parts := Split(s, '/');
    if |parts| == 1 then
      match ParseV4(parts[0])
      case Some(a) => Some(Inet(a, 32))
      case None => None
    else if |parts| == 2 then
      match (ParseV4(parts[0]), ParseUnsigned(parts[1], 32))
      case (Some(a), Some(n)) => Some(Inet(a, n))
      case _ => None
    else None
  }

  function ParseCidr(s: string): (r: Option<Inet>)
    ensures r.Some? ==> IsNetwork(r.value)
  {
    match ParseInet(s)
    case Some(x) => if IsNetwork(x) then Some(x) else None
    case None => None
  }

  lemma SlashRoundTrip(x: Inet)
    ensures ParseInet(PrintV4(x.addr) + "/" + Dec(x.len)) == Some(x)
  {
    V4Free(x.addr, '/');
    DecFree(x.len, '/');
    SplitAt(PrintV4(x.addr), Dec(x.len), '/');
    SplitFree(Dec(x.len), '/');
    V4RoundTrip(x.addr);
    ParseDec(x.len, 32);
  }

  lemma InetRoundTrip(x: Inet)
    ensures ParseInet(PrintInet(x)) == Some(x)
    ensures IsNetwork(x) ==> ParseCidr(PrintInet(x)) == Some(x)
  {
    if x.len == 32 {
      V4Free(x.addr, '/');
      SplitFree(PrintV4(x.addr), '/');
      V4RoundTrip(x.addr);
    } else {
      SlashRoundTrip(x);
    }
  }

  /** The texts of a network: the address alone for a host, or the address, a slash and the length. */
  ghost predicate InetText(s: string, x: Inet) {
    || (x.len == 32 && s == PrintV4(x.addr))
    || exists t :: s == PrintV4(x.addr) + "/" + t && Numeral(t, x.len)
  }

  lemma InetIff(s: string, x: Inet)
    ensures ParseInet(s) == Some(x) <==> InetText(s, x)
  {
    var parts := Split(s, '/');
    V4Free(x.addr, '/');
    if ParseInet(s) == Some(x) {
      JoinSplit(s, '/');
      V4Iff(parts[0], x.addr);
      if |parts| == 2 {
        ParseUnsignedIff(parts[1], 32, x.len);
        assert parts[1..] == [parts[1]];
        assert s == PrintV4(x.addr) + "/" + parts[1];
      }
    }
    if x.len == 32 && s == PrintV4(x.addr) {
      SplitFree(s, '/');
      V4RoundTrip(x.addr);
    }
    if t :| s == PrintV4(x.addr) + "/" + t && Numeral(t, x.len) {
      ParseUnsignedIff(t, 32, x.len);
      UnsignedFree(t, 32, '/');
      SplitAt(PrintV4(x.addr), t, '/');
      SplitFree(t, '/');
      V4RoundTrip(x.addr);
    }
  }

  lemma InetFree(x: Inet, c: char)
    requires !IsDigit(c) && c != '.' && c != '/'
    ensures Free(PrintInet(x), c)
  {
    V4Free(x.addr, c);
    DecFree(x.len, c);
  }

  // ---------------------------------------------------------------- IP and socket addresses

  /** IPv6 parsers: an address to its canonical text, and a bracketed address with a port. */
  datatype Ipv6Lib = Ipv6Lib(parse: string -> Option<string>, parseBracketed: string -> Option<(string, Port)>)

  /** Canonical IPv6 text has at least two colons and never starts with a bracket. */
  predicate V6Shape(s: string) {
    |Split(s, ':')| >= 3 && s != "" && s[0] != '['
  }

  /** What is used of the IPv6 parsers. */
  ghost predicate Ipv6LibOk(lib: Ipv6Lib) {
    && (forall s :: lib.parse(s).Some? ==> V6Shape(lib.parse(s).value) && lib.parse(lib.parse(s).value) == lib.parse(s))
    && (forall s :: lib.parseBracketed(s).Some? ==>
          && s != "" && s[0] == '['
          && lib.parse(lib.parseBracketed(s).value.0) == Some(lib.parseBracketed(s).value.0))
  }

  ghost predicate ValidIp(lib: Ipv6Lib, ip: IpAddr) {
    ip.V6? ==> lib.parse(ip.text) == Some(ip.text)
  }

  function PrintIp(ip: IpAddr): string {
    match ip
    case V4(x) => PrintV4(x)
    case V6(text) => text
  }

  function ParseIp(lib: Ipv6Lib, s: string): Option<IpAddr> {
    match ParseV4(s)
    case Some(x) => Some(V4(x))
    case None => match lib.parse(s) case Some(t) => Some(V6(t)) case None => None
  }

  /** A dotted address never holds a colon, so no IPv6 text is mistaken for one. */
  lemma ColonIsNotV4(s: string)
    requires |Split(s, ':')| >= 2
    ensures ParseV4(s).None?
  {
    if ParseV4(s).Some? {
      V4Iff(s, ParseV4(s).value);
      V4Free(ParseV4(s).value, ':');
      SplitFree(s, ':');
    }
  }

  lemma IpRoundTrip(lib: Ipv6Lib, ip: IpAddr)
    requires Ipv6LibOk(lib) && ValidIp(lib, ip)
    ensures ParseIp(lib, PrintIp(ip)) == Some(ip)
  {
    match ip
    case V4(x) => V4RoundTrip(x);
    case V6(text) =>
      assert V6Shape(text);
      ColonIsNotV4(text);
  }

  /** An IPv4 socket address is `a.b.c.d:port`; an IPv6 one needs brackets. */
  function ParseSocket(lib: Ipv6Lib, s: string): Option<SocketAddr> {
    var parts := Split(s, ':');
    if |parts| == 2 && ParseV4(parts[0]).Some? && parts[1] != "" && AllDigits(parts[1]) && Value(parts[1]) <= MAX_PORT
    then Some(SocketAddr(V4(ParseV4(parts[0]).value), Value(parts[1])))
    else
      match lib.parseBracketed(s)
      case Some(p) => Some(SocketAddr(V6(p.0), p.1))
      case None => None
  }

  /** Printing the address and the port of a socket address and parsing them again works for IPv4 only. */
  lemma SocketRoundTripIff(lib: Ipv6Lib, x: SocketAddr)
    requires Ipv6LibOk(lib) && ValidIp(lib, x.ip)
    ensures ParseSocket(lib, PrintIp(x.ip) + ":" + Dec(x.port)) == if x.ip.V4? then Some(x) else None
  {
    DecFree(x.port, ':');
    SplitFree(Dec(x.port), ':');
    match x.ip
    case V4(v4) =>
      V4Free(v4, ':');
      SplitAt(PrintV4(v4), Dec(x.port), ':');
      V4RoundTrip(v4);
      ValueDec(x.port);
    case V6(text) =>
      assert V6Shape(text);
      SplitMore(text, ":" + Dec(x.port), ':');
      assert text + (":" + Dec(x.port)) == text + ":" + Dec(x.port);
  }

  /** An address and a port read as a dotted socket address when the address is dotted, and else by the library. */
  lemma SocketIff(lib: Ipv6Lib, a: string, p: nat, x: SocketAddr)
    ensures ParseSocket(lib, a + ":" + Dec(p)) == Some(x) <==>
              if ParseV4(a).Some? && p <= MAX_PORT then x.ip.V4? && a == PrintV4(x.ip.v4) && x.port == p
              else x.ip.V6? && lib.parseBracketed(a + ":" + Dec(p)) == Some((x.ip.text, x.port))
  {
    SplitBetween(a, Dec(p), ':');
    DecFree(p, ':');
    SplitFree(Dec(p), ':');
    ValueDec(p);
    LonePart(a, ':');
    if ParseV4(a).Some? {
      V4Iff(a, ParseV4(a).value);
      V4Free(ParseV4(a).value, ':');
      if x.ip.V4? { V4Iff(a, x.ip.v4); }
    }
  }

  /** Appending text never loses parts. */
  lemma {:induction false} SplitMore(a: string, b: string, c: char)
    ensures |Split(a + b, c)| >= |Split(a, c)|
  {
    if a == "" {
      assert a + b == b;
    } else {
      assert (a + b)[1..] == a[1..] + b;
      SplitMore(a[1..], b, c);
    }
  }
}
