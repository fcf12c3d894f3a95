/**
 * The local relay (modules/server.py): the choice of upstream from the pool's current proxy,
 * the SOCKS5 handshake (RFC 1928, sections 3 to 6) and the HTTP front end (CONNECT tunnels as
 * in section 9.3.6 of RFC 9110, and plain forwarded requests), each as a function of the bytes
 * the client sends, and the running flag of the two listeners.
 *
 * A client's bytes are read as one stream; a read of n bytes takes the next min(n, remaining)
 * of them. Opening the upstream connection is an oracle `connects`.
 */
module Server {
  import opened Wrappers
  import opened Text
  import opened Utf8
  import opened Records

  // ---------------------------------------------------------------- choosing the upstream

  datatype Kind = HttpProxy | Socks4Proxy | Socks5Proxy

  /** The upstream proxy type for a protocol name, in any case. */
  function KindOf(protocol: string): Option<Kind> {
    var p := Upper(protocol);
    if p == "HTTP" then Some(HttpProxy)
    else if p == "SOCKS4" then Some(Socks4Proxy)
    else if p == "SOCKS5" then Some(Socks5Proxy)
    else None
  }

  /** Upper-casing twice is upper-casing once. */
  lemma UpperIdempotent(s: string)
    ensures Upper(Upper(s)) == Upper(s)
  {
    assert forall i :: 0 <= i < |s| ==> UpperChar(UpperChar(s[i])) == UpperChar(s[i]);
  }

  /** Upper-casing the lower-cased text is upper-casing the text. */
  lemma UpperOfLower(s: string)
    ensures Upper(Lower(s)) == Upper(s)
  {
    assert forall i :: 0 <= i < |s| ==> UpperChar(LowerChar(s[i])) == UpperChar(s[i]);
  }

  /** The protocol name is read case-insensitively: its lower- and upper-case forms select the same type. */
  lemma KindIgnoresCase(protocol: string)
    ensures KindOf(Lower(protocol)) == KindOf(protocol)
    ensures KindOf(Upper(protocol)) == KindOf(protocol)
  {
    UpperOfLower(protocol);
    UpperIdempotent(protocol);
  }

  /** How the upstream proxy is reached. */
  datatype Route = Route(kind: Kind, host: string, port: int)

  /** The outcome of reading the current proxy: none usable, an address that does not split in two (which raises), or a route. */
  datatype Selection = NoUpstream | Unsplittable | Via(route: Route)

  function SelectUpstream(current: Option<Record>): Selection {
    if current.None? then NoUpstream
    else
      var r := current.value;
      if r.address == "" || r.protocol == "" then NoUpstream
      else
        var parts := Split(r.address, ':');
        if |parts| != 2 then Unsplittable
        else if KindOf(r.protocol).None? then NoUpstream
        else if ParseInt(parts[1]).None? then NoUpstream
        else Via(Route(KindOf(r.protocol).value, parts[0], ParseInt(parts[1]).value))
  }

  /** A pooled proxy "host:port" with a supported protocol is reached through exactly that host, port and type. */
  lemma SelectsPooledProxy(r: Record, host: string, port: nat)
    requires host != "" && ':' !in host && r.address == host + ":" + NatToString(port)
    ensures KindOf(r.protocol).None? ==> SelectUpstream(Some(r)) == NoUpstream
    ensures KindOf(r.protocol).Some? ==> SelectUpstream(Some(r)) == Via(Route(KindOf(r.protocol).value, host, port))
  {
    var digits := NatToString(port);
    assert ':' !in digits;
    SplitNoSep(digits, ':');
    SplitPrefix(host, digits, ':');
    ParseNatToString(port);
    assert KindOf(r.protocol).Some? ==> r.protocol != "";
  }

  /** Without a current proxy, with a field missing, or with an unsupported protocol, nothing is reached. */
  lemma NoRouteWithoutUsableProxy(current: Option<Record>)
    requires current.None? || current.value.address == "" || current.value.protocol == "" ||
             (|Split(current.value.address, ':')| == 2 && KindOf(current.value.protocol).None?)
    ensures !SelectUpstream(current).Via?
  {
  }

  /** Whether the upstream connection to the target is obtained. */
  predicate Obtained(current: Option<Record>, host: string, port: int, connects: (Route, string, int) -> bool) {
    var s := SelectUpstream(current);
    s.Via? && connects(s.route, host, port)
  }

  // ---------------------------------------------------------------- reading the client's bytes

  /** recv(n): the next at most n bytes. */
  function Take(s: seq<byte>, n: nat): (r: seq<byte>)
    ensures |r| <= n && |r| <= |s| && r == s[..|r|] && (|r| < n ==> |r| == |s|)
  {
    s[..if n < |s| then n else |s|]
  }

  /** What is left after recv(n). */
  function Drop(s: seq<byte>, n: nat): seq<byte> {
    s[if n < |s| then n else |s|..]
  }

  lemma TakeDropOf(x: seq<byte>, rest: seq<byte>, s: seq<byte>)
    requires s == x + rest
    ensures Take(s, |x|) == x && Drop(s, |x|) == rest
  {
    assert s[..|x|] == x;
    assert s[|x|..] == rest;
  }

  /** What a client connection leads to: the bytes written back to the client and to the upstream, the target asked of the upstream, and whether relaying starts. */
  datatype Session = Session(toClient: seq<byte>, toUpstream: seq<byte>, target: Option<(string, int)>, relayed: bool)

  const Closed := Session([], [], None, false)

  // ---------------------------------------------------------------- SOCKS5

  /** "05 00": version 5, no authentication required (RFC 1928, section 3). */
  const NoAuthentication: seq<byte> := [5, 0]

  /** "05 00 00 01" and an all-zero IPv4 address and port: succeeded (RFC 1928, section 6). */
  const Succeeded: seq<byte> := [5, 0, 0, 1, 0, 0, 0, 0, 0, 0]

  /** The handshake ended early, after the method reply (`replied`) or before it; or a CONNECT request for a target. */
  datatype Socks5Request = Refused(replied: bool) | Connect(host: string, port: int)

  /** inet_ntoa: the four bytes in dotted decimal. */
  function DottedQuad(a: seq<byte>): string
    requires |a| == 4
  {
    NatToString(a[0]) + "." + NatToString(a[1]) + "." + NatToString(a[2]) + "." + NatToString(a[3])
  }

  /** The request header of a greeting that carried a method count: VER, CMD, RSV, ATYP. */
  function RequestHeader(input: seq<byte>): seq<byte>
    requires |input| >= 2
  {
    Take(Drop(Drop(input, 2), input[1]), 4)
  }

  function Socks5Parse(input: seq<byte>): (r: Socks5Request)
    ensures r != Refused(false) <==> |input| >= 2 && input[0] == 5
    ensures r.Connect? ==> var h := RequestHeader(input);
      |h| == 4 && h[0] == 5 && h[1] == 1 && (h[3] == 1 || h[3] == 3)
  {
    var hello := Take(input, 2);
    if |hello| == 0 || hello[0] != 5 || |hello| < 2 then Refused(false)
    else ParseRequest(Drop(Drop(input, 2), hello[1]))
  }

  /** After the greeting and its offered methods: the request header, then the address. */
  function ParseRequest(afterMethods: seq<byte>): (r: Socks5Request)
    ensures r != Refused(false)
    ensures r.Connect? ==> var h := Take(afterMethods, 4);
      |h| == 4 && h[0] == 5 && h[1] == 1 && (h[3] == 1 || h[3] == 3)
  {
    var header := Take(afterMethods, 4);
    if |header| == 0 || header[0] != 5 || |header| < 2 || header[1] != 1 || |header| < 4 then Refused(true)
    else ParseAddress(header[3], Drop(afterMethods, 4))
  }

  /** The address of the type given by ATYP, then the port. */
  function ParseAddress(atyp: byte, s: seq<byte>): (r: Socks5Request)
    ensures r != Refused(false)
    ensures r.Connect? ==> atyp == 1 || atyp == 3
  {
    if atyp == 1 then
      var a := Take(s, 4);
      if |a| != 4 then Refused(true) else PortAfter(DottedQuad(a), Drop(s, 4))
    else if atyp == 3 then
      var lengthByte := Take(s, 1);
      if lengthByte == [] then Refused(true)
      else
        var rest := Drop(s, 1);
        match DecodeStrict(Take(rest, lengthByte[0]))
        case None => Refused(true)
        case Some(host) => PortAfter(host, Drop(rest, lengthByte[0]))
    else Refused(true)
  }

  /** The port that ends the request: two bytes, big-endian. */
  function PortAfter(host: string, s: seq<byte>): (r: Socks5Request)
    ensures r.Connect? ==> r.host == host && 0 <= r.port < 65536
  {
    var p := Take(s, 2);
    if |p| != 2 then Refused(true) else Connect(host, p[0] as int * 256 + p[1] as int)
  }

  /** One SOCKS5 client: method reply, request, then the success reply only once an upstream is obtained. */
  function Socks5Session(input: seq<byte>, current: Option<Record>, connects: (Route, string, int) -> bool): (s: Session)
    ensures s.toUpstream == []
    ensures s.toClient == [] <==> !(|input| >= 2 && input[0] == 5)
    ensures s.toClient != [] ==> s.toClient == NoAuthentication || s.toClient == NoAuthentication + Succeeded
    ensures s.relayed <==> s.toClient == NoAuthentication + Succeeded
    ensures var q := Socks5Parse(input);
      q.Connect? ==> s.target == Some((q.host, q.port)) && (s.relayed <==> Obtained(current, q.host, q.port, connects))
    ensures !Socks5Parse(input).Connect? ==> s.target.None? && !s.relayed
  {
    match Socks5Parse(input)
    case Refused(replied) => Session(if replied then NoAuthentication else [], [], None, false)
    case Connect(host, port) =>
      if Obtained(current, host, port, connects)
      then Session(NoAuthentication + Succeeded, [], Some((host, port)), true)
      else Session(NoAuthentication, [], Some((host, port)), false)
  }

  /** A destination as a client names it: an IPv4 address or a domain name (RFC 1928, section 5). */
  datatype Destination = IPv4(a: byte, b: byte, c: byte, d: byte) | DomainName(name: string)

  predicate Encodable(dst: Destination) {
    dst.DomainName? ==> |Encode(dst.name)| < 256
  }

  function AddressBytes(dst: Destination): seq<byte>
    requires Encodable(dst)
  {
    match dst
    case IPv4(a, b, c, d) => [1, a, b, c, d]
    case DomainName(name) => [3, |Encode(name)|] + Encode(name)
  }

  /** The target text the relay asks the upstream for. */
  function DestinationText(dst: Destination): string {
    match dst
    case IPv4(a, b, c, d) => DottedQuad([a, b, c, d])
    case DomainName(name) => name
  }

  /** A client's greeting offering `methods`, as RFC 1928 section 3 lays it out. */
  function Greeting(methods: seq<byte>): seq<byte>
    requires |methods| < 256
  {
    [5, |methods|] + methods
  }

  /** A client's CONNECT request, as RFC 1928 section 4 lays it out. */
  function ConnectRequest(dst: Destination, port: nat): seq<byte>
    requires Encodable(dst) && port < 65536
  {
    [5, 1, 0] + AddressBytes(dst) + [port / 256, port % 256]
  }

  /** A well-formed greeting and CONNECT request, whatever follows them, asks for exactly the client's destination and port. */
  lemma Socks5RoundTrip(methods: seq<byte>, dst: Destination, port: nat, rest: seq<byte>)
    requires |methods| < 256 && Encodable(dst) && port < 65536
    ensures Socks5Parse(Greeting(methods) + ConnectRequest(dst, port) + rest) == Connect(DestinationText(dst), port)
  {
    var after := ConnectRequest(dst, port) + rest;
    GreetingSkipped(methods, after, Greeting(methods) + ConnectRequest(dst, port) + rest);
    RequestRead(dst, port, rest, after);
  }

  /**
   * A client that sends a well-formed greeting and CONNECT request is answered for exactly
   * the destination it named: the upstream is asked for it, and the success reply follows the
   * method reply exactly when that upstream connection is obtained.
   */
  lemma Socks5SessionOfRequest(methods: seq<byte>, dst: Destination, port: nat, rest: seq<byte>,
                               current: Option<Record>, connects: (Route, string, int) -> bool)
    requires |methods| < 256 && Encodable(dst) && port < 65536
    ensures var s := Socks5Session(Greeting(methods) + ConnectRequest(dst, port) + rest, current, connects);
      var obtained := Obtained(current, DestinationText(dst), port, connects);
      && s.target == Some((DestinationText(dst), port as int))
      && (s.relayed <==> obtained)
      && s.toClient == (if obtained then NoAuthentication + Succeeded else NoAuthentication)
  {
    Socks5RoundTrip(methods, dst, port, rest);
  }

  lemma RequestRead(dst: Destination, port: nat, rest: seq<byte>, after: seq<byte>)
    requires Encodable(dst) && port < 65536 && after == ConnectRequest(dst, port) + rest
    ensures ParseRequest(after) == Connect(DestinationText(dst), port)
  {
    var address := AddressBytes(dst);
    var tail := [port / 256, port % 256] + rest;
    var s := address[1..] + tail;
    assert address == [address[0]] + address[1..];
    assert after == [5, 1, 0, address[0]] + s;
    TakeDropOf([5, 1, 0, address[0]], s, after);
    PortRead(port, rest, tail);
    AddressRead(dst, tail, s);
  }

  /** The greeting and the methods it offers are consumed, whatever they are. */
  lemma GreetingSkipped(methods: seq<byte>, after: seq<byte>, input: seq<byte>)
    requires |methods| < 256 && input == Greeting(methods) + after
    ensures Socks5Parse(input) == ParseRequest(after)
  {
    TakeDropOf([5, |methods|], methods + after, input);
    TakeDropOf(methods, after, methods + after);
  }

  lemma PortRead(port: nat, rest: seq<byte>, tail: seq<byte>)
    requires port < 65536 && tail == [port / 256, port % 256] + rest
    ensures forall host :: PortAfter(host, tail) == Connect(host, port)
  {
    TakeDropOf([port / 256, port % 256], rest, tail);
  }

  lemma AddressRead(dst: Destination, tail: seq<byte>, s: seq<byte>)
    requires Encodable(dst) && s == AddressBytes(dst)[1..] + tail
    ensures ParseAddress(AddressBytes(dst)[0], s) == PortAfter(DestinationText(dst), tail)
  {
    match dst
    case IPv4(a, b, c, d) =>
      TakeDropOf([a, b, c, d], tail, s);
    case DomainName(name) =>
      var e := Encode(name);
      TakeDropOf([|e| as byte], e + tail, s);
      TakeDropOf(e, tail, e + tail);
      DecodeEncode(name);
  }

  /** A request for an IPv6 address (ATYP 4) or any other unknown type is dropped after the method reply, with no reply to it. */
  lemma Socks5RefusesOtherAddressTypes(methods: seq<byte>, atyp: byte, rest: seq<byte>)
    requires |methods| < 256 && atyp != 1 && atyp != 3
    ensures Socks5Parse(Greeting(methods) + [5, 1, 0, atyp] + rest) == Refused(true)
  {
    GreetingSkipped(methods, [5, 1, 0, atyp] + rest, Greeting(methods) + [5, 1, 0, atyp] + rest);
    TakeDropOf([5, 1, 0, atyp], rest, [5, 1, 0, atyp] + rest);
  }

  /** A command other than CONNECT (BIND, UDP ASSOCIATE, ...) is dropped after the method reply. */
  lemma Socks5ConnectOnly(methods: seq<byte>, cmd: byte, rest: seq<byte>)
    requires |methods| < 256 && cmd != 1
    ensures Socks5Parse(Greeting(methods) + [5, cmd] + rest) == Refused(true)
  {
    GreetingSkipped(methods, [5, cmd] + rest, Greeting(methods) + [5, cmd] + rest);
    assert Take([5, cmd] + rest, 4)[1] == cmd;
  }

  // ---------------------------------------------------------------- HTTP

  /** The first read of an HTTP client takes at most this many bytes. */
  const RequestLimit: nat := 8192

  /** "HTTP/1.1 200 Connection Established" followed by an empty line. */
  const Established: seq<byte> := [72, 84, 84, 80, 47, 49, 46, 49, 32, 50, 48, 48, 32, 67, 111, 110, 110, 101, 99, 116,
                                   105, 111, 110, 32, 69, 115, 116, 97, 98, 108, 105, 115, 104, 101, 100, 13, 10, 13, 10]

  /** The bytes before the first CR LF, or all of them. */
  function FirstLine(data: seq<byte>): (line: seq<byte>)
    ensures |line| <= |data| && line == data[..|line|]
  {
    match IndexOf(data, [13, 10])
    case Some(i) => data[..i]
    case None => data
  }

  /** urlparse's reading of a request target, an oracle: its hostname and port, None where reading the port raises. */
  datatype UrlParts = UrlParts(hostname: Option<string>, port: Option<int>)

  /** Where a request goes: nowhere (the first line does not parse), a tunnel, or a forwarded request. */
  datatype HttpTarget = BadRequest | Tunnel(host: string, port: int) | Forward(hostname: Option<string>, toPort: int)

  function HttpParse(data: seq<byte>, urlparse: string -> Option<UrlParts>): HttpTarget {
    var tokens := Words(DecodeIgnore(FirstLine(data)));
    if |tokens| != 3 then BadRequest
    else if tokens[0] == "CONNECT" then
      var parts := Split(tokens[1], ':');
      if |parts| != 2 || ParseInt(parts[1]).None? then BadRequest
      else Tunnel(parts[0], ParseInt(parts[1]).value)
    else
      match urlparse(tokens[1])
      case None => BadRequest
      case Some(u) => Forward(u.hostname, if u.port.Some? && u.port.value != 0 then u.port.value else 80)
  }

  /** One HTTP client: a tunnel is acknowledged to the client, any other request is passed upstream unchanged. */
  function HttpSession(input: seq<byte>, urlparse: string -> Option<UrlParts>, current: Option<Record>,
                       connects: (Route, string, int) -> bool): (s: Session)
    ensures !s.relayed ==> s.toClient == [] && s.toUpstream == []
    ensures s.relayed ==> s.target.Some? && Obtained(current, s.target.value.0, s.target.value.1, connects)
    ensures s.toClient != [] ==> s.toClient == Established && s.toUpstream == []
    ensures s.toUpstream != [] ==> s.toUpstream == Take(input, RequestLimit) && s.toClient == []
    ensures s.relayed ==> (s.toClient == Established <==> HttpParse(Take(input, RequestLimit), urlparse).Tunnel?)
    ensures var t := HttpParse(Take(input, RequestLimit), urlparse);
      t.Tunnel? ==> s.target == Some((t.host, t.port)) && (s.relayed <==> Obtained(current, t.host, t.port, connects))
    ensures var t := HttpParse(Take(input, RequestLimit), urlparse);
      t.Forward? && t.hostname.Some? ==>
        s.target == Some((t.hostname.value, t.toPort)) && (s.relayed <==> Obtained(current, t.hostname.value, t.toPort, connects))
    ensures var t := HttpParse(Take(input, RequestLimit), urlparse);
      t.BadRequest? || (t.Forward? && t.hostname.None?) ==> s == Closed
    ensures s.relayed && !HttpParse(Take(input, RequestLimit), urlparse).Tunnel? ==> s.toUpstream == Take(input, RequestLimit)
  {
    var data := Take(input, RequestLimit);
    if data == [] then Closed
    else
      match HttpParse(data, urlparse)
      case BadRequest => Closed
      case Tunnel(host, port) =>
        if Obtained(current, host, port, connects) then Session(Established, [], Some((host, port)), true)
        else Session([], [], Some((host, port)), false)
      case Forward(host, port) =>
        if host.None? then Closed
        else if Obtained(current, host.value, port, connects) then Session([], data, Some((host.value, port)), true)
        else Session([], [], Some((host.value, port)), false)
  }

  /** No byte of the encoding of a text without CR is a CR. */
  lemma {:induction false} EncodeWithoutCR(s: string)
    requires '\r' !in s
    ensures 13 !in Encode(s)
  {
    if s != [] {
      assert s[0] != '\r';
      assert s[1..] == s[1..] && forall c :: c in s[1..] ==> c in s;
      EncodeWithoutCR(s[1..]);
      var e := EncodeChar(s[0]);
      assert 13 !in e;
    }
  }

  /** The first line of "line CR LF rest" is the line, when the line holds no CR. */
  lemma FirstLineOf(line: seq<byte>, rest: seq<byte>, data: seq<byte>)
    requires 13 !in line && data == line + [13, 10] + rest
    ensures FirstLine(data) == line
  {
    assert OccursAt(data, [13, 10], |line|) by {
      assert data[|line|..|line| + 2] == [13, 10];
    }
    forall j | 0 <= j < |line|
      ensures !OccursAt(data, [13, 10], j)
    {
      assert data[j] == line[j];
    }
    assert data[..|line|] == line;
  }

  /** The text of a request line, once encoded and cut off at CR LF, reads back unchanged. */
  lemma RequestLineReadsBack(text: string, rest: seq<byte>, data: seq<byte>)
    requires '\r' !in text && data == Encode(text) + [13, 10] + rest
    ensures DecodeIgnore(FirstLine(data)) == text
  {
    EncodeWithoutCR(text);
    FirstLineOf(Encode(text), rest, data);
    DecodeEncode(text);
    IgnoreAgreesWithStrict(Encode(text));
  }

  predicate IsToken(w: string) { w != [] && NoSpace(w) && '\r' !in w }

  /** "CONNECT host:port version" or any request line of three tokens, joined by single spaces. */
  function RequestLine(verb: string, target: string, version: string): string {
    Join([verb, target, version], ' ')
  }

  lemma RequestLineTokens(verb: string, target: string, version: string)
    requires IsToken(verb) && IsToken(target) && IsToken(version)
    ensures Words(RequestLine(verb, target, version)) == [verb, target, version]
    ensures '\r' !in RequestLine(verb, target, version)
  {
    WordsOfJoin([verb, target, version]);
    assert [verb, target, version][1..] == [target, version];
    assert [target, version][1..] == [version];
    assert Join([version], ' ') == version;
    assert Join([target, version], ' ') == target + [' '] + version;
    assert RequestLine(verb, target, version) == verb + [' '] + (target + [' '] + version);
  }

  /**
   * A CONNECT request for "host:port" whose first line fits in the first read opens a tunnel
   * to exactly that host and port.
   */
  lemma ConnectRoundTrip(host: string, port: nat, version: string, rest: seq<byte>, urlparse: string -> Option<UrlParts>)
    requires IsToken(host) && ':' !in host && IsToken(version)
    requires |Encode(RequestLine("CONNECT", host + ":" + NatToString(port), version))| + 2 <= RequestLimit
    ensures var input := Encode(RequestLine("CONNECT", host + ":" + NatToString(port), version)) + [13, 10] + rest;
      HttpParse(Take(input, RequestLimit), urlparse) == Tunnel(host, port)
  {
    var target := host + ":" + NatToString(port);
    HostPortToken(host, port, target);
    assert IsToken("CONNECT");
    RequestLineTokens("CONNECT", target, version);
    var text := RequestLine("CONNECT", target, version);
    var line := Encode(text);
    var input := line + [13, 10] + rest;
    var data := Take(input, RequestLimit);
    var k := |data| - |line| - 2;
    assert data == line + [13, 10] + rest[..k];
    RequestLineReadsBack(text, rest[..k], data);
    TunnelOf(data, urlparse, host, port, target, version);
  }

  /**
   * A client whose CONNECT line for "host:port" fits in the first read gets a tunnel to
   * exactly that host and port: the acknowledgement is sent exactly when the upstream
   * connection is obtained, and nothing goes upstream before the relay.
   */
  lemma ConnectSession(host: string, port: nat, version: string, rest: seq<byte>, urlparse: string -> Option<UrlParts>,
                       current: Option<Record>, connects: (Route, string, int) -> bool)
    requires IsToken(host) && ':' !in host && IsToken(version)
    requires |Encode(RequestLine("CONNECT", host + ":" + NatToString(port), version))| + 2 <= RequestLimit
    ensures var input := Encode(RequestLine("CONNECT", host + ":" + NatToString(port), version)) + [13, 10] + rest;
      var s := HttpSession(input, urlparse, current, connects);
      var obtained := Obtained(current, host, port, connects);
      && s.target == Some((host, port as int))
      && (s.relayed <==> obtained)
      && s.toClient == (if obtained then Established else [])
      && s.toUpstream == []
  {
    ConnectRoundTrip(host, port, version, rest, urlparse);
  }

  /**
   * A client whose request line "verb url version" (verb not CONNECT) fits in the first read,
   * with a url that urlparse reads as a hostname, is forwarded to that hostname at its port
   * (80 when none or 0): the relay starts exactly when the upstream connection is obtained,
   * and then the first read goes upstream unchanged.
   */
  lemma ForwardSession(verb: string, url: string, version: string, rest: seq<byte>, urlparse: string -> Option<UrlParts>,
                       current: Option<Record>, connects: (Route, string, int) -> bool)
    requires IsToken(verb) && verb != "CONNECT" && IsToken(url) && IsToken(version)
    requires |Encode(RequestLine(verb, url, version))| + 2 <= RequestLimit
    requires urlparse(url).Some? && urlparse(url).value.hostname.Some?
    ensures var input := Encode(RequestLine(verb, url, version)) + [13, 10] + rest;
      var s := HttpSession(input, urlparse, current, connects);
      var u := urlparse(url).value;
      var port := if u.port.Some? && u.port.value != 0 then u.port.value else 80;
      var obtained := Obtained(current, u.hostname.value, port, connects);
      && s.target == Some((u.hostname.value, port))
      && (s.relayed <==> obtained)
      && s.toClient == []
      && s.toUpstream == (if obtained then Take(input, RequestLimit) else [])
  {
    RequestLineTokens(verb, url, version);
    var text := RequestLine(verb, url, version);
    var line := Encode(text);
    var input := line + [13, 10] + rest;
    var data := Take(input, RequestLimit);
    var k := |data| - |line| - 2;
    assert data == line + [13, 10] + rest[..k];
    RequestLineReadsBack(text, rest[..k], data);
  }

  /** "host:port" is one token and splits on ':' into the host and the decimal port. */
  lemma HostPortToken(host: string, port: nat, target: string)
    requires IsToken(host) && ':' !in host && target == host + ":" + NatToString(port)
    ensures IsToken(target) && Split(target, ':') == [host, NatToString(port)]
  {
    var digits := NatToString(port);
    assert forall i :: 0 <= i < |digits| ==> !IsSpace(digits[i]) && digits[i] != '\r' && digits[i] != ':';
    assert forall i :: 0 <= i < |target| ==>
      target[i] == (if i < |host| then host[i] else if i == |host| then ':' else digits[i - |host| - 1]);
    assert NoSpace(target) && '\r' !in target;
    SplitNoSep(digits, ':');
    SplitPrefix(host, digits, ':');
  }

  lemma TunnelOf(data: seq<byte>, urlparse: string -> Option<UrlParts>, host: string, port: nat, target: string, version: string)
    requires Words(DecodeIgnore(FirstLine(data))) == ["CONNECT", target, version]
    requires Split(target, ':') == [host, NatToString(port)]
    ensures HttpParse(data, urlparse) == Tunnel(host, port)
  {
    ParseNatToString(port);
  }

  // ---------------------------------------------------------------- the listeners

  class ProxyServer {
    /** _running */
    var running: bool
    /** How many times the pair of listener threads has been started. */
    var starts: nat

    constructor ()
      ensures !running && starts == 0
    {
      running := false;
      starts := 0;
    }

    /** Starts both listeners, unless they are running already. */
    method StartAll()
      modifies this
      ensures running
      ensures starts == if old(running) then old(starts) else old(starts) + 1
    {
      if running {
        return;
      }
      running := true;
      starts := starts + 1;
    }

    /** Stops both listeners, unless they are stopped already. */
    method StopAll()
      modifies this
      ensures !running && starts == old(starts)
    {
      if !running {
        return;
      }
      running := false;
    }
  }
}
