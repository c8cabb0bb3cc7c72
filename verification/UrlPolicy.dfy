/** Which peer origins may be trusted, in which form they are stored, and which
    resolutions of them are accepted later. */
module UrlPolicy {
  import opened Wrappers
  import opened Ascii

  datatype Ip = V4(a: nat, b: nat, c: nat, d: nat) | V6(segments: seq<nat>)

  /** What the URL parser answers for a text it accepts. */
  datatype Url = Url(
    scheme: string, username: string, password: Option<string>, host: Option<string>,
    port: Option<nat>, path: string, query: Option<string>, fragment: Option<string>)

  /** The foreign parsers and printers the policy calls. */
  datatype Net = Net(parse: string -> Option<Url>, ip: string -> Option<Ip>, decimal: nat -> string)

  datatype UrlError = InvalidUrl | DisallowedScheme | MutableUrlComponents | ProhibitedDestination | DnsRebinding

  datatype PeerOrigin = PeerOrigin(
    origin: string, scheme: string, host: string, port: Option<nat>, allowPrivateHttp: bool)

  // ------------------------------------------------------------ address ranges

  predicate IsLoopback(ip: Ip) {
    match ip
    case V4(a, _, _, _) => a == 127
    case V6(s) => s == [0, 0, 0, 0, 0, 0, 0, 1]
  }

  predicate IsUnspecified(ip: Ip) {
    match ip
    case V4(a, b, c, d) => a == b == c == d == 0
    case V6(s) => s == [0, 0, 0, 0, 0, 0, 0, 0]
  }

  predicate IsPrivate(ip: Ip) {
    match ip
    case V4(a, b, _, _) => a == 10 || (a == 172 && 16 <= b <= 31) || (a == 192 && b == 168) || IsLoopback(ip)
    case V6(s) => IsLoopback(ip) || (s != [] && 0xfc00 <= s[0] <= 0xfdff)
  }

  predicate IsLinkLocal(ip: Ip) {
    match ip
    case V4(a, b, _, _) => a == 169 && b == 254
    case V6(s) => s != [] && 0xfe80 <= s[0] <= 0xfebf
  }

  predicate IsProhibited(ip: Ip) {
    IsLoopback(ip) || IsLinkLocal(ip) || IsUnspecified(ip) || ip == V4(255, 255, 255, 255)
  }

  // --------------------------------------------------------------- validation

  function Unbracketed(host: string): string {
    if |host| >= 2 && host[0] == '[' && host[|host| - 1] == ']' then host[1..|host| - 1] else host
  }

  function NormalHost(host: string): string {
    Lower(Unbracketed(host))
  }

  predicate HttpAllowed(net: Net, host: string, allowPrivateHttp: bool) {
    var ip := net.ip(host);
    ip.Some? && (IsLoopback(ip.value) || (allowPrivateHttp && IsPrivate(ip.value)))
  }

  function OriginHost(net: Net, host: string): string {
    var ip := net.ip(host);
    if ip.Some? && ip.value.V6? then "[" + host + "]" else host
  }

  function Print(net: Net, scheme: string, host: string, port: Option<nat>): string {
    scheme + "://" + OriginHost(net, host) + if port.Some? then ":" + net.decimal(port.value) else ""
  }

  predicate BareUrl(u: Url) {
    && u.username == "" && u.password.None? && u.query.None? && u.fragment.None?
    && (u.path == "/" || u.path == "/a2a" || u.path == "/a2a/")
  }

  function ValidateOrigin(net: Net, raw: string, allowPrivateHttp: bool): Result<PeerOrigin, UrlError> {
    var parsed := net.parse(raw);
    if parsed.None? then Err(InvalidUrl)
    else if !BareUrl(parsed.value) then Err(MutableUrlComponents)
    else if parsed.value.host.None? then Err(InvalidUrl)
    else
      var host := NormalHost(parsed.value.host.value);
      var scheme, port := parsed.value.scheme, parsed.value.port;
      if scheme == "https" || (scheme == "http" && HttpAllowed(net, host, allowPrivateHttp))
      then Ok(PeerOrigin(Print(net, scheme, host, port), scheme, host, port, allowPrivateHttp))
      else Err(DisallowedScheme)
  }

  /** The ranges by their prefixes: 10/8, 172.16/12, 192.168/16, fc00::/7 are private,
      169.254/16 and fe80::/10 link-local, 127/8 and ::1 loopback; link-local, loopback,
      unspecified and broadcast addresses are prohibited. */
  lemma RangesSay(a: nat, b: nat, c: nat, d: nat, s: seq<nat>)
    requires a < 256 && b < 256 && c < 256 && d < 256 && |s| == 8 && forall i :: 0 <= i < 8 ==> s[i] < 0x10000
    ensures IsPrivate(V4(a, b, c, d)) <==>
      a == 10 || (a == 172 && b / 16 == 1) || (a == 192 && b == 168) || a == 127
    ensures IsProhibited(V4(a, b, c, d)) <==>
      a == 127 || (a == 169 && b == 254) || a + b + c + d == 0 || a + b + c + d == 4 * 255
    ensures IsPrivate(V6(s)) <==> s[0] / 0x200 == 0xfc00 / 0x200 || s == [0, 0, 0, 0, 0, 0, 0] + [1]
    ensures IsProhibited(V6(s)) <==>
      s[0] / 0x40 == 0xfe80 / 0x40 || s == [0, 0, 0, 0, 0, 0, 0] + [1] || s == [0, 0, 0, 0, 0, 0, 0] + [0]
  {}

  /** An origin is accepted exactly when the text parses to a bare URL with a host whose
      scheme is https, or http for a literal loopback address or, if that was asked for,
      a literal private one; and what is wrong with it otherwise. */
  lemma OriginSays(net: Net, raw: string, allow: bool)
    ensures var u, r := net.parse(raw), ValidateOrigin(net, raw, allow);
      && (u.None? ==> r == Err(InvalidUrl))
      && (u.Some? ==>
           var v := u.value;
           if v.username != "" || v.password.Some? || v.query.Some? || v.fragment.Some?
              || v.path !in ["/", "/a2a", "/a2a/"] then r == Err(MutableUrlComponents)
           else if v.host.None? then r == Err(InvalidUrl)
           else
             var ip := net.ip(NormalHost(v.host.value));
             var local := ip.Some? && IsLoopback(ip.value);
             var near := ip.Some? && IsPrivate(ip.value) && allow;
             if v.scheme == "https" || (v.scheme == "http" && (local || near))
             then r.Ok? && r.value.scheme == v.scheme && r.value.host == NormalHost(v.host.value)
                  && r.value.port == v.port && r.value.allowPrivateHttp == allow
             else r == Err(DisallowedScheme))
  {}

  /** What is stored: scheme, host in brackets if it is an IPv6 literal, and port if the
      URL names one. */
  lemma StoredOriginSays(net: Net, raw: string, allow: bool)
    requires ValidateOrigin(net, raw, allow).Ok?
    ensures var o := ValidateOrigin(net, raw, allow).value;
      var ip := net.ip(o.host);
      var host := if ip.Some? && ip.value.V6? then "[" + o.host + "]" else o.host;
      o.origin == if o.port.Some? then o.scheme + "://" + host + (":" + net.decimal(o.port.value))
                  else o.scheme + "://" + host
  {
    var o := ValidateOrigin(net, raw, allow).value;
    assert o.scheme + "://" + OriginHost(net, o.host) + "" == o.scheme + "://" + OriginHost(net, o.host);
  }

  /** A host is stored without its brackets and in lower case. */
  lemma HostSays(host: string, inner: string)
    ensures host == "[" + inner + "]" ==> |NormalHost(host)| == |inner|
    ensures host == "[" + inner + "]" ==> forall i :: 0 <= i < |inner| ==> NormalHost(host)[i] == LowerChar(inner[i])
    ensures (host == "" || host[0] != '[') ==> NormalHost(host) == Lower(host)
  {
    assert ("[" + inner + "]")[1..|inner| + 1] == inner;
  }

  /** A resolution is refused when it names nothing or something it may not: an address
      other than the configured literal, or a prohibited one that is not a loopback
      literal. */
  lemma ResolutionSays(net: Net, o: PeerOrigin, ips: seq<Ip>)
    ensures var literal := net.ip(o.host);
      Resolve(net, o, ips).Ok? <==>
        ips != [] && forall ip :: ip in ips ==>
          if literal.Some? then ip == literal.value && (IsProhibited(ip) ==> IsLoopback(ip)) else !IsProhibited(ip)
    ensures Resolve(net, o, ips).Err? ==> Resolve(net, o, ips).error == ProhibitedDestination
  {}

  /** Parse-after-print for the URL parser: an origin printed from a parsed URL
      parses back to its scheme, host and port with nothing else, and a parsed
      host holds no brackets inside its own. */
  ghost predicate ParsesWhatItPrints(net: Net) {
    forall raw :: PrintsBack(net, raw)
  }

  ghost predicate PrintsBack(net: Net, raw: string) {
    var parsed := net.parse(raw);
    parsed.Some? && parsed.value.host.Some? && (parsed.value.scheme == "https" || parsed.value.scheme == "http") ==>
      var u := parsed.value;
      var host := NormalHost(u.host.value);
      && (host == "" || host[0] != '[')
      && net.parse(Print(net, u.scheme, host, u.port))
           == Some(Url(u.scheme, "", None, Some(OriginHost(net, host)), u.port, "/", None, None))
  }

  /** The assumption can be met by a parser that accepts something. */
  lemma SomeParserPrintsBack() returns (net: Net)
    ensures ParsesWhatItPrints(net) && ValidateOrigin(net, "https://a", false).Ok?
  {
    var url := Url("https", "", None, Some("a"), None, "/", None, None);
    net := Net(s => if s == "https://a" then Some(url) else None, s => None, n => "");
    assert NormalHost("a") == "a";
    assert Print(net, "https", "a", None) == "https://a";
    forall raw ensures PrintsBack(net, raw) {
      if raw == "https://a" { assert net.parse(raw) == Some(url); } else { assert net.parse(raw) == None; }
    }
  }

  lemma NormalHostIsStable(net: Net, host: string)
    requires Lower(host) == host && (host == "" || host[0] != '[')
    ensures NormalHost(OriginHost(net, host)) == host
  {
    assert ("[" + host + "]")[1..|host| + 1] == host;
  }

  /** Normalising an origin twice gives what normalising it once gives. */
  lemma OriginRevalidatesToItself(net: Net, raw: string, allow: bool)
    requires ParsesWhatItPrints(net) && ValidateOrigin(net, raw, allow).Ok?
    ensures var o := ValidateOrigin(net, raw, allow).value; ValidateOrigin(net, o.origin, allow) == Ok(o)
  {
    assert PrintsBack(net, raw);
    var u := net.parse(raw).value;
    var host := NormalHost(u.host.value);
    assert Lower(host) == host;
    NormalHostIsStable(net, host);
  }

  // --------------------------------------------------------------- resolution

  predicate AllowsIp(net: Net, o: PeerOrigin, ip: Ip) {
    var configured := net.ip(o.host);
    if configured.Some? then ip == configured.value && (!IsProhibited(ip) || IsLoopback(ip)) else !IsProhibited(ip)
  }

  datatype Resolved = Resolved(endpoint: PeerOrigin, ips: set<Ip>)

  function Resolve(net: Net, o: PeerOrigin, ips: seq<Ip>): Result<Resolved, UrlError> {
    if ips == [] || exists ip :: ip in ips && !AllowsIp(net, o, ip) then Err(ProhibitedDestination)
    else Ok(Resolved(o, set ip | ip in ips))
  }

  function RejectRebind(net: Net, r: Resolved, ips: seq<Ip>): Result<(), UrlError> {
    var next := Resolve(net, r.endpoint, ips);
    if next.Err? then Err(next.error)
    else if next.value.ips != r.ips then Err(DnsRebinding) else Ok(())
  }

  /** After trust, a resolution is accepted exactly when it names the same
      addresses; so no address that is accepted later is prohibited, save a
      loopback literal that was itself configured. */
  lemma RebindAcceptedExactlyWhenSame(net: Net, o: PeerOrigin, first: seq<Ip>, later: seq<Ip>)
    requires Resolve(net, o, first).Ok?
    ensures RejectRebind(net, Resolve(net, o, first).value, later).Ok?
            <==> (set ip | ip in later) == (set ip | ip in first)
    ensures forall ip :: ip in first && IsProhibited(ip) ==> IsLoopback(ip) && net.ip(o.host) == Some(ip)
  {
    var a, b := set ip | ip in first, set ip | ip in later;
    if a == b {
      assert first[0] in a;
      assert later != [];
      forall ip | ip in later ensures AllowsIp(net, o, ip) { assert ip in b; }
    }
  }
}
