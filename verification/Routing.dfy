// Which service an HTTP or HTTPS request is for: the host derivation and lookup of
// crates/ongrok-relay-server/src/ingress.rs.
module Routing {
  import opened Basics
  import opened Types
  import opened Validation
  import opened Registry

  // ---- From a Host header to a lookup key ----

  // `trim_end_matches('.')`.
  function TrimDots(s: string): (r: string)
    ensures r <= s && (r == [] || r[|r| - 1] != '.')
    ensures forall i | |r| <= i < |s| :: s[i] == '.'
  {
    if s != [] && s[|s| - 1] == '.' then TrimDots(s[..|s| - 1]) else s
  }

  // `split(':').next()`.
  function BeforeColon(s: string): (r: string)
    ensures r <= s && ':' !in r
    ensures |r| < |s| ==> s[|r|] == ':'
  {
    if s == [] || s[0] == ':' then [] else [s[0]] + BeforeColon(s[1..])
  }

  function LowerChar(c: char): char {
    if 'A' <= c <= 'Z' then c + 32 as char else c
  }

  // `to_ascii_lowercase`.
  function Lower(s: string): (r: string)
    ensures |r| == |s|
  {
    seq(|s|, i requires 0 <= i < |s| => LowerChar(s[i]))
  }

  predicate EqIgnoreCase(a: string, b: string) {
    |a| == |b| && forall i | 0 <= i < |a| :: LowerChar(a[i]) == LowerChar(b[i])
  }

  function Hostname(host: string): string {
    BeforeColon(TrimDots(host))
  }

  // ---- Routing ----

  datatype Route = Api | Forward(id: Uuid) | MissingHost | UnknownHost

  predicate IsApiHost(cfg: Config, host: string) {
    cfg.httpDomain.Some? && EqIgnoreCase(Hostname(host), "api." + cfg.httpDomain.value)
  }

  predicate Serves(s: ServiceDefinition, protocol: Protocol, host: string) {
    s.protocol == protocol && s.publicHost == Some(host)
  }

  // `values().find(..)` along some iteration order.
  function Find(t: Table, order: seq<Uuid>, protocol: Protocol, host: string): Option<Uuid> {
    if order == [] then None
    else if order[0] in t && Serves(t[order[0]], protocol, host) then Some(order[0])
    else Find(t, order[1..], protocol, host)
  }

  // The readable Host header, or else the authority of the request target.
  function RouteRequest(
    cfg: Config, t: Table, order: seq<Uuid>, protocol: Protocol, header: Option<string>, authority: Option<string>): Route
  {
    var host := if header.Some? then header else authority;
    if host.None? then MissingHost
    else if IsApiHost(cfg, host.value) then Api
    else
      match Find(t, order, protocol, Lower(Hostname(host.value)))
      case None => UnknownHost
      case Some(id) => Forward(id)
  }

  ghost predicate Enumerates(order: seq<Uuid>, t: Table) {
    forall id :: id in order <==> id in t
  }

  // ---- Hosts identify services ----

  // Names contain no dot, so what precedes a host's first dot is the name, whatever the domain.
  lemma NamePartUnique(a: string, b: string, host: string)
    requires ValidServiceName(a) && ValidServiceName(b)
    requires a + "." <= host && b + "." <= host
    ensures a == b
  {
    assert host[|a|] == '.' by { assert (a + ".")[|a|] == '.'; }
    assert host[|b|] == '.' by { assert (b + ".")[|b|] == '.'; }
    assert a == host[..|a|] && b == host[..|b|];
    assert forall i | 0 <= i < |a| :: a[i] in a && host[i] == a[i];
    assert forall i | 0 <= i < |b| :: b[i] in b && host[i] == b[i];
  }

  // Two HTTP or HTTPS services with one host are the same service, though the hosts may stem from
  // different domains and the protocols may differ.
  lemma HostsUnambiguous(cfg: Config, t: Table, a: Uuid, b: Uuid)
    requires ValidTable(cfg, t) && a in t && b in t
    requires !t[a].protocol.Tcp? && !t[b].protocol.Tcp? && t[a].publicHost == t[b].publicHost
    ensures a == b
  {
    NamePartUnique(t[a].serviceName, t[b].serviceName, t[a].publicHost.value);
  }

  lemma {:induction false} FindFinds(t: Table, order: seq<Uuid>, protocol: Protocol, host: string)
    ensures var r := Find(t, order, protocol, host);
            && (r.Some? ==> r.value in order && r.value in t && Serves(t[r.value], protocol, host))
            && (r.None? ==> forall id | id in order && id in t :: !Serves(t[id], protocol, host))
  {
    if order != [] {
      FindFinds(t, order[1..], protocol, host);
      assert forall id | id in order :: id == order[0] || id in order[1..];
    }
  }

  // Whatever the iteration order, the lookup gives the one service with that protocol and host.
  lemma FindIff(cfg: Config, t: Table, order: seq<Uuid>, protocol: Protocol, host: string, id: Uuid)
    requires ValidTable(cfg, t) && Enumerates(order, t) && !protocol.Tcp?
    ensures Find(t, order, protocol, host) == Some(id) <==> id in t && Serves(t[id], protocol, host)
  {
    FindFinds(t, order, protocol, host);
    var r := Find(t, order, protocol, host);
    if id in t && Serves(t[id], protocol, host) {
      HostsUnambiguous(cfg, t, id, r.value);
    }
  }

  lemma RouteIgnoresOrder(
    cfg: Config, t: Table, order: seq<Uuid>, other: seq<Uuid>, protocol: Protocol, header: Option<string>, authority: Option<string>)
    requires ValidTable(cfg, t) && Enumerates(order, t) && Enumerates(other, t) && !protocol.Tcp?
    ensures RouteRequest(cfg, t, order, protocol, header, authority) == RouteRequest(cfg, t, other, protocol, header, authority)
  {
    var host := if header.Some? then header else authority;
    if host.Some? {
      var key := Lower(Hostname(host.value));
      FindFinds(t, order, protocol, key);
      FindFinds(t, other, protocol, key);
      var a, b := Find(t, order, protocol, key), Find(t, other, protocol, key);
      if a.Some? && b.Some? { HostsUnambiguous(cfg, t, a.value, b.value); }
    }
  }

  // The Host header decides if it can be read, and otherwise the authority of the request target.
  lemma HeaderBeforeAuthority(
    cfg: Config, t: Table, order: seq<Uuid>, protocol: Protocol, header: Option<string>, authority: Option<string>, host: string)
    ensures header == Some(host) || (header == None && authority == Some(host)) ==>
              RouteRequest(cfg, t, order, protocol, header, authority) == RouteRequest(cfg, t, order, protocol, Some(host), None)
    ensures RouteRequest(cfg, t, order, protocol, header, authority) == MissingHost <==> header == None && authority == None
  {
  }

  // The server keeps requests for "api." under its domain, in any ASCII case, for itself; any other goes to
  // the service with its protocol and host, and nowhere if there is none.
  lemma RouteOutcomes(cfg: Config, t: Table, order: seq<Uuid>, protocol: Protocol, host: string)
    requires ValidTable(cfg, t) && Enumerates(order, t) && !protocol.Tcp?
    ensures var r := RouteRequest(cfg, t, order, protocol, Some(host), None);
            var own := cfg.httpDomain.Some? && Lower(Hostname(host)) == Lower("api." + cfg.httpDomain.value);
            && (r == Api <==> own)
            && (r == UnknownHost <==>
                  !own && forall id | id in t :: !(t[id].protocol == protocol && t[id].publicHost == Some(Lower(Hostname(host)))))
            && forall id :: r == Forward(id) <==>
                  !own && id in t && t[id].protocol == protocol && t[id].publicHost == Some(Lower(Hostname(host)))
  {
    var key := Lower(Hostname(host));
    if cfg.httpDomain.Some? {
      CaselessEqual(Hostname(host), "api." + cfg.httpDomain.value);
    }
    FindFinds(t, order, protocol, key);
    forall id: Uuid ensures Find(t, order, protocol, key) == Some(id) <==> id in t && Serves(t[id], protocol, key) {
      FindIff(cfg, t, order, protocol, key, id);
    }
  }

  lemma CaselessEqual(a: string, b: string)
    ensures EqIgnoreCase(a, b) <==> Lower(a) == Lower(b)
  {
    if Lower(a) == Lower(b) {
      assert |a| == |Lower(a)| == |b|;
      forall i | 0 <= i < |a| ensures LowerChar(a[i]) == LowerChar(b[i]) {
        assert Lower(a)[i] == Lower(b)[i];
      }
    }
    if EqIgnoreCase(a, b) {
      assert Lower(a) == Lower(b);
    }
  }

  // Only the twenty-six letters change.
  lemma LowerChars(c: char)
    ensures LowerChar(c) != c <==> c in "ABCDEFGHIJKLMNOPQRSTUVWXYZ"
    ensures LowerChar('A') == 'a' && LowerChar('Q') == 'q' && LowerChar('Z') == 'z'
  {
  }

  // ---- Which Host headers reach a host ----

  // What may follow a name in a Host header: a colon and anything, or trailing dots, which are trimmed
  // off together with any the name itself ends in.
  predicate HostTail(name: string, tail: string) {
    || (tail != [] && tail[0] == ':')
    || ((forall c | c in tail :: c == '.') && (name == [] || name[|name| - 1] != '.'))
  }

  lemma {:induction false} DotsTrimmed(host: string, name: string)
    requires name <= host && (name == [] || name[|name| - 1] != '.')
    requires forall i | |name| <= i < |host| :: host[i] == '.'
    ensures TrimDots(host) == name
    decreases |host|
  {
    if |name| < |host| {
      DotsTrimmed(host[..|host| - 1], name);
    } else {
      assert host == name;
    }
  }

  lemma HostnameIff(host: string, name: string)
    requires ':' !in name
    ensures Hostname(host) == name <==> name <= host && HostTail(name, host[|name|..])
  {
    var trimmed := TrimDots(host);
    var r := BeforeColon(trimmed);
    if r == name {
      if |r| == |trimmed| {
        assert forall i | |name| <= i < |host| :: host[i] == '.';
      } else {
        assert host[|name|] == ':';
      }
    }
    if name <= host && HostTail(name, host[|name|..]) {
      var tail := host[|name|..];
      assert forall i | 0 <= i < |tail| :: tail[i] in tail && host[|name| + i] == tail[i];
      if tail != [] && tail[0] == ':' {
        assert host[|name|] == ':' && |name| < |trimmed| && trimmed[|name|] == ':';
      } else {
        DotsTrimmed(host, name);
      }
      ColonFree(trimmed, name);
    }
  }

  lemma ColonFree(s: string, name: string)
    requires name <= s && ':' !in name && (|name| < |s| ==> s[|name|] == ':')
    ensures BeforeColon(s) == name
  {
    var r := BeforeColon(s);
    assert forall i | 0 <= i < |name| :: name[i] in name && s[i] == name[i];
    assert forall i | 0 <= i < |r| :: r[i] in r && s[i] == r[i];
  }

  // A spelling of a host without upper-case letters and colons: its letters in any ASCII case, and a tail.
  predicate Spells(host: string, h: string) {
    && Lower(h) == h && ':' !in h
    && |h| <= |host| && EqIgnoreCase(host[..|h|], h) && HostTail(h, host[|h|..])
  }

  lemma LowerEq(a: string, h: string)
    ensures Lower(h) == h ==> (Lower(a) == h <==> EqIgnoreCase(a, h))
  {
    if Lower(h) == h {
      assert forall i | 0 <= i < |h| :: Lower(h)[i] == LowerChar(h[i]) == h[i];
      if EqIgnoreCase(a, h) {
        assert forall i | 0 <= i < |h| :: Lower(a)[i] == h[i];
      }
      if Lower(a) == h {
        assert forall i | 0 <= i < |h| :: Lower(a)[i] == h[i];
      }
    }
  }

  lemma LowerLast(a: string, h: string)
    requires EqIgnoreCase(a, h)
    ensures forall tail :: HostTail(a, tail) <==> HostTail(h, tail)
    ensures ':' !in a <==> ':' !in h
  {
    assert a != [] ==> LowerChar(a[|a| - 1]) == LowerChar(h[|h| - 1]);
    forall i | 0 <= i < |a| ensures a[i] == ':' <==> h[i] == ':' {
      assert LowerChar(a[i]) == LowerChar(h[i]);
    }
  }

  // Exactly the spellings of a host lead to it.
  lemma SpellingIff(host: string, h: string)
    ensures Lower(Hostname(host)) == h <==> Spells(host, h)
  {
    var name := Hostname(host);
    if Lower(name) == h {
      ReachedIsPlain(name, h);
      LowerEq(name, h);
      LowerLast(name, h);
      HostnameIff(host, name);
      assert host[..|h|] == name;
    }
    if Spells(host, h) {
      var spelled := host[..|h|];
      LowerLast(spelled, h);
      HostnameIff(host, spelled);
      LowerEq(spelled, h);
    }
  }

  lemma ReachedIsPlain(name: string, h: string)
    requires ':' !in name && Lower(name) == h
    ensures Lower(h) == h && ':' !in h
  {
    forall i | 0 <= i < |h| ensures h[i] != ':' && LowerChar(h[i]) == h[i] {
      assert h[i] == Lower(name)[i] == LowerChar(name[i]) && name[i] in name;
    }
  }

  // A registered host can be reached by some Host header exactly if it has no upper-case letter and no
  // colon: other domains are accepted by the configuration but never routed.
  lemma ReachableIff(h: string)
    ensures (exists host: string :: Lower(Hostname(host)) == h) <==> Lower(h) == h && ':' !in h
  {
    if host: string :| Lower(Hostname(host)) == h {
      ReachedIsPlain(Hostname(host), h);
    }
    if Lower(h) == h && ':' !in h {
      var host := h + ":";
      assert host[|host| - 1] == ':';
      assert TrimDots(host) == host;
      ColonFree(host, h);
      assert Lower(Hostname(host)) == h;
    }
  }

  // `char::is_whitespace`.
  predicate WhiteSpace(c: char) {
    || 9 <= c as int <= 13 || c == ' ' || c as int in {0x85, 0xA0, 0x1680, 0x2028, 0x2029, 0x202F, 0x205F, 0x3000}
    || 0x2000 <= c as int <= 0x200A
  }

  // What the configuration asks of the HTTP domain.
  predicate DomainAccepted(domain: string) {
    domain != [] && |Utf8.Encode(domain)| <= 253 && forall c | c in domain :: !WhiteSpace(c)
  }

  predicate PlainChar(c: char) {
    LowerChar(c) == c && c != ':'
  }

  lemma PlainText(s: string)
    ensures Lower(s) == s && ':' !in s <==> forall i | 0 <= i < |s| :: PlainChar(s[i])
  {
    if Lower(s) == s && ':' !in s {
      forall i | 0 <= i < |s| ensures PlainChar(s[i]) {
        assert Lower(s)[i] == s[i] && s[i] in s;
      }
    }
  }

  lemma PlainJoin(name: string, domain: string)
    requires ValidServiceName(name)
    ensures (forall i | 0 <= i < |name + "." + domain| :: PlainChar((name + "." + domain)[i]))
            <==> forall i | 0 <= i < |domain| :: PlainChar(domain[i])
  {
    var h := name + "." + domain;
    forall i | 0 <= i < |name| ensures PlainChar(h[i]) {
      assert h[i] in name;
    }
    assert forall i | 0 <= i < |domain| :: h[|name| + 1 + i] == domain[i];
    assert forall i | |name| < i < |h| :: h[i] == domain[i - |name| - 1];
  }

  lemma DomainLimits(n: nat)
    ensures DomainAccepted(seq(n, i => 'a')) <==> 1 <= n <= 253
    ensures !DomainAccepted("a b") && !DomainAccepted("a\tb") && DomainAccepted("a.b:1")
  {
    AsciiLength(seq(n, i => 'a'));
    AsciiLength("a.b:1");
    assert "a b"[1] in "a b" && "a\tb"[1] in "a\tb";
  }

  // The hosts of a domain can be reached exactly if the domain has no upper-case letter and no colon.
  lemma DomainReachableIff(name: string, domain: string)
    requires ValidServiceName(name)
    ensures (exists host: string :: Lower(Hostname(host)) == name + "." + domain) <==> Lower(domain) == domain && ':' !in domain
  {
    ReachableIff(name + "." + domain);
    PlainText(name + "." + domain);
    PlainText(domain);
    PlainJoin(name, domain);
  }

  lemma NewHttpAdmitted(cfg: Config, t: Table, req: ServiceDefinition, domain: string)
    requires cfg.httpDomain == Some(domain) && !req.protocol.Tcp?
    requires ValidServiceName(req.serviceName) && ValidMetadata(req.metadata)
    requires forall id | id in t :: t[id].serviceName != req.serviceName
    ensures Admit(cfg, t, req, req.nodeId) == Ok(req.(publicHost := Some(req.serviceName + "." + domain), publicPort := None))
  {
    assert Owned(t, req.nodeId, req.serviceName) == {};
  }

  // With such a domain services are registered all the same, and no Host header at all leads to them.
  lemma RegisteredButUnrouted(cfg: Config, t: Table, req: ServiceDefinition, domain: string)
    requires cfg.httpDomain == Some(domain) && (Lower(domain) != domain || ':' in domain)
    requires !req.protocol.Tcp? && ValidServiceName(req.serviceName) && ValidMetadata(req.metadata)
    requires forall id | id in t :: t[id].serviceName != req.serviceName
    ensures var r := Admit(cfg, t, req, req.nodeId);
            && r.Ok? && r.value.publicHost.Some?
            && forall host: string :: Lower(Hostname(host)) != r.value.publicHost.value
  {
    NewHttpAdmitted(cfg, t, req, domain);
    DomainReachableIff(req.serviceName, domain);
  }

  // The configuration accepts one.
  lemma MixedCaseDomainAccepted(domain: string)
    requires domain == "Example.test"
    ensures DomainAccepted(domain) && Lower(domain) != domain
  {
    AsciiLength(domain);
    assert Lower(domain)[0] == 'e';
  }

  // ---- Routing is complete ----

  lemma ApiNameIff(name: string, domain: string)
    requires ValidServiceName(name)
    ensures name + "." + domain == "api." + domain <==> name == "api"
  {
    if name + "." + domain == "api." + domain {
      assert |name| == 3;
      assert name == (name + "." + domain)[..3] == ("api." + domain)[..3] == "api";
    }
  }

  // A service under the current domain, whatever that is, gets exactly the requests that spell its host,
  // in any order of the table, unless it is called "api": that host belongs to the server itself.
  lemma RoutedIff(cfg: Config, t: Table, order: seq<Uuid>, id: Uuid, host: string, authority: Option<string>)
    requires ValidTable(cfg, t) && Enumerates(order, t) && id in t && !t[id].protocol.Tcp?
    requires cfg.httpDomain.Some? && t[id].publicHost == Some(t[id].serviceName + "." + cfg.httpDomain.value)
    ensures RouteRequest(cfg, t, order, t[id].protocol, Some(host), authority) == Forward(id)
            <==> t[id].serviceName != "api" && Spells(host, t[id].publicHost.value)
  {
    var h := t[id].publicHost.value;
    SpellingIff(host, h);
    FindIff(cfg, t, order, t[id].protocol, Lower(Hostname(host)), id);
    if Spells(host, h) {
      ApiHostIff(cfg, t[id].serviceName, host);
    }
  }

  // A request that spells a service's host is taken for the server's own exactly if the name is "api".
  lemma ApiHostIff(cfg: Config, name: string, host: string)
    requires ValidServiceName(name) && cfg.httpDomain.Some? && Lower(Hostname(host)) == name + "." + cfg.httpDomain.value
    ensures IsApiHost(cfg, host) <==> name == "api"
  {
    var domain := cfg.httpDomain.value;
    var h, api := name + "." + domain, "api." + domain;
    ReachedIsPlain(Hostname(host), h);
    PlainText(h);
    PlainJoin(name, domain);
    PlainJoin("api", domain);
    assert "api" + "." + domain == api;
    PlainText(api);
    LowerEq(Hostname(host), api);
    ApiNameIff(name, domain);
  }

  // Such a service: it is admitted like any other, and requests for its host go to the server's own API,
  // or nowhere, but never to the service.
  lemma ApiServiceNeverRouted(cfg: Config, t: Table, req: ServiceDefinition, order: seq<Uuid>, host: string, authority: Option<string>)
    requires ValidTable(cfg, t) && cfg.httpDomain.Some? && !req.protocol.Tcp? && req.serviceName == "api" && ValidMetadata(req.metadata)
    requires (forall id | id in t :: t[id].serviceName != "api") && req.serviceId !in t
    requires Enumerates(order, t[req.serviceId := Admitted(cfg, req)])
    ensures var after := t[req.serviceId := Admitted(cfg, req)];
            && Admit(cfg, t, req, req.nodeId) == Ok(Admitted(cfg, req)) && ValidTable(cfg, after)
            && RouteRequest(cfg, after, order, req.protocol, Some(host), authority) != Forward(req.serviceId)
            && (Lower(Hostname(host)) == "api." + cfg.httpDomain.value ==>
                  RouteRequest(cfg, after, order, req.protocol, Some(host), authority) == Api)
  {
    var domain := cfg.httpDomain.value;
    var after := t[req.serviceId := Admitted(cfg, req)];
    NewHttpAdmitted(cfg, t, req, domain);
    AdmitKeepsTableValid(cfg, t, req, req.nodeId);
    assert "api" + "." + domain == "api." + domain;
    RoutedIff(cfg, after, order, req.serviceId, host, authority);
    if Lower(Hostname(host)) == "api." + domain {
      ApiHostIff(cfg, "api", host);
    }
  }

  function Admitted(cfg: Config, req: ServiceDefinition): ServiceDefinition
    requires cfg.httpDomain.Some?
  {
    req.(publicHost := Some(req.serviceName + "." + cfg.httpDomain.value), publicPort := None)
  }

  // A dot in front of the port is a spelling of a host only if that ends in a dot.
  lemma DotBeforePortNotRouted(h: string, port: string)
    requires h == [] || h[|h| - 1] != '.'
    ensures Lower(Hostname(h + ".:" + port)) != h
  {
    var host := h + ".:" + port;
    SpellingIff(host, h);
    var tail := host[|h|..];
    assert tail == ".:" + port;
    assert tail[0] == '.' && tail[1] in tail;
  }

  // The hosts of a domain with a trailing dot are reached only with a colon after them: the dot of a bare
  // host is trimmed off.
  lemma TrailingDotNeedsColon(host: string, h: string)
    requires h != [] && h[|h| - 1] == '.'
    ensures Lower(Hostname(host)) == h <==>
              Lower(h) == h && ':' !in h && |h| < |host| && EqIgnoreCase(host[..|h|], h) && host[|h|] == ':'
    ensures Lower(Hostname(h)) != h
  {
    SpellingIff(host, h);
    SpellingIff(h, h);
    if |h| <= |host| {
      assert host[|h|..] != [] ==> host[|h|..][0] == host[|h|];
    }
  }
}
