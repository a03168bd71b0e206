/**
 The routing rule engine: an ordered table, first match wins, a default for the rest.
 Compilation sorts every single-dimension rule into a per-dimension index that answers with
 the least matching ordinal; and/or/not rules become evaluators. The reference meaning is the
 top-down scan of the table.
 */
module Rules {
  import opened Basics

  type Addr = nat
  type Prefix = nat
  type SetId = nat

  /** The library and data-file predicates the engine calls, as arbitrary functions:
      lower-casing, 4-in-6 unmapping, CIDR parsing and containment, IP and domain sets. */
  datatype World = World(
    lower: string -> string,
    unmap: Addr -> Addr,
    parsePrefix: string -> Option<Prefix>,
    contains: (Prefix, Addr) -> bool,
    inIPSet: (SetId, Addr) -> bool,
    inDomainSet: (SetId, string) -> bool)

  datatype Rule = Rule(
    domain: seq<string>, domainSuffix: seq<string>, domainKeyword: seq<string>,
    ipCIDR: seq<string>, port: seq<nat>, network: seq<string>, protocol: seq<string>,
    geoIP: seq<SetId>, geoSite: seq<SetId>,
    processName: seq<string>, processPath: seq<string>,
    op: string, sub: seq<Rule>, neg: bool, to: string)

  datatype Process = Process(name: string, path: string)

  /** A connection to route. `answers(n)` is what the process finder replies to its `n`-th call. */
  datatype Conn = Conn(
    fqdn: string, addr: Option<Addr>, port: nat, ips: seq<Addr>,
    network: string, proto: string,
    hasFinder: bool, srcValid: bool, answers: nat -> Option<Process>)

  function TrimSuffixDot(d: string): string {
    if |d| > 0 && d[|d| - 1] == '.' then d[..|d| - 1] else d
  }

  function TrimPrefixDot(d: string): string {
    if |d| > 0 && d[0] == '.' then d[1..] else d
  }

  function NormDomain(w: World, d: string): string {
    w.lower(TrimSuffixDot(d))
  }

  function NormSuffix(w: World, s: string): string {
    NormDomain(w, TrimPrefixDot(s))
  }

  predicate HasSuffix(host: string, s: string) {
    |s| <= |host| && host[|host| - |s|..] == s
  }

  predicate OccursAt(host: string, kw: string, i: nat) {
    i + |kw| <= |host| && host[i..i + |kw|] == kw
  }

  predicate Contains(host: string, kw: string) {
    exists i :: 0 <= i <= |host| && OccursAt(host, kw, i)
  }

  /** `host == s || strings.HasSuffix(host, "."+s)` */
  predicate SuffixHit(host: string, s: string) {
    host == s || HasSuffix(host, "." + s)
  }

  /** Addresses for the IP dimensions: the destination itself, or what the name resolved to. */
  function IpSet(w: World, c: Conn): seq<Addr> {
    if c.fqdn == "" && c.addr.Some? then [w.unmap(c.addr.value)] else c.ips
  }

  function DimCount(r: Rule): nat {
    (if |r.domain| > 0 then 1 else 0) + (if |r.domainSuffix| > 0 then 1 else 0)
    + (if |r.domainKeyword| > 0 then 1 else 0) + (if |r.ipCIDR| > 0 then 1 else 0)
    + (if |r.port| > 0 then 1 else 0) + (if |r.network| > 0 then 1 else 0)
    + (if |r.protocol| > 0 then 1 else 0) + (if |r.geoIP| > 0 then 1 else 0)
    + (if |r.geoSite| > 0 then 1 else 0) + (if |r.processName| > 0 then 1 else 0)
    + (if |r.processPath| > 0 then 1 else 0)
  }

  /** The process behind the connection, as the first finder call reports it. */
  function ProcessOf(c: Conn): Option<Process> {
    if c.hasFinder && c.srcValid then c.answers(0) else None
  }

  // ---- Meaning of a rule ----

  predicate DomainHit(w: World, r: Rule, host: string) {
    || (exists d :: d in r.domain && host == NormDomain(w, d))
    || (exists s :: s in r.domainSuffix && SuffixHit(host, NormSuffix(w, s)))
    || (exists k :: k in r.domainKeyword && Contains(host, w.lower(k)))
    || (exists g :: g in r.geoSite && w.inDomainSet(g, host))
  }

  predicate CidrHit(w: World, cc: string, ip: Addr) {
    w.parsePrefix(cc).Some? && w.contains(w.parsePrefix(cc).value, ip)
  }

  predicate AddrHit(w: World, r: Rule, ip: Addr) {
    || (exists cc :: cc in r.ipCIDR && CidrHit(w, cc, ip))
    || (exists g :: g in r.geoIP && w.inIPSet(g, ip))
  }

  predicate ProcessHit(r: Rule, p: Option<Process>) {
    p.Some? && (p.value.name in r.processName || p.value.path in r.processPath)
  }

  /** `matchLeaf` */
  predicate LeafHit(w: World, r: Rule, c: Conn) {
    || (c.fqdn != "" && DomainHit(w, r, NormDomain(w, c.fqdn)))
    || (exists ip :: ip in IpSet(w, c) && AddrHit(w, r, ip))
    || c.port in r.port
    || (c.network != "" && c.network in r.network)
    || (c.proto != "" && c.proto in r.protocol)
    || ProcessHit(r, ProcessOf(c))
  }

  /** A rule, read directly: leaves by `LeafHit`, `and`/`or` over the sub-rules, `neg` negates. */
  predicate Hit(w: World, r: Rule, c: Conn) {
    if r.op == "" then LeafHit(w, r, c)
    else
      var inner := if r.op == "and" then forall i :: 0 <= i < |r.sub| ==> Hit(w, r.sub[i], c)
                   else exists i :: 0 <= i < |r.sub| && Hit(w, r.sub[i], c);
      if r.neg then !inner else inner
  }

  /** The reference: scan the table from the top. */
  function FirstMatch(w: World, rules: seq<Rule>, def: string, c: Conn, i: nat): string
    requires i <= |rules|
    decreases |rules| - i
  {
    if i == |rules| then def
    else if Hit(w, rules[i], c) then rules[i].to
    else FirstMatch(w, rules, def, c, i + 1)
  }

  // ---- Accepted tables ----

  predicate ValidComposite(r: Rule) {
    && (r.op == "and" || r.op == "or")
    && |r.sub| > 0
    && DimCount(r) == 0
    && forall i :: 0 <= i < |r.sub| ==>
         && r.sub[i].to == ""
         && if r.sub[i].op != "" then ValidComposite(r.sub[i]) else DimCount(r.sub[i]) == 1
  }

  predicate Accepted(w: World, r: Rule) {
    && r.to != ""
    && if r.op != "" then ValidComposite(r)
       else
         && DimCount(r) == 1
         && (forall cc :: cc in r.ipCIDR ==> w.parsePrefix(cc).Some?)
         && (forall nw :: nw in r.network ==> nw == "tcp" || nw == "udp")
  }

  predicate UsesIP(r: Rule) {
    |r.ipCIDR| > 0 || |r.geoIP| > 0 || exists i :: 0 <= i < |r.sub| && UsesIP(r.sub[i])
  }
}
