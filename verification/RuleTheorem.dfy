/**
 First match: the compiled engine routes every connection as the top-down scan does.

 The indexes lower-case protocol names and never look up an empty domain suffix, so a table is
 routed as its indexed reading. On the connections the program routes, whose sniffed protocol is
 lower case, a leaf rule is read as written exactly when it has no empty suffix and lists the lower
 case of every protocol name it lists.
 */
module RuleTheorem {
  import opened Basics
  import opened Rules
  import opened RuleEngine
  import opened RuleRouting

  ghost function NonEmptySuffixes(w: World, ss: seq<string>): (r: seq<string>)
    ensures forall s :: s in r <==> s in ss && NormSuffix(w, s) != ""
    ensures (forall s :: s in ss ==> NormSuffix(w, s) != "") ==> r == ss
  {
    if ss == [] then []
    else
      assert ss == [ss[0]] + ss[1..];
      (if NormSuffix(w, ss[0]) != "" then [ss[0]] else []) + NonEmptySuffixes(w, ss[1..])
  }

  /** The rule as the indexes see it. */
  ghost function AsIndexed(w: World, r: Rule): Rule {
    if r.op != "" then r
    else r.(domainSuffix := NonEmptySuffixes(w, r.domainSuffix), protocol := MapSeq(r.protocol, w.lower))
  }

  ghost function AsIndexedAll(w: World, rules: seq<Rule>): seq<Rule> {
    seq(|rules|, j requires 0 <= j < |rules| => AsIndexed(w, rules[j]))
  }

  /** No empty suffix, and with each protocol name its lower case. */
  ghost predicate Plain(w: World, r: Rule) {
    r.op == "" ==>
      && (forall s :: s in r.domainSuffix ==> NormSuffix(w, s) != "")
      && (forall p :: p in r.protocol ==> w.lower(p) in r.protocol)
  }

  /** The sniffed protocol is lower case, as all names of `SniffProto` are. */
  ghost predicate Sniffed(w: World, c: Conn) {
    w.lower(c.proto) == c.proto
  }

  /** A plain rule on a sniffed connection, or on any connection when its protocol names are all
      lower case. */
  ghost predicate PlainFor(w: World, r: Rule, c: Conn) {
    Plain(w, r) && (Sniffed(w, c) || forall p :: p in r.protocol ==> w.lower(p) == p)
  }

  lemma PlainHit(w: World, r: Rule, c: Conn)
    requires PlainFor(w, r, c)
    ensures Hit(w, AsIndexed(w, r), c) <==> Hit(w, r, c)
  {
    if r.op == "" {
      IndexedLeaf(w, r, c);
      assert (exists d :: d in r.protocol && w.lower(d) == c.proto) <==> c.proto in r.protocol;
    }
  }

  // ---- A row is hit when its rule is ----

  lemma HostKeysHit(w: World, r: Rule, host: string)
    ensures (exists k :: HasKey(w, r, k) && k in HostKeys(host)) <==>
            || (exists d :: d in r.domain && host == NormDomain(w, d))
            || (exists s :: s in r.domainSuffix && NormSuffix(w, s) != "" && SuffixHit(host, NormSuffix(w, s)))
  {
    forall s: string {
      SuffixKeysAreHits(host, s);
    }
    if k :| HasKey(w, r, k) && k in HostKeys(host) {
      assert k.Exact? || k.Suffix?;
    }
    if d :| d in r.domain && host == NormDomain(w, d) {
      assert HasKey(w, r, Exact(host)) && Exact(host) in HostKeys(host);
    }
    if s :| s in r.domainSuffix && NormSuffix(w, s) != "" && SuffixHit(host, NormSuffix(w, s)) {
      assert HasKey(w, r, Suffix(NormSuffix(w, s)));
    }
  }

  ghost predicate PlainKeyHit(w: World, r: Rule, c: Conn) {
    || c.port in r.port
    || (c.network != "" && c.network in r.network)
    || (c.proto != "" && exists d :: d in r.protocol && w.lower(d) == c.proto)
  }

  lemma QueriedKeysHit(w: World, r: Rule, c: Conn)
    ensures (exists k :: HasKey(w, r, k) && k in QueriedSet(w, c)) <==>
            || PlainKeyHit(w, r, c)
            || (c.fqdn != "" && exists k :: HasKey(w, r, k) && k in HostKeys(NormDomain(w, c.fqdn)))
  {
    assert c.port in r.port ==> HasKey(w, r, Port(c.port));
    assert c.network in r.network ==> HasKey(w, r, Network(c.network));
    assert (exists d :: d in r.protocol && w.lower(d) == c.proto) ==> HasKey(w, r, Protocol(c.proto));
  }

  lemma ProcessKeysHit(w: World, r: Rule, p: Option<Process>)
    ensures (exists k :: HasKey(w, r, k) && k in ProcessKeys(p)) <==> ProcessHit(r, p)
  {
    if p.Some? {
      assert p.value.name in r.processName ==> HasKey(w, r, ProcName(p.value.name));
      assert p.value.path in r.processPath ==> HasKey(w, r, ProcPath(p.value.path));
    }
  }

  lemma DomainProbesHit(w: World, r: Rule, host: string)
    ensures (exists p :: HasProbe(w, r, p) && DomainProbe(w, p, host)) <==>
            || (exists k :: k in r.domainKeyword && Contains(host, w.lower(k)))
            || (exists g :: g in r.geoSite && w.inDomainSet(g, host))
  {
    if k :| k in r.domainKeyword && Contains(host, w.lower(k)) {
      assert HasProbe(w, r, Keyword(w.lower(k)));
    }
    if g :| g in r.geoSite && w.inDomainSet(g, host) {
      assert HasProbe(w, r, GeoSite(g));
    }
  }

  lemma AddrProbesHit(w: World, r: Rule, ip: Addr)
    requires forall cc :: cc in r.ipCIDR ==> w.parsePrefix(cc).Some?
    ensures (exists p :: HasProbe(w, r, p) && AddrProbe(w, p, ip)) <==> AddrHit(w, r, ip)
  {
    if cc :| cc in r.ipCIDR && CidrHit(w, cc, ip) {
      assert HasProbe(w, r, Cidr(MaskedPrefix(w, cc)));
    }
    if g :| g in r.geoIP && w.inIPSet(g, ip) {
      assert HasProbe(w, r, GeoIP(g));
    }
  }

  lemma ProbesHit(w: World, r: Rule, c: Conn)
    requires forall cc :: cc in r.ipCIDR ==> w.parsePrefix(cc).Some?
    ensures (exists p :: HasProbe(w, r, p) && ProbeHit(w, c, p)) <==>
            || (c.fqdn != "" && exists p :: HasProbe(w, r, p) && DomainProbe(w, p, NormDomain(w, c.fqdn)))
            || (exists ip :: ip in IpSet(w, c) && AddrHit(w, r, ip))
  {
    forall ip: Addr {
      AddrProbesHit(w, r, ip);
    }
    if ip :| ip in IpSet(w, c) && AddrHit(w, r, ip) {
      var p :| HasProbe(w, r, p) && AddrProbe(w, p, ip);
      assert ProbeHit(w, c, p);
    }
  }

  lemma LeafRowHit(w: World, r: Rule, row: Row, c: Conn)
    requires r.op == "" && Accepted(w, r) && RowFor(w, r, row)
    ensures RowHit(w, row, c) || (exists k :: k in row.keys && k in ProcessKeys(ProcessOf(c))) <==>
            Hit(w, AsIndexed(w, r), c)
  {
    var host := NormDomain(w, c.fqdn);
    QueriedKeysHit(w, r, c);
    HostKeysHit(w, r, host);
    ProcessKeysHit(w, r, ProcessOf(c));
    ProbesHit(w, r, c);
    DomainProbesHit(w, r, host);
    IndexedLeaf(w, r, c);
  }

  lemma IndexedLeaf(w: World, r: Rule, c: Conn)
    requires r.op == ""
    ensures Hit(w, AsIndexed(w, r), c) <==>
            || (c.fqdn != "" && (var host := NormDomain(w, c.fqdn);
                  || (exists d :: d in r.domain && host == NormDomain(w, d))
                  || (exists s :: s in r.domainSuffix && NormSuffix(w, s) != "" && SuffixHit(host, NormSuffix(w, s)))
                  || (exists k :: k in r.domainKeyword && Contains(host, w.lower(k)))
                  || (exists g :: g in r.geoSite && w.inDomainSet(g, host))))
            || (exists ip :: ip in IpSet(w, c) && AddrHit(w, r, ip))
            || PlainKeyHit(w, r, c)
            || ProcessHit(r, ProcessOf(c))
  {
    MapSeqMember(r.protocol, w.lower, c.proto);
    forall ip: Addr
      ensures AddrHit(w, AsIndexed(w, r), ip) == AddrHit(w, r, ip)
    {
    }
  }

  lemma CompositeRowHit(w: World, r: Rule, row: Row, c: Conn)
    requires r.op != "" && RowFor(w, r, row)
    ensures (exists e :: e in row.evals && EvalHit(w, e, c)) <==> Hit(w, AsIndexed(w, r), c)
  {
    CompileEvalCorrect(w, r, c);
    assert row.evals[0] == CompileEval(r);
  }

  /** The rows that are hit are the rules that match. */
  lemma HitsAreMatches(w: World, rules: seq<Rule>, rows: seq<Row>, c: Conn, j: nat)
    requires j < |rules| == |rows| && Accepted(w, rules[j]) && RowFor(w, rules[j], rows[j])
    ensures j in AllHits(w, rows, c) <==> Hit(w, AsIndexed(w, rules[j]), c)
  {
    if rules[j].op == "" {
      LeafRowHit(w, rules[j], rows[j], c);
    } else {
      CompositeRowHit(w, rules[j], rows[j], c);
    }
  }

  lemma {:induction false} FirstMatchSkips(w: World, rs: seq<Rule>, def: string, c: Conn, i: nat, best: nat)
    requires i <= best <= |rs|
    requires forall j :: i <= j < best ==> !Hit(w, rs[j], c)
    ensures FirstMatch(w, rs, def, c, i) == FirstMatch(w, rs, def, c, best)
    decreases best - i
  {
    if i < best {
      FirstMatchSkips(w, rs, def, c, i + 1, best);
    }
  }

  lemma LeastIsFirstMatch(w: World, rs: seq<Rule>, def: string, c: Conn, hits: set<nat>, best: nat)
    requires |rs| <= ORD_NONE && Least(best, hits)
    requires forall j :: j in hits <==> 0 <= j < |rs| && Hit(w, rs[j], c)
    ensures FirstMatch(w, rs, def, c, 0) == if best == ORD_NONE then def else rs[best].to
  {
    FirstMatchSkips(w, rs, def, c, 0, if best == ORD_NONE then |rs| else best);
  }

  /** The engine compiled from a table routes each connection to the target of the first rule
      that matches, and asks the process finder at most once, if a rule needs it. Without IP rules (`HasIPRules`) the
      route is the same whatever a name resolves to. */
  method RouteConnIPs(w: World, e: Engine, c: Conn, ghost rules: seq<Rule>, ghost rows: seq<Row>)
    returns (target: string, finderCalls: nat)
    requires Compiled(w, e, rules, rows, e.def)
    requires forall j :: 0 <= j < |rules| ==> Accepted(w, rules[j])
    ensures target == FirstMatch(w, AsIndexedAll(w, rules), e.def, c, 0)
    ensures (forall r :: r in rules ==> PlainFor(w, r, c)) ==> target == FirstMatch(w, rules, e.def, c, 0)
    ensures !e.hasIP ==> forall ips :: target == FirstMatch(w, AsIndexedAll(w, rules), e.def, c.(ips := ips), 0)
    ensures finderCalls <= if c.hasFinder && c.srcValid then 1 else 0
    ensures !e.hasProc && (forall x :: x in e.logical ==> !AsksProcess(x.0)) ==> finderCalls == 0
    ensures e.hasProc && c.hasFinder && c.srcValid ==> finderCalls == 1
  {
    hide PlainFor;
    hide Hit;
    hide AsIndexed;
    var best;
    best, finderCalls := RouteRows(w, e, c, rules, rows);
    ghost var rs := AsIndexedAll(w, rules);
    forall j: nat
      ensures j in AllHits(w, rows, c) <==> 0 <= j < |rs| && Hit(w, rs[j], c)
    {
      if j < |rules| {
        HitsAreMatches(w, rules, rows, c, j);
      }
    }
    LeastIsFirstMatch(w, rs, e.def, c, AllHits(w, rows, c), best);
    target := if best == ORD_NONE then e.def else e.targets[best];
    AsIndexedTargets(w, rules);
    if forall r :: r in rules ==> PlainFor(w, r, c) {
      PlainTable(w, rules, e.def, c, 0);
    }
    if !e.hasIP {
      forall ips: seq<Addr>
        ensures target == FirstMatch(w, rs, e.def, c.(ips := ips), 0)
      {
        NoIPRows(w, e, rules, rows);
        NoIPRulesIgnoreResolution(w, rs, e.def, c, ips, 0);
      }
    }
  }

  lemma AsIndexedTargets(w: World, rules: seq<Rule>)
    ensures forall j :: 0 <= j < |rules| ==> AsIndexedAll(w, rules)[j].to == rules[j].to
  {
  }

  lemma {:induction false} PlainTable(w: World, rules: seq<Rule>, def: string, c: Conn, i: nat)
    requires i <= |rules| && forall r :: r in rules ==> PlainFor(w, r, c)
    ensures FirstMatch(w, AsIndexedAll(w, rules), def, c, i) == FirstMatch(w, rules, def, c, i)
    decreases |rules| - i
  {
    if i < |rules| {
      PlainHit(w, rules[i], c);
      AsIndexedTargets(w, rules);
      hide PlainFor;
      hide Hit;
      hide AsIndexed;
      PlainTable(w, rules, def, c, i + 1);
    }
  }

  /** The flag `hasIP` is false only for tables without IP dimensions, also as the indexes see them. */
  lemma NoIPRows(w: World, e: Engine, rules: seq<Rule>, rows: seq<Row>)
    requires Compiled(w, e, rules, rows, e.def) && !e.hasIP
    ensures forall r :: r in AsIndexedAll(w, rules) ==> !UsesIP(r)
  {
    forall j | 0 <= j < |rules|
      ensures !UsesIP(AsIndexed(w, rules[j]))
    {
      assert RowFor(w, rules[j], rows[j]) && !rows[j].usesIP;
    }
  }

  /** What `strings.ToLower` guarantees. */
  ghost predicate LowerLaws(w: World) {
    && w.lower("") == "" && (forall s :: w.lower(s) == "" ==> s == "")
    && forall s :: w.lower(w.lower(s)) == w.lower(s)
  }

  ghost function Probing(fqdn: string, proto: string): Conn {
    Conn(fqdn, None, 0, [], "", proto, false, false, _ => None)
  }

  /** For a leaf rule the index agrees with the direct reading on every sniffed connection exactly
      when the rule is plain. */
  lemma IndexAgreesIffPlain(w: World, r: Rule)
    requires LowerLaws(w) && r.op == "" && Accepted(w, r)
    ensures (forall c :: Sniffed(w, c) ==> (Hit(w, AsIndexed(w, r), c) <==> Hit(w, r, c))) <==> Plain(w, r)
  {
    if Plain(w, r) {
      forall c | Sniffed(w, c)
        ensures Hit(w, AsIndexed(w, r), c) <==> Hit(w, r, c)
      {
        PlainHit(w, r, c);
      }
    } else if s :| s in r.domainSuffix && NormSuffix(w, s) == "" {
      EmptySuffixDiffers(w, r, s);
      assert Sniffed(w, Probing(".", ""));
    } else {
      var p :| p in r.protocol && w.lower(p) !in r.protocol;
      UpperProtocolDiffers(w, r, p);
    }
  }

  lemma EmptySuffixDiffers(w: World, r: Rule, s: string)
    requires LowerLaws(w) && r.op == "" && Accepted(w, r)
    requires s in r.domainSuffix && NormSuffix(w, s) == ""
    ensures Hit(w, r, Probing(".", "")) && !Hit(w, AsIndexed(w, r), Probing(".", ""))
  {
    assert w.lower("") == "";
    hide LowerLaws;
    var c := Probing(".", "");
    assert NormDomain(w, c.fqdn) == "";
    IndexedLeaf(w, r, c);
    assert r.domain == [] && r.domainKeyword == [] && r.geoSite == [] && r.port == [];
  }

  /** A rule that lists `TLS` and not `tls`: through the index it is hit by a connection sniffed as
      `tls`, as written it is not, and neither is it as the only part of an and/or rule. */
  lemma UpperProtocolDiffers(w: World, r: Rule, p: string)
    requires LowerLaws(w) && r.op == "" && Accepted(w, r)
    requires p in r.protocol && w.lower(p) !in r.protocol
    ensures var c := Probing("", w.lower(p));
            && Sniffed(w, c) && Hit(w, AsIndexed(w, r), c) && !Hit(w, r, c)
            && forall both: Rule :: both.op in {"and", "or"} && !both.neg && both.sub == [r] ==>
                 !Hit(w, AsIndexed(w, both), c)
  {
    var c := Probing("", w.lower(p));
    IndexedLeaf(w, r, c);
    assert r.port == [];
    forall both: Rule | both.op in {"and", "or"} && !both.neg && both.sub == [r]
      ensures !Hit(w, AsIndexed(w, both), c)
    {
      assert both.sub[0] == r && !Hit(w, both.sub[0], c);
    }
  }

  /** When no rule uses an IP dimension, resolved addresses cannot change the first match. */
  lemma {:induction false} NoIPRulesIgnoreResolution(w: World, rules: seq<Rule>, def: string, c: Conn,
                                                     ips: seq<Addr>, i: nat)
    requires i <= |rules| && forall r :: r in rules ==> !UsesIP(r)
    ensures FirstMatch(w, rules, def, c.(ips := ips), i) == FirstMatch(w, rules, def, c, i)
    decreases |rules| - i
  {
    if i < |rules| {
      HitIgnoresIPs(w, rules[i], c, ips);
      NoIPRulesIgnoreResolution(w, rules, def, c, ips, i + 1);
    }
  }

  lemma {:induction false} HitIgnoresIPs(w: World, r: Rule, c: Conn, ips: seq<Addr>)
    requires !UsesIP(r)
    ensures Hit(w, r, c.(ips := ips)) <==> Hit(w, r, c)
  {
    if r.op == "" {
      assert forall ip :: !AddrHit(w, r, ip);
    } else {
      forall i | 0 <= i < |r.sub|
        ensures Hit(w, r.sub[i], c.(ips := ips)) <==> Hit(w, r.sub[i], c)
      {
        HitIgnoresIPs(w, r.sub[i], c, ips);
      }
    }
  }
}
