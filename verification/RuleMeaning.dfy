/**
 What a rule table means, value by value: which connections each single listed value matches, said with
 nothing but the connection, strings and the library predicates. A table is compiled and routed end to
 end, and its result is the target of the first rule selected in this sense.
 */
module RuleMeaning {
  import opened Basics
  import opened Rules
  import E = RuleEngine
  import R = RuleRouting
  import T = RuleTheorem

  /** One value in one of the eleven lists of a rule. */
  datatype Entry =
    | Domain(s: string) | Suffix(s: string) | Keyword(s: string) | Cidr(s: string) | Port(n: nat)
    | Network(s: string) | Protocol(s: string) | GeoIP(g: SetId) | GeoSite(g: SetId)
    | ProcessName(s: string) | ProcessPath(s: string)

  ghost predicate Lists(r: Rule, x: Entry) {
    match x
    case Domain(s) => s in r.domain
    case Suffix(s) => s in r.domainSuffix
    case Keyword(s) => s in r.domainKeyword
    case Cidr(s) => s in r.ipCIDR
    case Port(n) => n in r.port
    case Network(s) => s in r.network
    case Protocol(s) => s in r.protocol
    case GeoIP(g) => g in r.geoIP
    case GeoSite(g) => g in r.geoSite
    case ProcessName(s) => s in r.processName
    case ProcessPath(s) => s in r.processPath
  }

  /** Lower case, without a dot at the end. */
  ghost function Host(w: World, d: string): string {
    if d != "" && d[|d| - 1] == '.' then w.lower(d[..|d| - 1]) else w.lower(d)
  }

  ghost predicate Surrounds(host: string, pre: string, part: string, post: string) {
    host == pre + part + post
  }

  /** The addresses a connection counts as having: an address destination has itself, unmapped, and no
      other; any other destination has what it was resolved to. */
  ghost predicate HasAddress(w: World, c: Conn, ip: Addr) {
    if c.fqdn == "" && c.addr.Some? then ip == w.unmap(c.addr.value) else ip in c.ips
  }

  /** What the process finder says, when there is one and the source is known. */
  ghost predicate IsProcess(c: Conn, p: Process) {
    c.hasFinder && c.srcValid && c.answers(0) == Some(p)
  }

  /** The connections one value matches. Through the index, as in a rule of its own, an empty suffix
      matches nothing and a protocol is matched by its lower case. */
  ghost predicate Matches(w: World, x: Entry, c: Conn, indexed: bool) {
    match x
    case Domain(s) => c.fqdn != "" && Host(w, c.fqdn) == Host(w, s)
    case Suffix(s) =>
      && c.fqdn != ""
      && var t := Host(w, if s != "" && s[0] == '.' then s[1..] else s);
         && (indexed ==> t != "")
         && (Host(w, c.fqdn) == t || exists pre :: Surrounds(Host(w, c.fqdn), pre, "." + t, ""))
    case Keyword(s) => c.fqdn != "" && exists pre, post :: Surrounds(Host(w, c.fqdn), pre, w.lower(s), post)
    case Cidr(s) =>
      w.parsePrefix(s).Some? && exists ip :: HasAddress(w, c, ip) && w.contains(w.parsePrefix(s).value, ip)
    case Port(n) => c.port == n
    case Network(s) => s != "" && c.network == s
    case Protocol(s) => c.proto != "" && c.proto == if indexed then w.lower(s) else s
    case GeoIP(g) => exists ip :: HasAddress(w, c, ip) && w.inIPSet(g, ip)
    case GeoSite(g) => c.fqdn != "" && w.inDomainSet(g, Host(w, c.fqdn))
    case ProcessName(s) => exists p :: IsProcess(c, p) && p.name == s
    case ProcessPath(s) => exists p :: IsProcess(c, p) && p.path == s
  }

  ghost predicate Selects(w: World, r: Rule, c: Conn, indexed: bool) {
    if r.op == "" then exists x :: Lists(r, x) && Matches(w, x, c, indexed)
    else
      (if r.op == "and" then forall i :: 0 <= i < |r.sub| ==> Selects(w, r.sub[i], c, false)
       else exists i :: 0 <= i < |r.sub| && Selects(w, r.sub[i], c, false)) != r.neg
  }

  // ---- A leaf rule ----

  lemma SuffixMeans(host: string, t: string)
    ensures SuffixHit(host, t) <==> host == t || exists pre :: Surrounds(host, pre, "." + t, "")
  {
    var k := |host| - |"." + t|;
    if HasSuffix(host, "." + t) {
      assert host == host[..k] + host[k..] + "";
      assert Surrounds(host, host[..k], "." + t, "");
    }
    if pre :| Surrounds(host, pre, "." + t, "") {
      assert host[|pre|..] == "." + t;
    }
  }

  lemma KeywordMeans(host: string, k: string)
    ensures Contains(host, k) <==> exists pre, post :: Surrounds(host, pre, k, post)
  {
    if i :| 0 <= i <= |host| && OccursAt(host, k, i) {
      assert host == host[..i] + k + host[i + |k|..];
      assert Surrounds(host, host[..i], k, host[i + |k|..]);
    }
    if pre, post :| Surrounds(host, pre, k, post) {
      assert host[|pre|..|pre| + |k|] == k;
      assert OccursAt(host, k, |pre|);
    }
  }

  lemma HostMeans(w: World, r: Rule, c: Conn, x: Entry, indexed: bool)
    requires Lists(r, x) && OfHost(x)
    ensures Matches(w, x, c, indexed) <==>
            c.fqdn != "" && (var host := NormDomain(w, c.fqdn);
              match x
              case Domain(s) => host == NormDomain(w, s)
              case Suffix(s) => (indexed ==> NormSuffix(w, s) != "") && SuffixHit(host, NormSuffix(w, s))
              case Keyword(s) => Contains(host, w.lower(s))
              case GeoSite(g) => w.inDomainSet(g, host)
              case _ => false)
  {
    var host := NormDomain(w, c.fqdn);
    assert host == Host(w, c.fqdn);
    hide SuffixHit;
    hide Contains;
    hide Surrounds;
    match x
    case Suffix(s) =>
      SuffixMeans(host, NormSuffix(w, s));
      assert NormSuffix(w, s) == Host(w, if s != "" && s[0] == '.' then s[1..] else s);
    case Keyword(s) => KeywordMeans(host, w.lower(s));
    case _ =>
  }

  /** The four domain dimensions. */
  ghost predicate ByHost(w: World, r: Rule, c: Conn, indexed: bool) {
    c.fqdn != "" &&
    var host := NormDomain(w, c.fqdn);
    || (exists d :: d in r.domain && host == NormDomain(w, d))
    || (exists s :: s in r.domainSuffix && (indexed ==> NormSuffix(w, s) != "") && SuffixHit(host, NormSuffix(w, s)))
    || (exists k :: k in r.domainKeyword && Contains(host, w.lower(k)))
    || (exists g :: g in r.geoSite && w.inDomainSet(g, host))
  }

  ghost predicate ByPlain(w: World, r: Rule, c: Conn, indexed: bool) {
    || c.port in r.port
    || (c.network != "" && c.network in r.network)
    || (c.proto != "" && exists p :: p in r.protocol && c.proto == if indexed then w.lower(p) else p)
  }

  predicate OfHost(x: Entry) {
    x.Domain? || x.Suffix? || x.Keyword? || x.GeoSite?
  }

  predicate OfAddress(x: Entry) {
    x.Cidr? || x.GeoIP?
  }

  predicate OfProcess(x: Entry) {
    x.ProcessName? || x.ProcessPath?
  }

  lemma HostEntries(w: World, r: Rule, c: Conn, indexed: bool)
    ensures ByHost(w, r, c, indexed) <==> exists x :: Lists(r, x) && OfHost(x) && Matches(w, x, c, indexed)
  {
    hide Matches;
    hide SuffixHit;
    hide Contains;
    forall x | Lists(r, x) && OfHost(x) {
      HostMeans(w, r, c, x, indexed);
    }
    if ByHost(w, r, c, indexed) {
      var host := NormDomain(w, c.fqdn);
      if d :| d in r.domain && host == NormDomain(w, d) {
        assert Lists(r, Domain(d));
      } else if s :| s in r.domainSuffix && (indexed ==> NormSuffix(w, s) != "") && SuffixHit(host, NormSuffix(w, s)) {
        assert Lists(r, Suffix(s));
      } else if k :| k in r.domainKeyword && Contains(host, w.lower(k)) {
        assert Lists(r, Keyword(k));
      } else {
        var g :| g in r.geoSite && w.inDomainSet(g, host);
        assert Lists(r, GeoSite(g));
      }
    }
  }

  lemma AddressEntries(w: World, r: Rule, c: Conn, indexed: bool)
    ensures (exists ip :: ip in IpSet(w, c) && AddrHit(w, r, ip)) <==>
            exists x :: Lists(r, x) && OfAddress(x) && Matches(w, x, c, indexed)
  {
    assert forall ip :: ip in IpSet(w, c) <==> HasAddress(w, c, ip);
    hide IpSet;
    hide HasAddress;
    if ip :| ip in IpSet(w, c) && AddrHit(w, r, ip) {
      if cc :| cc in r.ipCIDR && CidrHit(w, cc, ip) {
        assert Lists(r, Cidr(cc)) && Matches(w, Cidr(cc), c, indexed);
      } else {
        var g :| g in r.geoIP && w.inIPSet(g, ip);
        assert Lists(r, GeoIP(g)) && Matches(w, GeoIP(g), c, indexed);
      }
    }
    if x :| Lists(r, x) && OfAddress(x) && Matches(w, x, c, indexed) {
      match x
      case Cidr(cc) =>
        var ip :| HasAddress(w, c, ip) && w.contains(w.parsePrefix(cc).value, ip);
        assert CidrHit(w, cc, ip) && AddrHit(w, r, ip);
      case GeoIP(g) =>
        var ip :| HasAddress(w, c, ip) && w.inIPSet(g, ip);
        assert AddrHit(w, r, ip);
    }
  }

  lemma ProcessEntries(w: World, r: Rule, c: Conn, indexed: bool)
    ensures ProcessHit(r, ProcessOf(c)) <==> exists x :: Lists(r, x) && OfProcess(x) && Matches(w, x, c, indexed)
  {
    if ProcessHit(r, ProcessOf(c)) {
      var p := ProcessOf(c).value;
      assert IsProcess(c, p);
      assert Lists(r, ProcessName(p.name)) || Lists(r, ProcessPath(p.path));
      assert Matches(w, ProcessName(p.name), c, indexed) && Matches(w, ProcessPath(p.path), c, indexed);
    }
  }

  lemma PlainEntries(w: World, r: Rule, c: Conn, indexed: bool)
    ensures ByPlain(w, r, c, indexed) <==>
            exists x :: Lists(r, x) && (x.Port? || x.Network? || x.Protocol?) && Matches(w, x, c, indexed)
  {
    if ByPlain(w, r, c, indexed) {
      if c.port in r.port {
        assert Lists(r, Port(c.port)) && Matches(w, Port(c.port), c, indexed);
      } else if c.network != "" && c.network in r.network {
        assert Lists(r, Network(c.network)) && Matches(w, Network(c.network), c, indexed);
      } else {
        var p :| p in r.protocol && c.proto == if indexed then w.lower(p) else p;
        assert Lists(r, Protocol(p)) && Matches(w, Protocol(p), c, indexed);
      }
    }
  }

  lemma SelectsByKind(w: World, r: Rule, c: Conn, indexed: bool)
    requires r.op == ""
    ensures Selects(w, r, c, indexed) <==>
            || ByHost(w, r, c, indexed) || (exists ip :: ip in IpSet(w, c) && AddrHit(w, r, ip))
            || ByPlain(w, r, c, indexed) || ProcessHit(r, ProcessOf(c))
  {
    hide Matches;
    hide Lists;
    hide ByHost;
    hide ByPlain;
    hide AddrHit;
    hide ProcessHit;
    hide IpSet;
    HostEntries(w, r, c, indexed);
    AddressEntries(w, r, c, indexed);
    PlainEntries(w, r, c, indexed);
    ProcessEntries(w, r, c, indexed);
  }

  /** A leaf rule selects what some value it lists matches. */
  lemma LeafSelects(w: World, r: Rule, c: Conn)
    requires r.op == ""
    ensures Hit(w, r, c) <==> Selects(w, r, c, false)
    ensures Hit(w, T.AsIndexed(w, r), c) <==> Selects(w, r, c, true)
  {
    hide Selects;
    hide AddrHit;
    hide ProcessHit;
    hide IpSet;
    hide SuffixHit;
    hide Contains;
    SelectsByKind(w, r, c, false);
    SelectsByKind(w, r, c, true);
    T.IndexedLeaf(w, r, c);
    hide T.AsIndexed;
  }

  lemma {:induction false} SubSelects(w: World, r: Rule, c: Conn)
    ensures Hit(w, r, c) <==> Selects(w, r, c, false)
  {
    if r.op == "" {
      LeafSelects(w, r, c);
    } else {
      forall i | 0 <= i < |r.sub|
        ensures Hit(w, r.sub[i], c) <==> Selects(w, r.sub[i], c, false)
      {
        SubSelects(w, r.sub[i], c);
      }
    }
  }

  lemma RuleSelects(w: World, r: Rule, c: Conn)
    ensures Hit(w, T.AsIndexed(w, r), c) <==> Selects(w, r, c, true)
  {
    if r.op == "" {
      LeafSelects(w, r, c);
    } else {
      SubSelects(w, r, c);
    }
  }

  // ---- Accepted tables ----

  /** The number of the list a value is in. */
  function Kind(x: Entry): nat {
    match x
    case Domain(_) => 0
    case Suffix(_) => 1
    case Keyword(_) => 2
    case Cidr(_) => 3
    case Port(_) => 4
    case Network(_) => 5
    case Protocol(_) => 6
    case GeoIP(_) => 7
    case GeoSite(_) => 8
    case ProcessName(_) => 9
    case ProcessPath(_) => 10
  }

  /** All values of the rule are in one list, and there is one. */
  ghost predicate OneDimension(r: Rule) {
    && (exists x :: Lists(r, x))
    && (forall x, y :: Lists(r, x) && Lists(r, y) ==> Kind(x) == Kind(y))
  }

  ghost predicate Combines(r: Rule) {
    && (r.op == "and" || r.op == "or") && r.sub != [] && (forall x :: !Lists(r, x))
    && forall i :: 0 <= i < |r.sub| ==>
         r.sub[i].to == "" && if r.sub[i].op == "" then OneDimension(r.sub[i]) else Combines(r.sub[i])
  }

  ghost predicate Formed(w: World, r: Rule) {
    && r.to != ""
    && if r.op != "" then Combines(r)
       else
         && OneDimension(r)
         && (forall x :: Lists(r, x) && x.Cidr? ==> w.parsePrefix(x.s).Some?)
         && (forall x :: Lists(r, x) && x.Network? ==> x.s == "tcp" || x.s == "udp")
  }

  predicate Uses(r: Rule, k: nat) {
    || (k == 0 && r.domain != []) || (k == 1 && r.domainSuffix != []) || (k == 2 && r.domainKeyword != [])
    || (k == 3 && r.ipCIDR != []) || (k == 4 && r.port != []) || (k == 5 && r.network != [])
    || (k == 6 && r.protocol != []) || (k == 7 && r.geoIP != []) || (k == 8 && r.geoSite != [])
    || (k == 9 && r.processName != []) || (k == 10 && r.processPath != [])
  }

  lemma UsesIffListed(r: Rule, k: nat)
    ensures Uses(r, k) <==> exists x :: Lists(r, x) && Kind(x) == k
  {
    if Uses(r, k) {
      var x := match k
      case 0 => Domain(r.domain[0])
      case 1 => Suffix(r.domainSuffix[0])
      case 2 => Keyword(r.domainKeyword[0])
      case 3 => Cidr(r.ipCIDR[0])
      case 4 => Port(r.port[0])
      case 5 => Network(r.network[0])
      case 6 => Protocol(r.protocol[0])
      case 7 => GeoIP(r.geoIP[0])
      case 8 => GeoSite(r.geoSite[0])
      case 9 => ProcessName(r.processName[0])
      case _ => ProcessPath(r.processPath[0]);
      assert Lists(r, x) && Kind(x) == k;
    }
  }

  lemma CountUses(r: Rule)
    ensures DimCount(r) == 0 <==> forall k: nat :: !Uses(r, k)
    ensures DimCount(r) == 1 <==>
            (exists k: nat :: Uses(r, k)) && forall j: nat, k: nat :: Uses(r, j) && Uses(r, k) ==> j == k
  {
    var used := [
      Uses(r, 0), Uses(r, 1), Uses(r, 2), Uses(r, 3), Uses(r, 4), Uses(r, 5),
      Uses(r, 6), Uses(r, 7), Uses(r, 8), Uses(r, 9), Uses(r, 10)];
  }

  lemma DimCountMeans(r: Rule)
    ensures DimCount(r) == 0 <==> forall x :: !Lists(r, x)
    ensures DimCount(r) == 1 <==> OneDimension(r)
  {
    hide DimCount;
    hide Lists;
    CountUses(r);
    forall k: nat
      ensures Uses(r, k) <==> exists x :: Lists(r, x) && Kind(x) == k
    {
      UsesIffListed(r, k);
    }
    assert forall x :: Lists(r, x) ==> Uses(r, Kind(x));
    hide Uses;
    hide Kind;
  }

  lemma {:induction false} CombinesMeans(r: Rule)
    ensures ValidComposite(r) <==> Combines(r)
  {
    hide DimCount;
    hide OneDimension;
    DimCountMeans(r);
    forall i | 0 <= i < |r.sub|
      ensures ValidComposite(r.sub[i]) <==> Combines(r.sub[i])
      ensures DimCount(r.sub[i]) == 1 <==> OneDimension(r.sub[i])
    {
      CombinesMeans(r.sub[i]);
      DimCountMeans(r.sub[i]);
    }
  }

  lemma AcceptedMeans(w: World, r: Rule)
    ensures Accepted(w, r) <==> Formed(w, r)
  {
    hide DimCount;
    hide OneDimension;
    hide ValidComposite;
    hide Combines;
    CombinesMeans(r);
    DimCountMeans(r);
    assert forall cc :: cc in r.ipCIDR <==> Lists(r, Cidr(cc));
    assert forall nw :: nw in r.network <==> Lists(r, Network(nw));
  }

  // ---- The engine's flags ----

  /** The value is in the rule or somewhere below it. */
  ghost predicate ListsBelow(r: Rule, x: Entry) {
    Lists(r, x) || exists i :: 0 <= i < |r.sub| && ListsBelow(r.sub[i], x)
  }

  lemma {:induction false} UsesIPMeans(r: Rule)
    ensures UsesIP(r) <==> exists x :: OfAddress(x) && ListsBelow(r, x)
  {
    forall i | 0 <= i < |r.sub|
      ensures UsesIP(r.sub[i]) <==> exists x :: OfAddress(x) && ListsBelow(r.sub[i], x)
    {
      UsesIPMeans(r.sub[i]);
    }
    if UsesIP(r) {
      if |r.ipCIDR| > 0 {
        assert ListsBelow(r, Cidr(r.ipCIDR[0]));
      } else if |r.geoIP| > 0 {
        assert ListsBelow(r, GeoIP(r.geoIP[0]));
      } else {
        var i :| 0 <= i < |r.sub| && UsesIP(r.sub[i]);
        var x :| OfAddress(x) && ListsBelow(r.sub[i], x);
        assert ListsBelow(r, x);
      }
    }
  }

  /** `HasIPRules`: the flag is set exactly when some rule lists an address value, at any depth. */
  lemma HasIPMeans(w: World, e: E.Engine, rules: seq<Rule>, rows: seq<E.Row>)
    requires E.Compiled(w, e, rules, rows, e.def)
    ensures e.hasIP <==> exists r, x :: r in rules && OfAddress(x) && ListsBelow(r, x)
  {
    hide UsesIP;
    hide ListsBelow;
    hide OfAddress;
    forall j | 0 <= j < |rules|
      ensures rows[j].usesIP <==> exists x :: OfAddress(x) && ListsBelow(rules[j], x)
    {
      assert E.RowFor(w, rules[j], rows[j]);
      UsesIPMeans(rules[j]);
    }
    hide E.RowFor;
    hide E.IsIndex;
    hide E.IsProbeList;
    hide E.IsEvalList;
    if r, x :| r in rules && OfAddress(x) && ListsBelow(r, x) {
      var j :| 0 <= j < |rules| && rules[j] == r;
      assert rows[j].usesIP;
    }
  }

  lemma ListsProcessMeans(r: Rule)
    ensures E.ListsProcess(r) <==> exists x :: OfProcess(x) && Lists(r, x)
  {
    if |r.processName| > 0 {
      assert Lists(r, ProcessName(r.processName[0]));
    } else if |r.processPath| > 0 {
      assert Lists(r, ProcessPath(r.processPath[0]));
    }
  }

  lemma {:induction false} AsksProcessMeans(r: Rule)
    ensures E.AsksProcess(E.CompileEval(r)) ==> exists x :: OfProcess(x) && ListsBelow(r, x)
  {
    if r.op == "" {
      ListsProcessMeans(r);
    } else if E.AsksProcess(E.CompileEval(r)) {
      var subs := seq(|r.sub|, i requires 0 <= i < |r.sub| => E.CompileEval(r.sub[i]));
      var f := if r.op == "and" then E.All(subs) else E.Any(subs);
      assert E.CompileEval(r) == if r.neg then E.Not(f) else f;
      assert E.AsksProcess(f);
      var i :| 0 <= i < |subs| && E.AsksProcess(subs[i]);
      AsksProcessMeans(r.sub[i]);
      var x :| OfProcess(x) && ListsBelow(r.sub[i], x);
      assert ListsBelow(r, x);
    }
  }

  /** When the finder is needed, by what the rules list. */
  lemma NeedsProcess(w: World, e: E.Engine, rules: seq<Rule>, rows: seq<E.Row>)
    requires E.Compiled(w, e, rules, rows, e.def)
    ensures e.hasProc <==> exists j, x :: 0 <= j < |rules| && rules[j].op == "" && OfProcess(x) && Lists(rules[j], x)
    ensures (forall j, x :: 0 <= j < |rules| && OfProcess(x) ==> !ListsBelow(rules[j], x)) ==>
              !e.hasProc && forall l :: l in e.logical ==> !E.AsksProcess(l.0)
  {
    forall j | 0 <= j < |rules|
      ensures E.RowFor(w, rules[j], rows[j])
      ensures E.ListsProcess(rules[j]) <==> exists x :: OfProcess(x) && Lists(rules[j], x)
      ensures E.AsksProcess(E.CompileEval(rules[j])) ==> exists x :: OfProcess(x) && ListsBelow(rules[j], x)
    {
      ListsProcessMeans(rules[j]);
      AsksProcessMeans(rules[j]);
    }
    assert forall j, x :: 0 <= j < |rules| && Lists(rules[j], x) ==> ListsBelow(rules[j], x);
    hide E.ListsProcess;
    hide E.AsksProcess;
    hide OfProcess;
    hide Lists;
    hide ListsBelow;
    hide E.CompileEval;
    hide E.IsIndex;
    hide E.IsProbeList;
  }

  // ---- End to end ----

  ghost predicate FirstSelected(w: World, rules: seq<Rule>, c: Conn, j: nat) {
    && j < |rules| && Selects(w, rules[j], c, true)
    && forall i :: 0 <= i < j ==> !Selects(w, rules[i], c, true)
  }

  lemma {:induction false} FirstSelectedIs(w: World, rules: seq<Rule>, def: string, c: Conn, i: nat)
    requires i <= |rules| && forall k :: 0 <= k < i ==> !Selects(w, rules[k], c, true)
    ensures var to := FirstMatch(w, T.AsIndexedAll(w, rules), def, c, i);
            && (forall j: nat :: FirstSelected(w, rules, c, j) ==> to == rules[j].to)
            && ((forall k :: 0 <= k < |rules| ==> !Selects(w, rules[k], c, true)) ==> to == def)
    decreases |rules| - i
  {
    if i < |rules| {
      RuleSelects(w, rules[i], c);
      T.AsIndexedTargets(w, rules);
      hide Selects;
      hide T.AsIndexed;
      hide Hit;
      if !Selects(w, rules[i], c, true) {
        FirstSelectedIs(w, rules, def, c, i + 1);
      }
    }
  }

  /** A table compiled and a connection routed: tables are accepted exactly when every rule is well
      formed, and the target is that of the first rule that selects the connection, or the default. The process
      finder is asked at most once: never when no rule lists a process, always when a leaf rule does. */
  method Route(w: World, rules: seq<Rule>, def: string, c: Conn)
    returns (target: Option<string>, finderCalls: nat)
    requires |rules| <= 0xFFFF_FFFF
    ensures target.Some? <==> def != "" && forall j :: 0 <= j < |rules| ==> Formed(w, rules[j])
    ensures target.Some? ==> forall j: nat :: FirstSelected(w, rules, c, j) ==> target.value == rules[j].to
    ensures target.Some? && (forall j :: 0 <= j < |rules| ==> !Selects(w, rules[j], c, true)) ==> target.value == def
    ensures finderCalls <= if c.hasFinder && c.srcValid then 1 else 0
    ensures (forall j, x :: 0 <= j < |rules| && OfProcess(x) ==> !ListsBelow(rules[j], x)) ==> finderCalls == 0
    ensures target.Some? && c.hasFinder && c.srcValid ==>
              forall j, x :: 0 <= j < |rules| && rules[j].op == "" && OfProcess(x) && Lists(rules[j], x) ==>
                finderCalls == 1
  {
    hide ListsBelow;
    hide Lists;
    hide OfProcess;
    hide Formed;
    hide Selects;
    hide Accepted;
    hide FirstSelected;
    forall j | 0 <= j < |rules|
      ensures Accepted(w, rules[j]) <==> Formed(w, rules[j])
    {
      AcceptedMeans(w, rules[j]);
    }
    var e := E.Compile(w, rules, def);
    if e.None? {
      return None, 0;
    }
    ghost var rows :| E.Compiled(w, e.value, rules, rows, def);
    NeedsProcess(w, e.value, rules, rows);
    var to;
    to, finderCalls := T.RouteConnIPs(w, e.value, c, rules, rows);
    FirstSelectedIs(w, rules, def, c, 0);
    return Some(to), finderCalls;
  }

  /** The rule that lists one value and nothing else. */
  function Only(x: Entry, to: string): Rule {
    var r := Rule([], [], [], [], [], [], [], [], [], [], [], "", [], false, to);
    match x
    case Domain(s) => r.(domain := [s])
    case Suffix(s) => r.(domainSuffix := [s])
    case Keyword(s) => r.(domainKeyword := [s])
    case Cidr(s) => r.(ipCIDR := [s])
    case Port(n) => r.(port := [n])
    case Network(s) => r.(network := [s])
    case Protocol(s) => r.(protocol := [s])
    case GeoIP(g) => r.(geoIP := [g])
    case GeoSite(g) => r.(geoSite := [g])
    case ProcessName(s) => r.(processName := [s])
    case ProcessPath(s) => r.(processPath := [s])
  }

  lemma OnlyLists(x: Entry, to: string)
    ensures forall y :: Lists(Only(x, to), y) <==> y == x
  {
  }

  lemma OnlyFormed(w: World, x: Entry, to: string)
    ensures Formed(w, Only(x, to)) <==>
            to != "" && (x.Cidr? ==> w.parsePrefix(x.s).Some?) && (x.Network? ==> x.s in {"tcp", "udp"})
  {
    OnlyLists(x, to);
    hide Lists;
    assert Lists(Only(x, to), x);
  }

  /** A table of one rule with one value: the rule's target exactly for the connections the value
      matches. For a prefix and an address set these are the address destinations that it contains, and
      the other destinations some resolved address of which it contains. */
  method RouteOne(w: World, x: Entry, to: string, def: string, c: Conn) returns (target: Option<string>)
    ensures target.None? <==>
            to == "" || def == "" || (x.Cidr? && w.parsePrefix(x.s).None?) || (x.Network? && x.s !in {"tcp", "udp"})
    ensures target.Some? ==> target.value == if Matches(w, x, c, true) then to else def
    ensures target.Some? && to != def && x.Cidr? ==>
              var p := w.parsePrefix(x.s).value;
              target.value == to <==>
              if c.fqdn == "" && c.addr.Some? then w.contains(p, w.unmap(c.addr.value))
              else exists ip :: ip in c.ips && w.contains(p, ip)
    ensures target.Some? && to != def && x.GeoIP? ==>
              (target.value == to <==>
               if c.fqdn == "" && c.addr.Some? then w.inIPSet(x.g, w.unmap(c.addr.value))
               else exists ip :: ip in c.ips && w.inIPSet(x.g, ip))
  {
    var r := Only(x, to);
    OnlyLists(x, to);
    OnlyFormed(w, x, to);
    hide Lists;
    hide Formed;
    var calls;
    target, calls := Route(w, [r], def, c);
    assert [r][0] == r && Lists(r, x);
    assert Selects(w, [r][0], c, true) ==> FirstSelected(w, [r], c, 0);
  }
}
