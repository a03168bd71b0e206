/**
 Compilation of a rule table into least-ordinal indexes, and routing with them.
 */
module RuleEngine {
  import opened Basics
  import opened Rules

  const ORD_NONE: nat := 0xFFFF_FFFF

  // ---- Compiled and/or/not rules ----

  /** The closures built by `compileEval`, as data. */
  datatype Eval = Leaf(rule: Rule) | All(subs: seq<Eval>) | Any(subs: seq<Eval>) | Not(inner: Eval)

  function CompileEval(r: Rule): Eval {
    if r.op == "" then Leaf(r)
    else
      var subs := seq(|r.sub|, i requires 0 <= i < |r.sub| => CompileEval(r.sub[i]));
      var f := if r.op == "and" then All(subs) else Any(subs);
      if r.neg then Not(f) else f
  }

  predicate EvalHit(w: World, e: Eval, c: Conn) {
    match e
    case Leaf(r) => LeafHit(w, r, c)
    case All(subs) => forall i :: 0 <= i < |subs| ==> EvalHit(w, subs[i], c)
    case Any(subs) => exists i :: 0 <= i < |subs| && EvalHit(w, subs[i], c)
    case Not(inner) => !EvalHit(w, inner, c)
  }

  /** Compilation keeps the meaning of every rule tree. */
  lemma {:induction false} CompileEvalCorrect(w: World, r: Rule, c: Conn)
    ensures EvalHit(w, CompileEval(r), c) <==> Hit(w, r, c)
  {
    if r.op != "" {
      var subs := seq(|r.sub|, i requires 0 <= i < |r.sub| => CompileEval(r.sub[i]));
      forall i | 0 <= i < |r.sub|
        ensures EvalHit(w, subs[i], c) <==> Hit(w, r.sub[i], c)
      {
        CompileEvalCorrect(w, r.sub[i], c);
      }
      var f := if r.op == "and" then All(subs) else Any(subs);
      assert CompileEval(r) == if r.neg then Not(f) else f;
    }
  }

  predicate ListsProcess(r: Rule) {
    |r.processName| > 0 || |r.processPath| > 0
  }

  /** Some leaf below lists a process. */
  predicate AsksProcess(e: Eval) {
    match e
    case Leaf(r) => ListsProcess(r)
    case All(subs) => exists i :: 0 <= i < |subs| && AsksProcess(subs[i])
    case Any(subs) => exists i :: 0 <= i < |subs| && AsksProcess(subs[i])
    case Not(inner) => AsksProcess(inner)
  }

  /** The domain dimensions of a leaf rule against a normalised host. */
  method MatchHost(w: World, r: Rule, host: string) returns (b: bool)
    ensures b == DomainHit(w, r, host)
  {
    for i := 0 to |r.domain|
      invariant forall k :: 0 <= k < i ==> host != NormDomain(w, r.domain[k])
    {
      if host == NormDomain(w, r.domain[i]) {
        return true;
      }
    }
    for i := 0 to |r.domainSuffix|
      invariant forall k :: 0 <= k < i ==> !SuffixHit(host, NormSuffix(w, r.domainSuffix[k]))
    {
      if SuffixHit(host, NormSuffix(w, r.domainSuffix[i])) {
        return true;
      }
    }
    for i := 0 to |r.domainKeyword|
      invariant forall k :: 0 <= k < i ==> !Contains(host, w.lower(r.domainKeyword[k]))
    {
      if Contains(host, w.lower(r.domainKeyword[i])) {
        return true;
      }
    }
    for i := 0 to |r.geoSite|
      invariant forall k :: 0 <= k < i ==> !w.inDomainSet(r.geoSite[k], host)
    {
      if w.inDomainSet(r.geoSite[i], host) {
        return true;
      }
    }
    return false;
  }

  /** The address dimensions of a leaf rule against one address. */
  method MatchAddr(w: World, r: Rule, ip: Addr) returns (b: bool)
    ensures b == AddrHit(w, r, ip)
  {
    for i := 0 to |r.ipCIDR|
      invariant forall k :: 0 <= k < i ==> !CidrHit(w, r.ipCIDR[k], ip)
    {
      var p := w.parsePrefix(r.ipCIDR[i]);
      if p.Some? && w.contains(p.value, ip) {
        assert CidrHit(w, r.ipCIDR[i], ip);
        return true;
      }
    }
    for i := 0 to |r.geoIP|
      invariant forall k :: 0 <= k < i ==> !w.inIPSet(r.geoIP[k], ip)
    {
      if w.inIPSet(r.geoIP[i], ip) {
        return true;
      }
    }
    return false;
  }

  /** One routing evaluation: the process lookup is made lazily and cached. */
  class EvalCtx {
    const w: World
    const c: Conn
    var procDone: bool
    var process: Option<Process>
    var calls: nat

    constructor (w: World, c: Conn)
      ensures this.w == w && this.c == c && Valid() && calls == 0
    {
      this.w, this.c := w, c;
      procDone, process, calls := false, None, 0;
    }

    ghost predicate Valid()
      reads this
    {
      && calls == (if procDone && c.hasFinder && c.srcValid then 1 else 0)
      && (procDone ==> process == ProcessOf(c))
    }

    method Proc() returns (p: Option<Process>)
      requires Valid()
      modifies this
      ensures Valid() && procDone
      ensures p == ProcessOf(c)
    {
      if !procDone {
        procDone, process := true, None;
        if c.hasFinder && c.srcValid {
          process := c.answers(calls);
          calls := calls + 1;
        }
      }
      return process;
    }

    method MatchLeaf(r: Rule) returns (b: bool)
      requires Valid()
      modifies this
      ensures Valid()
      ensures b == LeafHit(w, r, c)
      ensures (old(procDone) ==> procDone) && (!ListsProcess(r) ==> procDone == old(procDone))
    {
      if c.fqdn != "" {
        b := MatchHost(w, r, NormDomain(w, c.fqdn));
        if b {
          return;
        }
      }
      var ips := IpSet(w, c);
      for i := 0 to |ips|
        invariant Valid() && procDone == old(procDone)
        invariant forall k :: 0 <= k < i ==> !AddrHit(w, r, ips[k])
      {
        b := MatchAddr(w, r, ips[i]);
        if b {
          return;
        }
      }
      if || c.port in r.port
         || (c.network != "" && c.network in r.network)
         || (c.proto != "" && c.proto in r.protocol) {
        return true;
      }
      if ListsProcess(r) {
        var p := Proc();
        return ProcessHit(r, p);
      }
      return false;
    }

    method Run(e: Eval) returns (b: bool)
      requires Valid()
      modifies this
      ensures Valid()
      ensures b == EvalHit(w, e, c)
      ensures (old(procDone) ==> procDone) && (!AsksProcess(e) ==> procDone == old(procDone))
      decreases e
    {
      match e
      case Leaf(r) =>
        b := MatchLeaf(r);
      case All(subs) =>
        for i := 0 to |subs|
          invariant Valid() && (old(procDone) ==> procDone) && (!AsksProcess(e) ==> procDone == old(procDone))
          invariant forall k :: 0 <= k < i ==> EvalHit(w, subs[k], c)
        {
          b := Run(subs[i]);
          if !b {
            return;
          }
        }
        b := true;
      case Any(subs) =>
        for i := 0 to |subs|
          invariant Valid() && (old(procDone) ==> procDone) && (!AsksProcess(e) ==> procDone == old(procDone))
          invariant forall k :: 0 <= k < i ==> !EvalHit(w, subs[k], c)
        {
          b := Run(subs[i]);
          if b {
            return;
          }
        }
        b := false;
      case Not(inner) =>
        b := Run(inner);
        b := !b;
    }
  }

  // ---- Least-ordinal indexes ----

  /** Keys of the map indexes, one constructor for each of the engine's maps. */
  datatype Key =
    | Exact(s: string) | Suffix(s: string) | Port(n: nat) | Network(s: string)
    | Protocol(s: string) | ProcName(s: string) | ProcPath(s: string)

  /** Entries of the scanned lists. */
  datatype Probe = Keyword(s: string) | Cidr(p: Prefix) | GeoIP(id: SetId) | GeoSite(id: SetId)

  function MapSeq<A, B>(xs: seq<A>, f: A -> B): (ys: seq<B>)
    ensures |ys| == |xs|
    ensures forall i :: 0 <= i < |xs| ==> ys[i] == f(xs[i])
  {
    seq(|xs|, i requires 0 <= i < |xs| => f(xs[i]))
  }

  function MaskedPrefix(w: World, cc: string): Prefix {
    match w.parsePrefix(cc) case Some(p) => p case None => 0
  }

  /** What one rule contributes to the engine. */
  datatype Row = Row(
    keys: seq<Key>, probes: seq<Probe>, evals: seq<Eval>, usesProc: bool, usesIP: bool, to: string)

  function KeysOf(w: World, r: Rule): seq<Key> {
    MapSeq(r.domain, d => Exact(NormDomain(w, d)))
    + MapSeq(r.domainSuffix, s => Suffix(NormSuffix(w, s)))
    + MapSeq(r.port, n => Port(n))
    + MapSeq(r.network, s => Network(s))
    + MapSeq(r.protocol, s => Protocol(w.lower(s)))
    + MapSeq(r.processName, s => ProcName(s))
    + MapSeq(r.processPath, s => ProcPath(s))
  }

  function ProbesOf(w: World, r: Rule): seq<Probe> {
    MapSeq(r.domainKeyword, k => Keyword(w.lower(k)))
    + MapSeq(r.ipCIDR, cc => Cidr(MaskedPrefix(w, cc)))
    + MapSeq(r.geoIP, g => GeoIP(g))
    + MapSeq(r.geoSite, g => GeoSite(g))
  }

  /** What an accepted rule adds to the indexes. */
  function RuleRow(w: World, r: Rule): Option<Row> {
    if !Accepted(w, r) then None
    else if r.op != "" then Some(Row([], [], [CompileEval(r)], false, UsesIP(r), r.to))
    else Some(Row(KeysOf(w, r), ProbesOf(w, r), [],
                  ListsProcess(r), UsesIP(r), r.to))
  }

  lemma MapSeqMember<A, B>(xs: seq<A>, f: A -> B, y: B)
    ensures y in MapSeq(xs, f) <==> exists x :: x in xs && f(x) == y
  {
    if y in MapSeq(xs, f) {
      var i :| 0 <= i < |xs| && MapSeq(xs, f)[i] == y;
      assert xs[i] in xs;
    }
    if x :| x in xs && f(x) == y {
      var i :| 0 <= i < |xs| && xs[i] == x;
      assert MapSeq(xs, f)[i] == y;
    }
  }

  ghost predicate HasKey(w: World, r: Rule, k: Key) {
    match k
    case Exact(s) => exists d :: d in r.domain && NormDomain(w, d) == s
    case Suffix(s) => exists d :: d in r.domainSuffix && NormSuffix(w, d) == s
    case Port(n) => n in r.port
    case Network(s) => s in r.network
    case Protocol(s) => exists d :: d in r.protocol && w.lower(d) == s
    case ProcName(s) => s in r.processName
    case ProcPath(s) => s in r.processPath
  }

  lemma KeysOfMember(w: World, r: Rule, k: Key)
    ensures k in KeysOf(w, r) <==> HasKey(w, r, k)
  {
    MapSeqMember(r.domain, d => Exact(NormDomain(w, d)), k);
    MapSeqMember(r.domainSuffix, s => Suffix(NormSuffix(w, s)), k);
    MapSeqMember(r.port, n => Port(n), k);
    MapSeqMember(r.network, s => Network(s), k);
    MapSeqMember(r.protocol, s => Protocol(w.lower(s)), k);
    MapSeqMember(r.processName, s => ProcName(s), k);
    MapSeqMember(r.processPath, s => ProcPath(s), k);
  }

  ghost predicate HasProbe(w: World, r: Rule, p: Probe) {
    match p
    case Keyword(s) => exists k :: k in r.domainKeyword && w.lower(k) == s
    case Cidr(pfx) => exists cc :: cc in r.ipCIDR && MaskedPrefix(w, cc) == pfx
    case GeoIP(g) => g in r.geoIP
    case GeoSite(g) => g in r.geoSite
  }

  lemma ProbesOfMember(w: World, r: Rule, p: Probe)
    ensures p in ProbesOf(w, r) <==> HasProbe(w, r, p)
  {
    MapSeqMember(r.domainKeyword, k => Keyword(w.lower(k)), p);
    MapSeqMember(r.ipCIDR, cc => Cidr(MaskedPrefix(w, cc)), p);
    MapSeqMember(r.geoIP, g => GeoIP(g), p);
    MapSeqMember(r.geoSite, g => GeoSite(g), p);
  }

  /** What a row records of an accepted rule. */
  ghost predicate RowFor(w: World, r: Rule, row: Row) {
    && row.to == r.to
    && row.usesIP == UsesIP(r)
    && (row.usesProc <==> r.op == "" && ListsProcess(r))
    && (forall k :: k in row.keys <==> r.op == "" && HasKey(w, r, k))
    && (forall p :: p in row.probes <==> r.op == "" && HasProbe(w, r, p))
    && row.evals == if r.op == "" then [] else [CompileEval(r)]
  }

  lemma RowOfRule(w: World, r: Rule, row: Row)
    requires RuleRow(w, r) == Some(row)
    ensures Accepted(w, r) && RowFor(w, r, row)
  {
    forall k: Key
      ensures k in row.keys <==> r.op == "" && HasKey(w, r, k)
    {
      KeysOfMember(w, r, k);
    }
    forall p: Probe
      ensures p in row.probes <==> r.op == "" && HasProbe(w, r, p)
    {
      ProbesOfMember(w, r, p);
    }
  }

  datatype Engine = Engine(
    targets: seq<string>, def: string,
    index: map<Key, nat>, probes: seq<(Probe, nat)>, logical: seq<(Eval, nat)>,
    hasProc: bool, hasIP: bool)

  /** Each key is mapped to the first row that contains it. */
  ghost predicate IsIndex(m: map<Key, nat>, rows: seq<Row>) {
    && (forall k :: k in m ==> m[k] < |rows| && k in rows[m[k]].keys)
    && (forall j, k :: 0 <= j < |rows| && k in rows[j].keys ==> k in m && m[k] <= j)
  }

  ghost predicate IsProbeList(l: seq<(Probe, nat)>, rows: seq<Row>) {
    && (forall i :: 0 <= i < |l| ==> l[i].1 < |rows| && l[i].0 in rows[l[i].1].probes)
    && (forall j, x :: 0 <= j < |rows| && x in rows[j].probes ==> (x, j) in l)
  }

  ghost predicate IsEvalList(l: seq<(Eval, nat)>, rows: seq<Row>) {
    && (forall i :: 0 <= i < |l| ==> l[i].1 < |rows| && l[i].0 in rows[l[i].1].evals)
    && (forall j, x :: 0 <= j < |rows| && x in rows[j].evals ==> (x, j) in l)
  }

  ghost predicate IsEngine(e: Engine, rows: seq<Row>, def: string) {
    && e.def == def
    && |e.targets| == |rows|
    && (forall j :: 0 <= j < |rows| ==> e.targets[j] == rows[j].to)
    && IsIndex(e.index, rows)
    && IsProbeList(e.probes, rows)
    && IsEvalList(e.logical, rows)
    && (e.hasProc <==> exists j :: 0 <= j < |rows| && rows[j].usesProc)
    && (e.hasIP <==> exists j :: 0 <= j < |rows| && rows[j].usesIP)
  }

  /** `putMin` */
  function PutMin(m: map<Key, nat>, k: Key, ord: nat): map<Key, nat> {
    if k !in m || ord < m[k] then m[k := ord] else m
  }

  method PutAll(m: map<Key, nat>, row: Row, ord: nat, ghost rows: seq<Row>)
    returns (m': map<Key, nat>)
    requires IsIndex(m, rows) && |rows| == ord
    ensures IsIndex(m', rows + [row])
  {
    m' := m;
    for i := 0 to |row.keys|
      invariant forall k :: k in m' ==> if k in m then m'[k] == m[k] else m'[k] == ord && k in row.keys
      invariant forall k :: k in m ==> k in m'
      invariant forall n :: 0 <= n < i ==> row.keys[n] in m'
    {
      m' := PutMin(m', row.keys[i], ord);
    }
  }

  method AppendProbes(l: seq<(Probe, nat)>, row: Row, ord: nat, ghost rows: seq<Row>)
    returns (l': seq<(Probe, nat)>)
    requires IsProbeList(l, rows) && |rows| == ord
    ensures IsProbeList(l', rows + [row])
  {
    l' := l;
    for i := 0 to |row.probes|
      invariant l <= l'
      invariant forall n :: |l| <= n < |l'| ==> l'[n].1 == ord && l'[n].0 in row.probes
      invariant forall n :: 0 <= n < i ==> (row.probes[n], ord) in l'
    {
      l' := l' + [(row.probes[i], ord)];
    }
    assert forall x :: x in l ==> x in l';
  }

  method AppendEvals(l: seq<(Eval, nat)>, row: Row, ord: nat, ghost rows: seq<Row>)
    returns (l': seq<(Eval, nat)>)
    requires IsEvalList(l, rows) && |rows| == ord
    ensures IsEvalList(l', rows + [row])
  {
    l' := l;
    for i := 0 to |row.evals|
      invariant l <= l'
      invariant forall n :: |l| <= n < |l'| ==> l'[n].1 == ord && l'[n].0 in row.evals
      invariant forall n :: 0 <= n < i ==> (row.evals[n], ord) in l'
    {
      l' := l' + [(row.evals[i], ord)];
    }
    assert forall x :: x in l ==> x in l';
  }

  /** One entry per listed value, in order. */
  method Collect<A, B>(xs: seq<A>, f: A -> B) returns (ys: seq<B>)
    ensures ys == MapSeq(xs, f)
  {
    ys := [];
    for i := 0 to |xs|
      invariant |ys| == i && forall k :: 0 <= k < i ==> ys[k] == f(xs[k])
    {
      ys := ys + [f(xs[i])];
    }
  }

  /** The prefixes of a rule, or None when one does not parse. */
  method ParsePrefixes(w: World, cidrs: seq<string>) returns (r: Option<seq<Probe>>)
    ensures r.Some? <==> forall cc :: cc in cidrs ==> w.parsePrefix(cc).Some?
    ensures r.Some? ==> r.value == MapSeq(cidrs, cc => Cidr(MaskedPrefix(w, cc)))
  {
    var ps: seq<Probe> := [];
    for i := 0 to |cidrs|
      invariant |ps| == i && forall k :: 0 <= k < i ==> ps[k] == Cidr(MaskedPrefix(w, cidrs[k]))
      invariant forall k :: 0 <= k < i ==> w.parsePrefix(cidrs[k]).Some?
    {
      var p := w.parsePrefix(cidrs[i]);
      if p.None? {
        return None;
      }
      ps := ps + [Cidr(p.value)];
    }
    return Some(ps);
  }

  method CheckNetworks(network: seq<string>) returns (ok: bool)
    ensures ok <==> forall nw :: nw in network ==> nw == "tcp" || nw == "udp"
  {
    for i := 0 to |network|
      invariant forall k :: 0 <= k < i ==> network[k] == "tcp" || network[k] == "udp"
    {
      if network[i] != "tcp" && network[i] != "udp" {
        assert network[i] in network;
        return false;
      }
    }
    return true;
  }

  /** The map keys of a leaf rule, one loop per dimension. */
  method CollectKeys(w: World, r: Rule) returns (keys: seq<Key>)
    ensures keys == KeysOf(w, r)
  {
    var exact := Collect(r.domain, d => Exact(NormDomain(w, d)));
    var suffix := Collect(r.domainSuffix, s => Suffix(NormSuffix(w, s)));
    var ports := Collect(r.port, n => Port(n));
    var network := Collect(r.network, s => Network(s));
    var protocol := Collect(r.protocol, s => Protocol(w.lower(s)));
    var procName := Collect(r.processName, s => ProcName(s));
    var procPath := Collect(r.processPath, s => ProcPath(s));
    return exact + suffix + ports + network + protocol + procName + procPath;
  }

  /** The list entries of a leaf rule, or None when a prefix does not parse. */
  method CollectProbes(w: World, r: Rule) returns (probes: Option<seq<Probe>>)
    ensures probes.Some? <==> forall cc :: cc in r.ipCIDR ==> w.parsePrefix(cc).Some?
    ensures probes.Some? ==> probes.value == ProbesOf(w, r)
  {
    var keyword := Collect(r.domainKeyword, k => Keyword(w.lower(k)));
    var cidrs := ParsePrefixes(w, r.ipCIDR);
    if cidrs.None? {
      return None;
    }
    var geoip := Collect(r.geoIP, g => GeoIP(g));
    var geosite := Collect(r.geoSite, g => GeoSite(g));
    return Some(keyword + cidrs.value + geoip + geosite);
  }

  /** The loop body of compilation: reject the rule or say what it adds to the indexes. */
  method CompileRule(w: World, r: Rule) returns (row: Option<Row>)
    ensures row == RuleRow(w, r)
  {
    hide KeysOf;
    hide ProbesOf;
    hide DimCount;
    hide ValidComposite;
    hide CompileEval;
    hide UsesIP;
    if r.to == "" {
      return None;
    }
    if r.op != "" {
      if !ValidComposite(r) {
        return None;
      }
      return Some(Row([], [], [CompileEval(r)], false, UsesIP(r), r.to));
    }
    if DimCount(r) != 1 {
      return None;
    }
    var probes := CollectProbes(w, r);
    var networks := CheckNetworks(r.network);
    if probes.None? || !networks {
      return None;
    }
    var keys := CollectKeys(w, r);
    return Some(Row(keys, probes.value, [], ListsProcess(r), UsesIP(r), r.to));
  }

  method CompileAll(w: World, rules: seq<Rule>, def: string) returns (r: Option<Engine>, ghost rows: seq<Row>)
    ensures r.Some? <==> def != "" && forall j :: 0 <= j < |rules| ==> RuleRow(w, rules[j]).Some?
    ensures r.Some? ==> |rows| == |rules| && forall j :: 0 <= j < |rules| ==> RuleRow(w, rules[j]) == Some(rows[j])
    ensures r.Some? ==> IsEngine(r.value, rows, def)
  {
    hide RuleRow;
    rows := [];
    if def == "" {
      return None, rows;
    }
    var e := Engine([], def, map[], [], [], false, false);
    for i := 0 to |rules|
      invariant |rows| == i && forall j :: 0 <= j < i ==> RuleRow(w, rules[j]) == Some(rows[j])
      invariant IsEngine(e, rows, def)
    {
      var row := CompileRule(w, rules[i]);
      if row.None? {
        return None, rows;
      }
      var index := PutAll(e.index, row.value, i, rows);
      var probes := AppendProbes(e.probes, row.value, i, rows);
      var logical := AppendEvals(e.logical, row.value, i, rows);
      e := Engine(e.targets + [row.value.to], def, index, probes, logical,
                  e.hasProc || row.value.usesProc, e.hasIP || row.value.usesIP);
      assert (rows + [row.value])[i] == row.value;
      rows := rows + [row.value];
    }
    return Some(e), rows;
  }

  /** The engine that a table of rules compiles to. */
  ghost predicate Compiled(w: World, e: Engine, rules: seq<Rule>, rows: seq<Row>, def: string) {
    && |rules| == |rows| <= ORD_NONE
    && (forall j :: 0 <= j < |rules| ==> RowFor(w, rules[j], rows[j]))
    && IsEngine(e, rows, def)
  }

  /** Accepts exactly the tables with a default whose rules are each well formed; the indexes are
      those of the table as long as the ordinals fit. */
  method Compile(w: World, rules: seq<Rule>, def: string) returns (r: Option<Engine>)
    ensures r.Some? <==> def != "" && forall j :: 0 <= j < |rules| ==> Accepted(w, rules[j])
    ensures r.Some? && |rules| <= 0xFFFF_FFFF ==> exists rows :: Compiled(w, r.value, rules, rows, def)
  {
    ghost var rows;
    r, rows := CompileAll(w, rules, def);
    if r.Some? && |rules| <= ORD_NONE {
      forall j | 0 <= j < |rules|
        ensures RowFor(w, rules[j], rows[j])
      {
        RowOfRule(w, rules[j], rows[j]);
      }
      assert Compiled(w, r.value, rules, rows, def);
    }
  }
}
