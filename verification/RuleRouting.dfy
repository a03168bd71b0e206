/**
 Routing with the compiled indexes, and its agreement with the top-down scan.
 */
module RuleRouting {
  import opened Basics
  import opened Rules
  import opened RuleEngine

  /** `best` is the least element of `hits`, or ORD_NONE when there is none. */
  ghost predicate Least(best: nat, hits: set<nat>) {
    && (forall j :: j in hits ==> best <= j < ORD_NONE)
    && (best == ORD_NONE || best in hits)
  }

  ghost function KeyHits(rows: seq<Row>, q: set<Key>): set<nat> {
    set j | 0 <= j < |rows| && exists k :: k in rows[j].keys && k in q
  }

  ghost function ProbeHits(rows: seq<Row>, hit: Probe -> bool): set<nat> {
    set j | 0 <= j < |rows| && exists p :: p in rows[j].probes && hit(p)
  }

  ghost function EvalHits(w: World, rows: seq<Row>, c: Conn): set<nat> {
    set j | 0 <= j < |rows| && exists e :: e in rows[j].evals && EvalHit(w, e, c)
  }

  /** `if o, ok := m[k]; ok && o < best { best = o }` */
  function TakeMin(m: map<Key, nat>, k: Key, best: nat): nat {
    if k in m && m[k] < best then m[k] else best
  }

  lemma TakeMinLeast(m: map<Key, nat>, rows: seq<Row>, k: Key, best: nat, hits: set<nat>)
    requires IsIndex(m, rows) && |rows| <= ORD_NONE && Least(best, hits)
    ensures Least(TakeMin(m, k, best), hits + KeyHits(rows, {k}))
  {
    if k in m {
      assert m[k] in KeyHits(rows, {k});
    }
  }

  lemma LookupStep(m: map<Key, nat>, rows: seq<Row>, k: Key, best: nat, hits: set<nat>, q: set<Key>)
    requires IsIndex(m, rows) && |rows| <= ORD_NONE && Least(best, hits + KeyHits(rows, q))
    ensures Least(TakeMin(m, k, best), hits + KeyHits(rows, q + {k}))
  {
    TakeMinLeast(m, rows, k, best, hits + KeyHits(rows, q));
    KeyHitsUnion(rows, q, {k});
  }

  lemma KeyHitsUnion(rows: seq<Row>, p: set<Key>, q: set<Key>)
    ensures KeyHits(rows, p + q) == KeyHits(rows, p) + KeyHits(rows, q)
    ensures KeyHits(rows, {}) == {}
  {
  }

  // ---- The suffix chain ----

  /** The host and every part of it that follows a dot. */
  ghost function SuffixKeys(host: string, n: nat): set<Key> {
    set i | 0 <= i < n && i < |host| && (i == 0 || host[i - 1] == '.') :: Suffix(host[i..])
  }

  /** The chain looks up exactly the non-empty suffixes on a label boundary. */
  lemma SuffixKeysAreHits(host: string, s: string)
    ensures Suffix(s) in SuffixKeys(host, |host|) <==> s != "" && SuffixHit(host, s)
  {
    if s != "" && SuffixHit(host, s) {
      var i := |host| - |s|;
      if host != s {
        assert host[|host| - |"." + s|..][0] == '.';
        assert host[i..] == host[|host| - |"." + s|..][1..];
      }
      assert Suffix(host[i..]) in SuffixKeys(host, |host|);
    }
    if Suffix(s) in SuffixKeys(host, |host|) {
      var i :| 0 <= i < |host| && (i == 0 || host[i - 1] == '.') && Suffix(host[i..]) == Suffix(s);
      if i != 0 {
        assert host[i - 1..] == "." + s;
      }
    }
  }

  function IndexByte(s: string, c: char): (r: int)
    ensures -1 <= r < |s|
    ensures r < 0 ==> c !in s
    ensures r >= 0 ==> s[r] == c && c !in s[..r]
  {
    if s == "" then -1
    else if s[0] == c then 0
    else
      var t := IndexByte(s[1..], c);
      assert forall i :: 0 < i < |s| ==> s[i] == s[1..][i - 1];
      if t < 0 then -1 else t + 1
  }

  method SuffixBest(m: map<Key, nat>, host: string, best0: nat, ghost rows: seq<Row>, ghost hits: set<nat>)
    returns (best: nat)
    requires IsIndex(m, rows) && |rows| <= ORD_NONE && Least(best0, hits)
    ensures Least(best, hits + KeyHits(rows, SuffixKeys(host, |host|)))
  {
    best := best0;
    ghost var q: set<Key> := {};
    KeyHitsUnion(rows, {}, {});
    assert hits + KeyHits(rows, q) == hits;
    var i := 0;
    while i < |host|
      invariant 0 <= i <= |host| && (i == 0 || host[i - 1] == '.')
      invariant q == SuffixKeys(host, i)
      invariant Least(best, hits + KeyHits(rows, q))
    {
      var s := host[i..];
      var d := IndexByte(s, '.');
      NextSuffix(host, i, d);
      LookupStep(m, rows, Suffix(s), best, hits, q);
      best := TakeMin(m, Suffix(s), best);
      q := q + {Suffix(s)};
      if d < 0 {
        return;
      }
      i := i + d + 1;
    }
  }

  /** Between the start of a label and the next dot no other label starts. */
  lemma NextSuffix(host: string, i: nat, d: int)
    requires i < |host| && (i == 0 || host[i - 1] == '.') && d == IndexByte(host[i..], '.')
    ensures SuffixKeys(host, if d < 0 then |host| else i + d + 1) == SuffixKeys(host, i) + {Suffix(host[i..])}
  {
    var s, next := host[i..], if d < 0 then |host| else i + d + 1;
    forall n | i <= n < next && (d < 0 || n < i + d)
      ensures host[n] != '.'
    {
      assert host[n] == s[n - i];
      assert d >= 0 ==> s[..d][n - i] == host[n];
    }
  }

  // ---- The scanned lists ----

  method ScanProbes(l: seq<(Probe, nat)>, hit: Probe -> bool, best0: nat, ghost rows: seq<Row>, ghost hits: set<nat>)
    returns (best: nat)
    requires IsProbeList(l, rows) && |rows| <= ORD_NONE && Least(best0, hits)
    ensures Least(best, hits + ProbeHits(rows, hit))
  {
    best := best0;
    for i := 0 to |l|
      invariant best == best0 || best in ProbeHits(rows, hit)
      invariant best <= best0
      invariant forall n :: 0 <= n < i && hit(l[n].0) ==> best <= l[n].1
    {
      if l[i].1 < best && hit(l[i].0) {
        best := l[i].1;
      }
    }
    forall j | j in ProbeHits(rows, hit)
      ensures best <= j
    {
      var p :| p in rows[j].probes && hit(p);
      assert (p, j) in l;
    }
  }

  predicate DomainProbe(w: World, p: Probe, host: string) {
    match p
    case Keyword(k) => Contains(host, k)
    case GeoSite(g) => w.inDomainSet(g, host)
    case _ => false
  }

  predicate AddrProbe(w: World, p: Probe, ip: Addr) {
    match p
    case Cidr(pfx) => w.contains(pfx, ip)
    case GeoIP(g) => w.inIPSet(g, ip)
    case _ => false
  }

  ghost predicate ProbeHit(w: World, c: Conn, p: Probe) {
    || (c.fqdn != "" && DomainProbe(w, p, NormDomain(w, c.fqdn)))
    || (exists ip :: ip in IpSet(w, c) && AddrProbe(w, p, ip))
  }

  ghost function AddrHits(w: World, rows: seq<Row>, ips: seq<Addr>): set<nat> {
    set j | 0 <= j < |rows| && exists p, ip :: p in rows[j].probes && ip in ips && AddrProbe(w, p, ip)
  }

  method AddrBest(w: World, l: seq<(Probe, nat)>, ips: seq<Addr>, best0: nat, ghost rows: seq<Row>,
                  ghost hits: set<nat>)
    returns (best: nat)
    requires IsProbeList(l, rows) && |rows| <= ORD_NONE && Least(best0, hits)
    ensures Least(best, hits + AddrHits(w, rows, ips))
  {
    best := best0;
    assert hits + AddrHits(w, rows, ips[..0]) == hits;
    for i := 0 to |ips|
      invariant Least(best, hits + AddrHits(w, rows, ips[..i]))
    {
      best := ScanProbes(l, p => AddrProbe(w, p, ips[i]), best, rows, hits + AddrHits(w, rows, ips[..i]));
      assert ips[..i + 1] == ips[..i] + [ips[i]];
      assert hits + AddrHits(w, rows, ips[..i]) + ProbeHits(rows, p => AddrProbe(w, p, ips[i]))
          == hits + AddrHits(w, rows, ips[..i + 1]);
    }
    assert ips[..|ips|] == ips;
  }

  ghost function HostKeys(host: string): set<Key> {
    {Exact(host)} + SuffixKeys(host, |host|)
  }

  /** The keys looked up besides the port. */
  ghost function Lookups(w: World, c: Conn): set<Key> {
    (if c.network != "" then {Network(c.network)} else {})
    + (if c.proto != "" then {Protocol(c.proto)} else {})
    + (if c.fqdn != "" then HostKeys(NormDomain(w, c.fqdn)) else {})
  }

  ghost function QueriedSet(w: World, c: Conn): set<Key> {
    Lookups(w, c) + {Port(c.port)}
  }

  ghost predicate RowHit(w: World, row: Row, c: Conn) {
    || (exists k :: k in row.keys && k in QueriedSet(w, c))
    || (exists p :: p in row.probes && ProbeHit(w, c, p))
  }

  ghost function DimHits(w: World, rows: seq<Row>, c: Conn): set<nat> {
    set j | 0 <= j < |rows| && RowHit(w, rows[j], c)
  }

  lemma DimHitsSplit(w: World, rows: seq<Row>, c: Conn, dom: set<nat>, addr: set<nat>)
    requires dom == if c.fqdn != "" then ProbeHits(rows, p => DomainProbe(w, p, NormDomain(w, c.fqdn))) else {}
    requires addr == AddrHits(w, rows, IpSet(w, c))
    ensures DimHits(w, rows, c) == KeyHits(rows, QueriedSet(w, c)) + dom + addr
  {
    forall j | 0 <= j < |rows|
      ensures j in dom + addr <==> exists p :: p in rows[j].probes && ProbeHit(w, c, p)
    {
    }
  }

  method HostBest(m: map<Key, nat>, host: string, best0: nat, ghost rows: seq<Row>, ghost hits: set<nat>)
    returns (best: nat)
    requires IsIndex(m, rows) && |rows| <= ORD_NONE && Least(best0, hits)
    ensures Least(best, hits + KeyHits(rows, HostKeys(host)))
  {
    TakeMinLeast(m, rows, Exact(host), best0, hits);
    ghost var q := SuffixKeys(host, |host|);
    best := SuffixBest(m, host, TakeMin(m, Exact(host), best0), rows, hits + KeyHits(rows, {Exact(host)}));
    KeyHitsUnion(rows, {Exact(host)}, q);
    assert hits + KeyHits(rows, {Exact(host)}) + KeyHits(rows, q) == hits + KeyHits(rows, {Exact(host)} + q);
  }

  method LookupBest(w: World, m: map<Key, nat>, c: Conn, ghost rows: seq<Row>) returns (best: nat)
    requires IsIndex(m, rows) && |rows| <= ORD_NONE
    ensures Least(best, KeyHits(rows, Lookups(w, c)))
  {
    best := ORD_NONE;
    ghost var q: set<Key> := {};
    KeyHitsUnion(rows, {}, {});
    if c.network != "" {
      TakeMinLeast(m, rows, Network(c.network), best, KeyHits(rows, q));
      KeyHitsUnion(rows, q, {Network(c.network)});
      best, q := TakeMin(m, Network(c.network), best), q + {Network(c.network)};
    }
    if c.proto != "" {
      TakeMinLeast(m, rows, Protocol(c.proto), best, KeyHits(rows, q));
      KeyHitsUnion(rows, q, {Protocol(c.proto)});
      best, q := TakeMin(m, Protocol(c.proto), best), q + {Protocol(c.proto)};
    }
    ghost var h: set<Key> := {};
    if c.fqdn != "" {
      h := HostKeys(NormDomain(w, c.fqdn));
      best := HostBest(m, NormDomain(w, c.fqdn), best, rows, KeyHits(rows, q));
    }
    KeyHitsUnion(rows, q, h);
    assert Lookups(w, c) == q + h;
  }

  method DimsBest(w: World, e: Engine, c: Conn, ghost rows: seq<Row>) returns (best: nat)
    requires IsEngine(e, rows, e.def) && |rows| <= ORD_NONE
    ensures Least(best, DimHits(w, rows, c))
  {
    ghost var q := Lookups(w, c);
    best := LookupBest(w, e.index, c, rows);
    ghost var dom: set<nat> := {};
    if c.fqdn != "" {
      var host := NormDomain(w, c.fqdn);
      best := ScanProbes(e.probes, p => DomainProbe(w, p, host), best, rows, KeyHits(rows, q));
      dom := ProbeHits(rows, p => DomainProbe(w, p, host));
    }
    assert Least(best, KeyHits(rows, q) + dom);
    best := AddrBest(w, e.probes, IpSet(w, c), best, rows, KeyHits(rows, q) + dom);
    ghost var addr := AddrHits(w, rows, IpSet(w, c));
    TakeMinLeast(e.index, rows, Port(c.port), best, KeyHits(rows, q) + dom + addr);
    best := TakeMin(e.index, Port(c.port), best);
    KeyHitsUnion(rows, q, {Port(c.port)});
    DimHitsSplit(w, rows, c, dom, addr);
    assert KeyHits(rows, q) + dom + addr + KeyHits(rows, {Port(c.port)}) == DimHits(w, rows, c);
  }

  // ---- Routing ----

  ghost function ProcessKeys(p: Option<Process>): set<Key> {
    if p.Some? then {ProcName(p.value.name), ProcPath(p.value.path)} else {}
  }

  ghost function AllHits(w: World, rows: seq<Row>, c: Conn): set<nat> {
    DimHits(w, rows, c) + KeyHits(rows, ProcessKeys(ProcessOf(c))) + EvalHits(w, rows, c)
  }

  method LogicalBest(l: seq<(Eval, nat)>, ctx: EvalCtx, best0: nat, ghost rows: seq<Row>, ghost hits: set<nat>)
    returns (best: nat)
    requires IsEvalList(l, rows) && |rows| <= ORD_NONE && Least(best0, hits)
    requires ctx.Valid()
    modifies ctx
    ensures ctx.Valid()
    ensures Least(best, hits + EvalHits(ctx.w, rows, ctx.c))
    ensures old(ctx.procDone) ==> ctx.procDone
    ensures (forall x :: x in l ==> !AsksProcess(x.0)) ==> ctx.procDone == old(ctx.procDone)
  {
    best := best0;
    ghost var es := EvalHits(ctx.w, rows, ctx.c);
    for i := 0 to |l|
      invariant ctx.Valid() && (old(ctx.procDone) ==> ctx.procDone)
      invariant (forall x :: x in l ==> !AsksProcess(x.0)) ==> ctx.procDone == old(ctx.procDone)
      invariant best == best0 || best in es
      invariant best <= best0
      invariant forall n :: 0 <= n < i && EvalHit(ctx.w, l[n].0, ctx.c) ==> best <= l[n].1
    {
      if l[i].1 < best {
        var b := ctx.Run(l[i].0);
        if b {
          best := l[i].1;
        }
      }
    }
    forall j | j in es
      ensures best <= j
    {
      var e :| e in rows[j].evals && EvalHit(ctx.w, e, ctx.c);
      assert (e, j) in l;
    }
  }

  method ProcessBest(m: map<Key, nat>, p: Option<Process>, best0: nat, ghost rows: seq<Row>, ghost hits: set<nat>)
    returns (best: nat)
    requires IsIndex(m, rows) && |rows| <= ORD_NONE && Least(best0, hits)
    ensures Least(best, hits + KeyHits(rows, ProcessKeys(p)))
  {
    best := best0;
    KeyHitsUnion(rows, {}, {});
    if p.Some? {
      var n, d := ProcName(p.value.name), ProcPath(p.value.path);
      TakeMinLeast(m, rows, n, best, hits);
      best := TakeMin(m, n, best);
      TakeMinLeast(m, rows, d, best, hits + KeyHits(rows, {n}));
      best := TakeMin(m, d, best);
      KeyHitsUnion(rows, {n}, {d});
      assert {n} + {d} == ProcessKeys(p);
      assert hits + KeyHits(rows, {n}) + KeyHits(rows, {d}) == hits + KeyHits(rows, ProcessKeys(p));
    }
  }

  /** Without process rules no row is reached by a process lookup. */
  lemma NoProcessRows(w: World, e: Engine, rules: seq<Rule>, rows: seq<Row>, def: string, p: Option<Process>)
    requires Compiled(w, e, rules, rows, def) && !e.hasProc
    ensures KeyHits(rows, ProcessKeys(p)) == {}
  {
    forall j | 0 <= j < |rows|
      ensures forall k :: k in rows[j].keys ==> k !in ProcessKeys(p)
    {
      assert RowFor(w, rules[j], rows[j]);
    }
  }

  /** Routes to the least-numbered row hit. The process finder is called at most once: not at all when no
      rule needs it, and surely when a leaf rule does. */
  method RouteRows(w: World, e: Engine, c: Conn, ghost rules: seq<Rule>, ghost rows: seq<Row>)
    returns (best: nat, finderCalls: nat)
    requires Compiled(w, e, rules, rows, e.def)
    ensures Least(best, AllHits(w, rows, c))
    ensures finderCalls <= if c.hasFinder && c.srcValid then 1 else 0
    ensures !e.hasProc && (forall x :: x in e.logical ==> !AsksProcess(x.0)) ==> finderCalls == 0
    ensures e.hasProc && c.hasFinder && c.srcValid ==> finderCalls == 1
  {
    best := DimsBest(w, e, c, rows);
    ghost var hits := DimHits(w, rows, c);
    var ctx := new EvalCtx(w, c);
    if e.hasProc && c.hasFinder && c.srcValid {
      var p := ctx.Proc();
      best := ProcessBest(e.index, p, best, rows, hits);
    } else if !e.hasProc {
      NoProcessRows(w, e, rules, rows, e.def, ProcessOf(c));
    } else {
      KeyHitsUnion(rows, {}, {});
    }
    assert Least(best, hits + KeyHits(rows, ProcessKeys(ProcessOf(c))));
    best := LogicalBest(e.logical, ctx, best, rows, hits + KeyHits(rows, ProcessKeys(ProcessOf(c))));
    finderCalls := ctx.calls;
  }
}
