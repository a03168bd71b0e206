/**
 The fake-IP pool: a ring cursor per address family hands out addresses, two maps per family and one
 shared map tie names and addresses together, and a wrapped cursor evicts the oldest name.
 */
module FakeIp {
  import opened Basics

  datatype Addr = Addr(v6: bool, n: nat)

  /** The number of addresses of a family. */
  function Space(v6: bool): nat {
    if v6 then 0x1_0000_0000_0000_0000_0000_0000_0000_0000 else 0x1_0000_0000
  }

  /** One family: its prefix as first address and size, the cursor and the names. */
  datatype Family = Family(have: bool, v6: bool, base: nat, size: nat, cur: nat, names: map<string, nat>)

  datatype Pool = Pool(v4: Family, v6: Family, ip2d: map<Addr, string>)

  /** `netip.Addr.Next`; the zero address after the last one. */
  function Next(v6: bool, n: nat): Option<nat> {
    if n + 1 < Space(v6) then Some(n + 1) else None
  }

  predicate Contains(f: Family, n: nat) {
    f.base <= n < f.base + f.size
  }

  /** `wrapNext`: the next address, or the first usable one after the prefix ends. */
  function WrapNext(f: Family, n: nat): nat {
    match Next(f.v6, n)
    case Some(m) => if Contains(f, m) then m else f.base + 1
    case None => f.base + 1
  }

  function Of(p: Pool, v6: bool): Family {
    if v6 then p.v6 else p.v4
  }

  /** Drop a name from a family if it holds this address. */
  function Forget(f: Family, host: string, ip: Addr): Family {
    if host in f.names && Addr(f.v6, f.names[host]) == ip then f.(names := f.names - {host}) else f
  }

  /** `evictLocked` */
  function Evict(p: Pool, ip: Addr): Pool {
    if ip !in p.ip2d then p
    else Pool(Forget(p.v4, p.ip2d[ip], ip), Forget(p.v6, p.ip2d[ip], ip), p.ip2d - {ip})
  }

  function WithFamily(p: Pool, f: Family): Pool {
    if f.v6 then p.(v6 := f) else p.(v4 := f)
  }

  /** `alloc` for an A (v4) or AAAA (v6) query. */
  function Alloc(p: Pool, host: string, v6: bool): (Option<nat>, Pool) {
    var f := Of(p, v6);
    if !f.have then (None, p)
    else if host in f.names then (Some(f.names[host]), p)
    else
      var n := f.cur;
      var p1 := Evict(WithFamily(p, f.(cur := WrapNext(f, f.cur))), Addr(v6, n));
      var f1 := Of(p1, v6);
      (Some(n), WithFamily(p1, f1.(names := f1.names[host := n])).(ip2d := p1.ip2d[Addr(v6, n) := host]))
  }

  // ---- Residues ----

  lemma Multiple(d: int, n: int)
    requires n > 0
    ensures d >= 1 ==> d * n >= n
    ensures d >= 2 ==> d * n >= 2 * n
    ensures d <= -1 ==> d * n <= -n
  {
    if d >= 2 {
      assert d * n == 2 * n + (d - 2) * n;
    } else if d <= -1 {
      assert d * n == -n + (d + 1) * n;
    }
  }

  lemma ResidueNext(k: nat, n: int)
    requires n > 0
    ensures (k + 1) % n == if k % n + 1 == n then 0 else k % n + 1
  {
    var d := (k + 1) / n - k / n;
    assert d * n == (k + 1) / n * n - k / n * n;
    assert 1 == d * n + ((k + 1) % n - k % n);
    Multiple(d, n);
  }

  lemma ResiduesDiffer(i: nat, j: nat, n: int)
    requires n > 0 && i < j
    ensures j - i < n ==> i % n != j % n
    ensures j - i == n ==> i % n == j % n
  {
    var d := j / n - i / n;
    assert d * n == j / n * n - i / n * n;
    assert j - i == d * n + (j % n - i % n);
    Multiple(d, n);
  }

  // ---- Invariant ----

  ghost function Hosts(f: Family): int {
    f.size - 1
  }

  /** The address of the `j`-th fresh allocation. */
  ghost function Slot(f: Family, j: nat): int
    requires f.size >= 2
  {
    f.base + 1 + j % Hosts(f)
  }

  /** Fresh allocations `Oldest .. k-1` are still in force. */
  ghost function Oldest(f: Family, k: nat): (i: nat)
    requires f.size >= 2
  {
    if k <= Hosts(f) then 0 else k - Hosts(f)
  }

  ghost predicate Current(f: Family, k: nat, j: nat)
    requires f.size >= 2
  {
    Oldest(f, k) <= j < k
  }

  ghost predicate FamilyShape(f: Family) {
    f.size >= 2 && f.base + f.size <= Space(f.v6)
  }

  /** `log` are the names of the family's fresh allocations, in order; no name is in force twice. */
  ghost predicate Distinct(f: Family, log: seq<string>)
    requires f.size >= 2
  {
    forall i: nat, j: nat :: Current(f, |log|, i) && Current(f, |log|, j) && log[i] == log[j] ==> i == j
  }

  /** The family knows the names in force, each at its slot. */
  ghost predicate Placed(f: Family, log: seq<string>)
    requires f.size >= 2
  {
    forall j: nat :: Current(f, |log|, j) ==> log[j] in f.names && f.names[log[j]] == Slot(f, j)
  }

  /** The family knows no other name. */
  ghost predicate OnlyRecent(f: Family, log: seq<string>)
    requires f.size >= 2
  {
    forall host :: host in f.names ==> exists j: nat :: Current(f, |log|, j) && log[j] == host
  }

  /** The cursor follows the ring; the family knows exactly the names of its last fresh
      allocations. An absent family knows nothing. */
  ghost predicate FamilyOk(f: Family, log: seq<string>) {
    if !f.have then f.names == map[] && log == []
    else
      && FamilyShape(f) && f.cur == Slot(f, |log|)
      && Distinct(f, log) && Placed(f, log) && OnlyRecent(f, log)
  }

  /** The shared map holds the family's current slots with their names, and no other address of
      the family. */
  ghost predicate ReverseOk(ip2d: map<Addr, string>, f: Family, log: seq<string>) {
    if !f.have then forall ip :: ip in ip2d ==> ip.v6 != f.v6
    else
      && f.size >= 2
      && (forall j: nat :: Current(f, |log|, j) ==>
        Addr(f.v6, Slot(f, j)) in ip2d && ip2d[Addr(f.v6, Slot(f, j))] == log[j])
      && (forall ip :: ip in ip2d && ip.v6 == f.v6 ==> exists j: nat :: Current(f, |log|, j) && ip.n == Slot(f, j))
  }

  datatype Logs = Logs(v4: seq<string>, v6: seq<string>)

  ghost predicate Inv(p: Pool, l: Logs) {
    && !p.v4.v6 && p.v6.v6
    && FamilyOk(p.v4, l.v4) && ReverseOk(p.ip2d, p.v4, l.v4)
    && FamilyOk(p.v6, l.v6) && ReverseOk(p.ip2d, p.v6, l.v6)
  }

  // ---- One fresh allocation ----

  /** Slots within a turn of the ring differ, a turn apart they coincide, and the cursor moves from
      one to the next. */
  lemma SlotFacts(f: Family, j: nat, k: nat)
    requires FamilyShape(f) && j < k
    ensures k - j < Hosts(f) ==> Slot(f, j) != Slot(f, k)
    ensures k - j == Hosts(f) ==> Slot(f, j) == Slot(f, k)
  {
    ResiduesDiffer(j, k, Hosts(f));
  }

  lemma CursorMoves(f: Family, k: nat)
    requires FamilyShape(f)
    ensures f.base < Slot(f, k) < f.base + f.size
    ensures WrapNext(f, Slot(f, k)) == Slot(f, k + 1)
  {
    ResidueNext(k, Hosts(f));
  }

  /** The family and the shared map after a fresh allocation for `host`. */
  ghost function FreshFamily(f: Family, ip2d: map<Addr, string>, host: string): Family {
    var ip := Addr(f.v6, f.cur);
    var f1 := if ip in ip2d then Forget(f, ip2d[ip], ip) else f;
    f1.(cur := WrapNext(f, f.cur), names := f1.names[host := f.cur])
  }

  lemma AllocIs(p: Pool, host: string, v6: bool)
    requires !p.v4.v6 && p.v6.v6 && Of(p, v6).have && host !in Of(p, v6).names
    ensures var f := Of(p, v6);
            Alloc(p, host, v6) ==
            (Some(f.cur), WithFamily(p, FreshFamily(f, p.ip2d, host)).(ip2d := p.ip2d[Addr(v6, f.cur) := host]))
  {
    var f := Of(p, v6);
    var ip := Addr(v6, f.cur);
    assert (p.ip2d - {ip})[ip := host] == p.ip2d[ip := host];
  }

  /** The address at the cursor is the one of the allocation that falls out of force, if any. */
  lemma CursorOwner(f: Family, ip2d: map<Addr, string>, log: seq<string>)
    requires f.have && FamilyOk(f, log) && ReverseOk(ip2d, f, log)
    ensures var ip, k := Addr(f.v6, f.cur), |log|;
            if k < Hosts(f) then ip !in ip2d
            else ip in ip2d && ip2d[ip] == log[k - Hosts(f)]
                 && log[k - Hosts(f)] in f.names && f.names[log[k - Hosts(f)]] == f.cur
  {
    hide Slot;
    var ip, k := Addr(f.v6, f.cur), |log|;
    if k < Hosts(f) {
      forall j: nat | Current(f, k, j)
        ensures Slot(f, j) != f.cur
      {
        SlotFacts(f, j, k);
      }
    } else {
      var j: nat := k - Hosts(f);
      SlotFacts(f, j, k);
      assert Current(f, k, j);
    }
  }

  /** The window after one more allocation, and the names after it. */
  lemma FreshShape(f: Family, ip2d: map<Addr, string>, log: seq<string>, host: string)
    requires f.have && FamilyOk(f, log) && ReverseOk(ip2d, f, log) && host !in f.names
    ensures var f', k := FreshFamily(f, ip2d, host), |log|;
            && FamilyShape(f') && f'.have && f'.cur == Slot(f', k + 1) && f'.v6 == f.v6
            && (forall j: nat :: Slot(f', j) == Slot(f, j))
            && (forall j: nat :: Current(f', k + 1, j) <==> j == k || (Current(f, k, j) && j != k - Hosts(f)))
            && f'.names == (if k < Hosts(f) then f.names else f.names - {log[k - Hosts(f)]})[host := Slot(f, k)]
  {
    hide Slot;
    hide WrapNext;
    CursorOwner(f, ip2d, log);
    CursorMoves(f, |log|);
    hide ReverseOk;
    hide Distinct;
    hide Placed;
    hide OnlyRecent;
    var f' := FreshFamily(f, ip2d, host);
    forall j: nat
      ensures Slot(f', j) == Slot(f, j)
    {
      SameSlot(f, f', j);
    }
  }

  lemma FreshPlaced(f: Family, f': Family, log: seq<string>, host: string)
    requires FamilyShape(f) && FamilyShape(f') && Distinct(f, log) && Placed(f, log) && host !in f.names
    requires forall j: nat :: Slot(f', j) == Slot(f, j)
    requires forall j: nat :: Current(f', |log| + 1, j) <==>
                                j == |log| || (Current(f, |log|, j) && j != |log| - Hosts(f))
    requires f'.names ==
             (if |log| < Hosts(f) then f.names else f.names - {log[|log| - Hosts(f)]})[host := Slot(f, |log|)]
    ensures Distinct(f', log + [host]) && Placed(f', log + [host])
  {
    hide Slot;
    var log', k := log + [host], |log|;
    if k >= Hosts(f) {
      var o: nat := k - Hosts(f);
      assert Current(f, k, o);
    }
    hide Current;
    forall j: nat | Current(f', k + 1, j)
      ensures log'[j] in f'.names && f'.names[log'[j]] == Slot(f', j)
    {
      assert j < k ==> log'[j] == log[j] && log[j] != host;
    }
  }

  lemma FreshOnlyRecent(f: Family, f': Family, log: seq<string>, host: string)
    requires FamilyShape(f) && FamilyShape(f') && OnlyRecent(f, log)
    requires forall j: nat :: Current(f', |log| + 1, j) <==>
                                j == |log| || (Current(f, |log|, j) && j != |log| - Hosts(f))
    requires f'.names ==
             (if |log| < Hosts(f) then f.names else f.names - {log[|log| - Hosts(f)]})[host := Slot(f, |log|)]
    ensures OnlyRecent(f', log + [host])
  {
    hide Slot;
    var log', k := log + [host], |log|;
    forall h | h in f'.names
      ensures exists j: nat :: Current(f', k + 1, j) && log'[j] == h
    {
      if h == host {
        assert Current(f', k + 1, k) && log'[k] == host;
      } else {
        var j: nat :| Current(f, k, j) && log[j] == h;
        assert Current(f', k + 1, j) && log'[j] == h;
      }
    }
  }

  lemma FreshKeepsFamily(f: Family, ip2d: map<Addr, string>, log: seq<string>, host: string)
    requires f.have && FamilyOk(f, log) && ReverseOk(ip2d, f, log) && host !in f.names
    ensures FamilyOk(FreshFamily(f, ip2d, host), log + [host])
  {
    hide Slot;
    hide ReverseOk;
    hide FreshFamily;
    hide Distinct;
    hide Placed;
    hide OnlyRecent;
    FreshShape(f, ip2d, log, host);
    FreshPlaced(f, FreshFamily(f, ip2d, host), log, host);
    FreshOnlyRecent(f, FreshFamily(f, ip2d, host), log, host);
  }

  lemma SameSlot(f: Family, f': Family, j: nat)
    requires f.size >= 2 && f'.base == f.base && f'.size == f.size
    ensures Slot(f', j) == Slot(f, j)
  {
  }

  lemma FreshKeepsReverse(f: Family, ip2d: map<Addr, string>, log: seq<string>, host: string)
    requires f.have && FamilyOk(f, log) && ReverseOk(ip2d, f, log) && host !in f.names
    ensures ReverseOk(ip2d[Addr(f.v6, f.cur) := host], FreshFamily(f, ip2d, host), log + [host])
  {
    hide Slot;
    hide FreshFamily;
    hide Distinct;
    hide Placed;
    hide OnlyRecent;
    FreshShape(f, ip2d, log, host);
    var f', log', k := FreshFamily(f, ip2d, host), log + [host], |log|;
    var ip, ip2d' := Addr(f.v6, f.cur), ip2d[Addr(f.v6, f.cur) := host];
    forall j: nat | j < k
      ensures k - Hosts(f) < j ==> Slot(f, j) != Slot(f, k)
      ensures k - Hosts(f) == j ==> Slot(f, j) == Slot(f, k)
    {
      SlotFacts(f, j, k);
    }
    assert forall j: nat :: Current(f, k, j) && j != k - Hosts(f) ==> Slot(f, j) != Slot(f, k);
    hide FamilyOk;
    forall a | a in ip2d' && a.v6 == f'.v6
      ensures exists j: nat :: Current(f', k + 1, j) && a.n == Slot(f', j)
    {
      if a == ip {
        assert Current(f', k + 1, k);
      } else {
        var j: nat :| Current(f, k, j) && a.n == Slot(f, j);
        assert Current(f', k + 1, j);
      }
    }
    forall j: nat | Current(f', k + 1, j)
      ensures Addr(f'.v6, Slot(f', j)) in ip2d' && ip2d'[Addr(f'.v6, Slot(f', j))] == log'[j]
    {
      assert j < k ==> Current(f, k, j);
    }
  }

  lemma OtherReverse(ip2d: map<Addr, string>, f: Family, log: seq<string>, ip: Addr, host: string)
    requires ReverseOk(ip2d, f, log) && ip.v6 != f.v6
    ensures ReverseOk(ip2d[ip := host], f, log)
  {
    hide Slot;
  }

  // ---- Whole runs ----

  datatype Query = Query(host: string, v6: bool)

  ghost function LogOf(l: Logs, v6: bool): seq<string> {
    if v6 then l.v6 else l.v4
  }

  /** A query is logged when it takes a fresh address. */
  ghost function LogsAfter(p: Pool, l: Logs, q: Query): Logs {
    if !Of(p, q.v6).have || q.host in Of(p, q.v6).names then l
    else if q.v6 then l.(v6 := l.v6 + [q.host]) else l.(v4 := l.v4 + [q.host])
  }

  /** A pool as `newFakeIPPool` leaves it, with room for at least one host in each family it has. */
  ghost predicate Fresh(p: Pool) {
    && !p.v4.v6 && p.v6.v6 && p.ip2d == map[]
    && FreshlyMade(p.v4) && FreshlyMade(p.v6)
  }

  ghost predicate FreshlyMade(f: Family) {
    && f.names == map[]
    && (f.have ==> FamilyShape(f) && f.cur == f.base + 1)
  }

  lemma FreshInv(p: Pool)
    requires Fresh(p)
    ensures Inv(p, Logs([], []))
  {
  }

  lemma AllocKeepsInv(p: Pool, l: Logs, q: Query)
    requires Inv(p, l)
    ensures Inv(Alloc(p, q.host, q.v6).1, LogsAfter(p, l, q))
  {
    hide Slot;
    var f := Of(p, q.v6);
    if f.have && q.host !in f.names {
      AllocIs(p, q.host, q.v6);
      FreshKeepsFamily(f, p.ip2d, LogOf(l, q.v6), q.host);
      FreshKeepsReverse(f, p.ip2d, LogOf(l, q.v6), q.host);
      OtherReverse(p.ip2d, Of(p, !q.v6), LogOf(l, !q.v6), Addr(q.v6, f.cur), q.host);
      hide FamilyOk;
      hide ReverseOk;
      hide FreshFamily;
      hide Alloc;
    }
  }

  /** Only the cursors and the names of a family ever change. */
  ghost predicate SamePrefixes(p: Pool, p': Pool) {
    forall v6 :: Of(p', v6) == Of(p, v6).(cur := Of(p', v6).cur, names := Of(p', v6).names)
  }

  lemma AllocKeepsPrefixes(p: Pool, q: Query)
    requires !p.v4.v6 && p.v6.v6
    ensures SamePrefixes(p, Alloc(p, q.host, q.v6).1)
  {
    if Of(p, q.v6).have && q.host !in Of(p, q.v6).names {
      AllocIs(p, q.host, q.v6);
      hide Alloc;
    }
  }

  ghost function Run(p: Pool, l: Logs, queries: seq<Query>): (Pool, Logs)
    decreases |queries|
  {
    if queries == [] then (p, l)
    else Run(Alloc(p, queries[0].host, queries[0].v6).1, LogsAfter(p, l, queries[0]), queries[1..])
  }

  lemma InvFamilies(p: Pool, l: Logs)
    requires Inv(p, l)
    ensures !p.v4.v6 && p.v6.v6
  {
  }

  /** The invariant survives any run, and the logs only grow. */
  lemma {:induction false} RunKeepsInv(p: Pool, l: Logs, queries: seq<Query>)
    requires Inv(p, l)
    ensures var (p', l') := Run(p, l, queries);
            Inv(p', l') && l.v4 <= l'.v4 && l.v6 <= l'.v6 && SamePrefixes(p, p')
    decreases |queries|
  {
    hide Inv;
    hide Alloc;
    if queries != [] {
      InvFamilies(p, l);
      AllocKeepsPrefixes(p, queries[0]);
      AllocKeepsInv(p, l, queries[0]);
      RunKeepsInv(Alloc(p, queries[0].host, queries[0].v6).1, LogsAfter(p, l, queries[0]), queries[1..]);
    }
  }

  /** After any run names and addresses are inverse to each other, and every address handed out lies
      in its prefix and is not the network address. */
  lemma PoolFaithful(p0: Pool, queries: seq<Query>)
    requires Fresh(p0)
    ensures var p := Run(p0, Logs([], []), queries).0;
            && (forall v6, host :: host in Of(p, v6).names ==>
                  Addr(v6, Of(p, v6).names[host]) in p.ip2d && p.ip2d[Addr(v6, Of(p, v6).names[host])] == host)
            && (forall ip :: ip in p.ip2d ==>
                  && Of(p0, ip.v6).have
                  && Of(p0, ip.v6).base < ip.n < Of(p0, ip.v6).base + Of(p0, ip.v6).size
                  && p.ip2d[ip] in Of(p, ip.v6).names && Of(p, ip.v6).names[p.ip2d[ip]] == ip.n)
  {
    FreshInv(p0);
    hide Fresh;
    RunKeepsInv(p0, Logs([], []), queries);
    hide Run;
    var (p, l) := Run(p0, Logs([], []), queries);
    InverseNames(p, l, false);
    InverseNames(p, l, true);
    InverseAddrs(p, l, false);
    InverseAddrs(p, l, true);
    hide Inv;
  }

  lemma InverseNames(p: Pool, l: Logs, v6: bool)
    requires Inv(p, l)
    ensures var f := Of(p, v6);
            forall host :: host in f.names ==>
              Addr(v6, f.names[host]) in p.ip2d && p.ip2d[Addr(v6, f.names[host])] == host
  {
    hide Slot;
    var f, log := Of(p, v6), LogOf(l, v6);
    forall host | host in f.names
      ensures Addr(v6, f.names[host]) in p.ip2d && p.ip2d[Addr(v6, f.names[host])] == host
    {
      var j: nat :| Current(f, |log|, j) && log[j] == host;
    }
  }

  lemma InverseAddrs(p: Pool, l: Logs, v6: bool)
    requires Inv(p, l)
    ensures var f := Of(p, v6);
            forall ip :: ip in p.ip2d && ip.v6 == v6 ==>
              && f.have && f.base < ip.n < f.base + f.size
              && p.ip2d[ip] in f.names && f.names[p.ip2d[ip]] == ip.n
  {
    hide Slot;
    var f, log := Of(p, v6), LogOf(l, v6);
    forall ip | ip in p.ip2d && ip.v6 == v6
      ensures f.have && f.base < ip.n < f.base + f.size && p.ip2d[ip] in f.names && f.names[p.ip2d[ip]] == ip.n
    {
      var j: nat :| Current(f, |log|, j) && ip.n == Slot(f, j);
      CursorMoves(f, j);
    }
  }

  /** A name keeps its address while fewer than a ring of fresh allocations follow its own, and a
      repeated query then answers it without any change; after a full ring without a fresh
      allocation of its own the name is gone. */
  lemma Stability(p: Pool, l: Logs, host: string, v6: bool, queries: seq<Query>)
    requires Inv(p, l) && Of(p, v6).have && host !in Of(p, v6).names
    ensures var f, k := Of(p, v6), |LogOf(l, v6)|;
            var (answer, p1) := Alloc(p, host, v6);
            var (p2, l2) := Run(p1, LogsAfter(p, l, Query(host, v6)), queries);
            && answer == Some(Slot(f, k)) && |LogOf(l2, v6)| > k
            && (|LogOf(l2, v6)| - k <= Hosts(f) ==> Alloc(p2, host, v6) == (answer, p2))
            && (|LogOf(l2, v6)| - k > Hosts(f) && host !in LogOf(l2, v6)[k + 1..] ==> host !in Of(p2, v6).names)
  {
    hide Slot;
    var f, k := Of(p, v6), |LogOf(l, v6)|;
    var (answer, p1) := Alloc(p, host, v6);
    var l1 := LogsAfter(p, l, Query(host, v6));
    AllocKeepsInv(p, l, Query(host, v6));
    AllocIs(p, host, v6);
    FreshFamilyShape(f, p.ip2d, host);
    assert Of(p1, v6).base == f.base && Of(p1, v6).size == f.size && Of(p1, v6).have;
    hide FreshFamily;
    RunKeepsInv(p1, l1, queries);
    hide Run;
    var (p2, l2) := Run(p1, l1, queries);
    RingPosition(p2, l2, v6, host, k);
    SameSlot(f, Of(p2, v6), k);
  }

  lemma FreshFamilyShape(f: Family, ip2d: map<Addr, string>, host: string)
    ensures var f' := FreshFamily(f, ip2d, host);
            f'.have == f.have && f'.v6 == f.v6 && f'.base == f.base && f'.size == f.size
  {
  }

  /** What the invariant says of the name of fresh allocation `k`. */
  lemma RingPosition(p: Pool, l: Logs, v6: bool, host: string, k: nat)
    requires Inv(p, l) && Of(p, v6).have && k < |LogOf(l, v6)| && LogOf(l, v6)[k] == host
    ensures var f, log := Of(p, v6), LogOf(l, v6);
            && f.size >= 2
            && (|log| - k <= Hosts(f) ==> host in f.names && f.names[host] == Slot(f, k))
            && (|log| - k > Hosts(f) && host !in log[k + 1..] ==> host !in f.names)
  {
    hide Slot;
    var f, log := Of(p, v6), LogOf(l, v6);
    if |log| - k <= Hosts(f) {
      assert Current(f, |log|, k);
    } else if host in f.names {
      var j: nat :| Current(f, |log|, j) && log[j] == host;
      assert log[k + 1..][j - (k + 1)] == host;
    }
  }

  /** A prefix of a single address has no room: the first answer lies outside it. A prefix with at
      least two addresses is exactly what keeps the answers inside. */
  lemma InsideIffRoom(p: Pool, host: string, v6: bool)
    requires !p.v4.v6 && p.v6.v6
    requires var f := Of(p, v6);
             f.have && f.size >= 1 && f.names == map[] && f.cur == f.base + 1
    ensures var f := Of(p, v6);
            Contains(f, Alloc(p, host, v6).0.value) <==> f.size >= 2
  {
    AllocIs(p, host, v6);
  }

  // ---- Looking a name up ----

  /** First of the v6 addresses that stand for v4 ones. */
  const MAPPED := 0xFFFF_0000_0000

  predicate Mapped(ip: Addr) {
    ip.v6 && MAPPED <= ip.n < MAPPED + Space(false)
  }

  /** `netip.Addr.Unmap` */
  function Unmap(ip: Addr): Addr {
    if Mapped(ip) then Addr(false, ip.n - MAPPED) else ip
  }

  function LookupName(p: Pool, ip: Addr): Option<string> {
    if Unmap(ip) in p.ip2d then Some(p.ip2d[Unmap(ip)]) else None
  }

  /** A name is found again under the address it was given, unless that is one of the v6 addresses that
      stand for v4 ones; under such an address it is found exactly when it also holds the v4 address. */
  lemma LookupInverts(p: Pool, l: Logs, v6: bool)
    requires Inv(p, l)
    ensures forall host :: host in Of(p, v6).names ==>
              var ip := Addr(v6, Of(p, v6).names[host]);
              var mapped := v6 && 0xFFFF_0000_0000 <= ip.n < 0x1_0000_0000_0000;
              LookupName(p, ip) == Some(host) <==>
                !mapped || (host in p.v4.names && p.v4.names[host] == ip.n - 0xFFFF_0000_0000)
  {
    InverseNames(p, l, v6);
    InverseAddrs(p, l, false);
    hide Inv;
  }

  // ---- The pool object ----

  datatype QType = A | Aaaa | Other

  class FakeIpPool {
    const have4: bool
    const base4: nat
    const size4: nat
    const have6: bool
    const base6: nat
    const size6: nat
    var cur4: nat
    var cur6: nat
    var d2v4: map<string, nat>
    var d2v6: map<string, nat>
    var ip2d: map<Addr, string>

    ghost function View(): Pool
      reads this
    {
      Pool(Family(have4, false, base4, size4, cur4, d2v4), Family(have6, true, base6, size6, cur6, d2v6), ip2d)
    }

    constructor (have4: bool, base4: nat, size4: nat, have6: bool, base6: nat, size6: nat)
      ensures (have4 ==> size4 >= 2 && base4 + size4 <= 0x1_0000_0000) ==>
                (have6 ==> size6 >= 2 && base6 + size6 <= 0x1_0000_0000_0000_0000_0000_0000_0000_0000) ==>
                  Fresh(View())
      ensures ip2d == map[]
      ensures View().v4 == Family(have4, false, base4, size4, base4 + 1, map[])
      ensures View().v6 == Family(have6, true, base6, size6, base6 + 1, map[])
    {
      this.have4, this.base4, this.size4 := have4, base4, size4;
      this.have6, this.base6, this.size6 := have6, base6, size6;
      cur4, cur6 := base4 + 1, base6 + 1;
      d2v4, d2v6, ip2d := map[], map[], map[];
    }

    method EvictLocked(ip: Addr)
      modifies this
      ensures View() == Evict(old(View()), ip)
    {
      if ip in ip2d {
        var name := ip2d[ip];
        ip2d := ip2d - {ip};
        if name in d2v4 && Addr(false, d2v4[name]) == ip {
          d2v4 := d2v4 - {name};
        }
        if name in d2v6 && Addr(true, d2v6[name]) == ip {
          d2v6 := d2v6 - {name};
        }
      }
    }

    /** Any query type: only A and AAAA queries get an address, and only of a family the pool has. */
    method Allocate(host: string, qtype: QType) returns (answer: Option<Addr>)
      modifies this
      ensures qtype.Other? ==> answer == None && View() == old(View())
      ensures !qtype.Other? ==>
                var (n, p) := Alloc(old(View()), host, qtype.Aaaa?);
                View() == p && answer == (if n.Some? then Some(Addr(qtype.Aaaa?, n.value)) else None)
    {
      match qtype
      case A =>
        if !have4 {
          return None;
        }
        if host in d2v4 {
          return Some(Addr(false, d2v4[host]));
        }
        var n := cur4;
        cur4 := WrapNext(Family(have4, false, base4, size4, cur4, d2v4), cur4);
        EvictLocked(Addr(false, n));
        d2v4 := d2v4[host := n];
        ip2d := ip2d[Addr(false, n) := host];
        return Some(Addr(false, n));
      case Aaaa =>
        if !have6 {
          return None;
        }
        if host in d2v6 {
          return Some(Addr(true, d2v6[host]));
        }
        var n := cur6;
        cur6 := WrapNext(Family(have6, true, base6, size6, cur6, d2v6), cur6);
        EvictLocked(Addr(true, n));
        d2v6 := d2v6[host := n];
        ip2d := ip2d[Addr(true, n) := host];
        return Some(Addr(true, n));
      case Other =>
        return None;
    }

    /** The reverse lookup finds a name exactly when the name still answers with this address, a
        4-in-6 address standing for the v4 one. */
    method Lookup(ip: Addr, ghost l: Logs) returns (host: Option<string>)
      requires Inv(View(), l)
      ensures host == LookupName(View(), ip)
      ensures var at := Unmap(ip); var names := Of(View(), at.v6).names;
              && (host.Some? <==> exists name :: name in names && names[name] == at.n)
              && (host.Some? ==> host.value in names && names[host.value] == at.n)
    {
      var at := Unmap(ip);
      InverseNames(View(), l, at.v6);
      InverseAddrs(View(), l, at.v6);
      host := if at in ip2d then Some(ip2d[at]) else None;
    }
  }
}
