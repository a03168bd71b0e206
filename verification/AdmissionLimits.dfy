/**
 What admission promises to the operator and to a connection: the limits of the configuration bound the
 connections that are admitted, and an admission gets through unless others keep getting in between.
 */
module AdmissionLimits {
  import opened Basics
  import opened Admission

  // ---- Limits bind ----

  /** Admitted connections that came through gate `g`. */
  ghost function ThroughGate(s: State, g: nat): set<nat> {
    set t | t in s.threads && s.threads[t].pc == Held && Some(g) in s.threads[t].req.gates
  }

  /** Admitted connections of the user `u`, over all its cells. */
  ghost function OfUser(cfg: Config, s: State, u: nat): set<nat> {
    set t | t in s.threads && s.threads[t].pc == Held && s.threads[t].req.metered
            && cfg.sharedOf(s.threads[t].req.cell) == Some(u)
  }

  /** Admitted connections of the cell `c`. */
  ghost function OfCell(s: State, c: nat): set<nat> {
    set t | t in s.threads && s.threads[t].pc == Held && s.threads[t].req.metered && s.threads[t].req.cell == c
  }

  lemma {:induction false} ProjectSize(ts: set<nat>, hs: set<(nat, Slot)>, at: map<nat, Slot>)
    requires forall t :: t in ts ==> t in at && (t, at[t]) in hs
    ensures |ts| <= |hs|
  {
    if t :| t in ts {
      ProjectSize(ts - {t}, hs - {(t, at[t])}, at);
    }
  }

  lemma HeldAtMost(cfg: Config, s: State, r: Res, ts: set<nat>, at: map<nat, Slot>)
    requires Exact(cfg, s)
    requires forall t :: t in ts ==>
               && t in s.threads && t in at
               && at[t] in Slots(s.threads[t].req) && Holding(cfg, s.threads[t], at[t], r)
    ensures |ts| <= Get(s.counts, r)
  {
    hide Holding;
    hide Slots;
    ProjectSize(ts, Holders(cfg, s.threads, r), at);
  }

  lemma GateBinds(cfg: Config, s: State, g: nat)
    requires Inv(cfg, s) && cfg.gateMax(g) > 0
    ensures |ThroughGate(s, g)| <= cfg.gateMax(g)
  {
    var ts := ThroughGate(s, g);
    var at := map t | t in ts :: GateSlot(IndexOfGate(s.threads[t].req.gates, g));
    HeldAtMost(cfg, s, GateRes(g), ts, at);
  }

  ghost function IndexOfGate(gates: seq<Option<nat>>, g: nat): (i: nat)
    requires Some(g) in gates
    ensures i < |gates| && gates[i] == Some(g)
  {
    var i :| 0 <= i < |gates| && gates[i] == Some(g); i
  }

  lemma UserBinds(cfg: Config, s: State, u: nat)
    requires Inv(cfg, s) && cfg.sharedMax(u) > 0
    ensures |OfUser(cfg, s, u)| <= cfg.sharedMax(u)
  {
    HeldAtMost(cfg, s, SharedRes(u), OfUser(cfg, s, u), map t | t in OfUser(cfg, s, u) :: SharedSlot);
  }

  lemma CellBinds(cfg: Config, s: State, c: nat)
    requires Inv(cfg, s) && cfg.cellMax(c) > 0
    requires cfg.sharedOf(c).None? || cfg.sharedMax(cfg.sharedOf(c).value) == 0
    ensures |OfCell(s, c)| <= cfg.cellMax(c)
  {
    HeldAtMost(cfg, s, CellRes(c), OfCell(s, c), map t | t in OfCell(s, c) :: CellSlot);
  }

  /** At every moment of every run, by the configuration alone: no more connections are admitted through
      a gate, for a user, or for a cell without a limit of its user, than the limit allows. */
  lemma LimitsBind(cfg: Config, states: seq<State>, actions: seq<Action>, n: nat)
    requires IsRun(cfg, states, actions) && n < |states|
    ensures forall g :: cfg.gateMax(g) > 0 ==> |ThroughGate(states[n], g)| <= cfg.gateMax(g)
    ensures forall u :: cfg.sharedMax(u) > 0 ==> |OfUser(cfg, states[n], u)| <= cfg.sharedMax(u)
    ensures forall c :: cfg.cellMax(c) > 0 && (cfg.sharedOf(c).None? || cfg.sharedMax(cfg.sharedOf(c).value) == 0) ==>
              |OfCell(states[n], c)| <= cfg.cellMax(c)
  {
    hide Inv;
    RunKeepsInv(cfg, states, actions, n);
    var s := states[n];
    hide *;
    forall g: nat | cfg.gateMax(g) > 0
      ensures |ThroughGate(s, g)| <= cfg.gateMax(g)
    {
      GateBinds(cfg, s, g);
    }
    forall u: nat | cfg.sharedMax(u) > 0
      ensures |OfUser(cfg, s, u)| <= cfg.sharedMax(u)
    {
      UserBinds(cfg, s, u);
    }
    forall c: nat | cfg.cellMax(c) > 0 && (cfg.sharedOf(c).None? || cfg.sharedMax(cfg.sharedOf(c).value) == 0)
      ensures |OfCell(s, c)| <= cfg.cellMax(c)
    {
      CellBinds(cfg, s, c);
    }
  }

  ghost predicate ComesFrom(cfg: Config, th: Thread, g: nat, ip: nat) {
    th.pc == Held && th.req.metered && cfg.ipGateOf(th.req.cell) == Some(g) && th.req.ip == ip
  }

  ghost predicate Seen(cfg: Config, s: State, g: nat, ip: nat) {
    exists t :: t in s.threads && ComesFrom(cfg, s.threads[t], g, ip)
  }

  lemma SeenIsKnown(cfg: Config, s: State, g: nat, ip: nat)
    requires Exact(cfg, s) && Seen(cfg, s, g, ip)
    ensures IpRes(g, ip) in Addresses(s.counts, g)
  {
    var t :| t in s.threads && ComesFrom(cfg, s.threads[t], g, ip);
    var r := IpRes(g, ip);
    assert (t, IpSlot) in Holders(cfg, s.threads, r);
    assert Get(s.counts, r) == |Holders(cfg, s.threads, r)|;
  }

  /** The distinct source addresses of admitted connections stay within the address limit. */
  lemma AddressesBind(cfg: Config, states: seq<State>, actions: seq<Action>, n: nat, g: nat, ips: set<nat>)
    requires IsRun(cfg, states, actions) && n < |states| && cfg.ipCap(g) > 0
    requires forall ip :: ip in ips ==> Seen(cfg, states[n], g, ip)
    ensures |ips| <= cfg.ipCap(g)
  {
    RunKeepsInv(cfg, states, actions, n);
    var s := states[n];
    hide IsRun;
    hide Exact;
    hide Seen;
    hide Addresses;
    var rs := set ip | ip in ips :: IpRes(g, ip);
    forall ip | ip in ips
      ensures IpRes(g, ip) in Addresses(s.counts, g)
    {
      SeenIsKnown(cfg, s, g, ip);
    }
    SubsetSize(rs, Addresses(s.counts, g));
    SameSize(ips, rs, g);
  }

  lemma {:induction false} SameSize(ips: set<nat>, rs: set<Res>, g: nat)
    requires rs == set ip | ip in ips :: IpRes(g, ip)
    ensures |ips| == |rs|
  {
    if ip :| ip in ips {
      assert rs - {IpRes(g, ip)} == set i | i in ips - {ip} :: IpRes(g, i);
      SameSize(ips - {ip}, rs - {IpRes(g, ip)}, g);
    }
  }

  // ---- Getting through ----

  /** The steps an admission has ahead of it when nobody gets in between. */
  function Ahead(th: Thread): int {
    var n := |th.req.gates|;
    match th.pc
    case AtMem => 3 * n + 12
    case AtGate(i) => n + 11 + 2 * (n - i)
    case GateSaw(i, _) => n + 10 + 2 * (n - i)
    case AtIp => n + 10
    case AtConn => n + 9
    case ConnSaw(_) => n + 8
    case ConnCounted => n + 7
    case AtGuard => n + 6
    case Held => n + 5
    case BackCell => n + 4
    case BackShared => n + 3
    case BackIp => n + 2
    case BackGates(i, upTo) => upTo - i + 1
    case OutCell => n + 4
    case OutShared => n + 3
    case OutIp => n + 2
    case OutGates(i) => n - i + 1
    case Rejected => 0
    case Closed => 0
  }

  /** Someone else has changed the counter since this admission loaded it. */
  predicate LostRace(cfg: Config, counts: map<Res, int>, th: Thread) {
    match th.pc
    case GateSaw(i, cur) =>
      i < |th.req.gates| && th.req.gates[i].Some? && Get(counts, GateRes(th.req.gates[i].value)) != cur
    case ConnSaw(cur) => Get(counts, ConnRes(cfg, th.req)) != cur
    case _ => false
  }

  /** Every step brings an admission nearer to its end, except a compare-and-swap that lost a race. */
  lemma OnlyRacesRepeat(cfg: Config, counts: map<Res, int>, th: Thread, refuse: bool)
    requires ThreadOk(cfg, th) && th.pc != Rejected && th.pc != Closed
    ensures var th' := th.(pc := Move(cfg, counts, th, refuse).0);
            0 <= Ahead(th') && (Ahead(th') < Ahead(th) <==> !LostRace(cfg, counts, th))
  {
    hide ConnMax;
    hide ConnRes;
    hide SharedLimit;
    hide Get;
    hide Addresses;
    match th.pc
    case AtGate(i) =>
    case GateSaw(i, _) =>
    case AtIp =>
    case AtConn =>
    case ConnSaw(_) =>
    case _ =>
  }
}
