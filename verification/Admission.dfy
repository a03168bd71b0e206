/**
 Admission of connections under concurrency: the stack of gates, the distinct-address gate and
 the connection counters of a user, with their compare-and-swap loops, roll-backs and releases.
 Any number of admissions run at once; each load, compare-and-swap, atomic add and lock section
 is one step. Limits are fixed before connections open.
 */
module Admission {
  import opened Basics

  /** What is counted: a global or per-port gate, a cell (one credential), a limit shared by the
      cells of one user, and one source address in an address gate. */
  datatype Res = GateRes(g: nat) | CellRes(c: nat) | SharedRes(u: nat) | IpRes(g: nat, ip: nat)

  /** Limits; 0 is unlimited. `sharedOf` and `ipGateOf` give a cell's shared limit and address gate. */
  datatype Config = Config(
    gateMax: nat -> nat, cellMax: nat -> nat,
    sharedOf: nat -> Option<nat>, sharedMax: nat -> nat,
    ipGateOf: nat -> Option<nat>, ipCap: nat -> nat)

  /** One call of AdmitConn: its gates in order (a nil gate admits all), and, when metering is on,
      the cell and the source address. */
  datatype Request = Request(gates: seq<Option<nat>>, metered: bool, cell: nat, ip: nat)

  /** Where an admission is. `Saw` states have loaded a counter and will compare-and-swap. */
  datatype PC =
    | AtMem | AtGate(i: nat) | GateSaw(i: nat, cur: int)
    | AtIp | AtConn | ConnSaw(cur: int) | ConnCounted | AtGuard
    | BackCell | BackShared | BackIp | BackGates(i: nat, upTo: nat) | Rejected
    | Held
    | OutCell | OutShared | OutIp | OutGates(i: nat) | Closed

  datatype Thread = Thread(req: Request, pc: PC)

  datatype State = State(threads: map<nat, Thread>, counts: map<Res, int>)

  function Get(counts: map<Res, int>, r: Res): int {
    if r in counts then counts[r] else 0
  }

  /** `len(g.ips)`: the addresses an address gate knows. */
  function Addresses(counts: map<Res, int>, g: nat): set<Res> {
    set r | r in counts && r.IpRes? && r.g == g
  }

  /** The shared limit that counts this request's connections, if any. */
  function SharedLimit(cfg: Config, req: Request): Option<nat> {
    match cfg.sharedOf(req.cell)
    case Some(u) => if cfg.sharedMax(u) > 0 then Some(u) else None
    case None => None
  }

  /** The counter that limits connections, with its maximum. */
  function ConnRes(cfg: Config, req: Request): Res {
    match SharedLimit(cfg, req) case Some(u) => SharedRes(u) case None => CellRes(req.cell)
  }

  function ConnMax(cfg: Config, req: Request): nat {
    match SharedLimit(cfg, req) case Some(u) => cfg.sharedMax(u) case None => cfg.cellMax(req.cell)
  }

  // ---- What an admission holds ----

  datatype Slot = GateSlot(i: nat) | IpSlot | SharedSlot | CellSlot

  function ResOf(cfg: Config, req: Request, sl: Slot): Option<Res> {
    match sl
    case GateSlot(i) => if i < |req.gates| && req.gates[i].Some? then Some(GateRes(req.gates[i].value)) else None
    case IpSlot => (match cfg.ipGateOf(req.cell) case Some(g) => Some(IpRes(g, req.ip)) case None => None)
    case SharedSlot => (match SharedLimit(cfg, req) case Some(u) => Some(SharedRes(u)) case None => None)
    case CellSlot => Some(CellRes(req.cell))
  }

  predicate Holds(cfg: Config, th: Thread, sl: Slot) {
    var pc := th.pc;
    var held := pc == Held && th.req.metered;
    match sl
    case GateSlot(j) =>
      j < |th.req.gates| &&
      (match pc
       case AtMem => false
       case AtGate(i) => j < i
       case GateSaw(i, _) => j < i
       case BackGates(i, upTo) => i <= j < upTo
       case OutGates(i) => i <= j
       case Rejected => false
       case Closed => false
       case _ => true)
    case IpSlot =>
      held || pc == AtConn || pc.ConnSaw? || pc == ConnCounted || pc == AtGuard
      || pc == BackCell || pc == BackShared || pc == BackIp || pc == OutCell || pc == OutShared || pc == OutIp
    case SharedSlot =>
      SharedLimit(cfg, th.req).Some? &&
      (held || pc == ConnCounted || pc == AtGuard || pc == BackCell || pc == BackShared || pc == OutCell
        || pc == OutShared)
    case CellSlot =>
      held || pc == AtGuard || pc == BackCell || pc == OutCell
  }

  // ---- Steps ----

  datatype Change = Keep | Take(sl: Slot) | Give(sl: Slot)

  /** One step of one admission: its next place, and the slot it takes or gives back. `refuse` is
      the answer of the memory guard (`AdmitOK`) or of the disabled check (`addGuarded`). */
  function Move(cfg: Config, counts: map<Res, int>, th: Thread, refuse: bool): (PC, Change) {
    var req, n := th.req, |th.req.gates|;
    match th.pc
    case AtMem => (if refuse then Rejected else AtGate(0), Keep)
    case AtGate(i) =>
      if i >= n then (if req.metered then AtIp else Held, Keep)
      else if req.gates[i].None? || cfg.gateMax(req.gates[i].value) == 0 then (AtGate(i + 1), Take(GateSlot(i)))
      else
        var g := req.gates[i].value;
        var cur := Get(counts, GateRes(g));
        if cur >= cfg.gateMax(g) then (BackGates(0, i), Keep) else (GateSaw(i, cur), Keep)
    case GateSaw(i, cur) =>
      if i < n && req.gates[i].Some? && Get(counts, GateRes(req.gates[i].value)) == cur
      then (AtGate(i + 1), Take(GateSlot(i))) else (AtGate(i), Keep)
    case AtIp =>
      (match cfg.ipGateOf(req.cell)
       case None => (AtConn, Take(IpSlot))
       case Some(g) =>
         if IpRes(g, req.ip) !in counts && cfg.ipCap(g) != 0 && |Addresses(counts, g)| >= cfg.ipCap(g)
         then (BackGates(0, n), Keep) else (AtConn, Take(IpSlot)))
    case AtConn =>
      if SharedLimit(cfg, req).None? && cfg.cellMax(req.cell) == 0 then (AtGuard, Take(CellSlot))
      else
        var cur := Get(counts, ConnRes(cfg, req));
        if cur >= ConnMax(cfg, req) then (BackIp, Keep) else (ConnSaw(cur), Keep)
    case ConnSaw(cur) =>
      if Get(counts, ConnRes(cfg, req)) != cur then (AtConn, Keep)
      else if SharedLimit(cfg, req).Some? then (ConnCounted, Take(SharedSlot))
      else (AtGuard, Take(CellSlot))
    case ConnCounted => (AtGuard, Take(CellSlot))
    case AtGuard => (if refuse then BackCell else Held, Keep)
    case BackCell => (BackShared, Give(CellSlot))
    case BackShared => (BackIp, if SharedLimit(cfg, req).Some? then Give(SharedSlot) else Keep)
    case BackIp => (BackGates(0, n), Give(IpSlot))
    case BackGates(i, upTo) => if i >= upTo then (Rejected, Keep) else (BackGates(i + 1, upTo), Give(GateSlot(i)))
    case Held => (if req.metered then OutCell else OutGates(0), Keep)
    case OutCell => (OutShared, Give(CellSlot))
    case OutShared => (OutIp, if SharedLimit(cfg, req).Some? then Give(SharedSlot) else Keep)
    case OutIp => (OutGates(0), Give(IpSlot))
    case OutGates(i) => if i >= n then (Closed, Keep) else (OutGates(i + 1), Give(GateSlot(i)))
    case Rejected => (Rejected, Keep)
    case Closed => (Closed, Keep)
  }

  /** Counters after a slot is taken or given back: atomic adds, and the address gate's map, which
      forgets an address with its last connection. */
  function Bump(counts: map<Res, int>, r: Res, ch: Change): map<Res, int> {
    match ch
    case Keep => counts
    case Take(_) => counts[r := Get(counts, r) + 1]
    case Give(_) => if r.IpRes? && Get(counts, r) <= 1 then counts - {r} else counts[r := Get(counts, r) - 1]
  }

  function Step(cfg: Config, s: State, t: nat, refuse: bool): State
    requires t in s.threads
  {
    var th := s.threads[t];
    var (pc, ch) := Move(cfg, s.counts, th, refuse);
    var r := if ch == Keep then None else ResOf(cfg, th.req, ch.sl);
    State(s.threads[t := th.(pc := pc)], if r.Some? then Bump(s.counts, r.value, ch) else s.counts)
  }

  function Arrive(s: State, t: nat, req: Request): State
    requires t !in s.threads
  {
    s.(threads := s.threads[t := Thread(req, AtMem)])
  }

  /** The places an admission can be at are within its own gates, and a loaded counter was below
      its maximum. */
  predicate ThreadOk(cfg: Config, th: Thread) {
    var req, n := th.req, |th.req.gates|;
    match th.pc
    case AtGate(i) => i <= n
    case GateSaw(i, cur) => i < n && req.gates[i].Some? && cur < cfg.gateMax(req.gates[i].value)
    case ConnSaw(cur) => req.metered && cur < ConnMax(cfg, req)
    case ConnCounted => req.metered && SharedLimit(cfg, req).Some?
    case BackGates(i, upTo) => i <= upTo <= n
    case OutGates(i) => i <= n
    case AtMem => true
    case Held => true
    case Rejected => true
    case Closed => true
    case _ => req.metered
  }

  lemma MoveKeepsThreadOk(cfg: Config, counts: map<Res, int>, th: Thread, refuse: bool)
    requires ThreadOk(cfg, th)
    ensures ThreadOk(cfg, th.(pc := Move(cfg, counts, th, refuse).0))
  {
  }

  /** `sl` is held after a step exactly when it was taken, or held before and not given back. */
  ghost predicate Follows(cfg: Config, th: Thread, pc: PC, ch: Change, sl: Slot) {
    var before, after := Holds(cfg, th, sl), Holds(cfg, th.(pc := pc), sl);
    && (ch == Take(sl) ==> !before && after)
    && (ch == Give(sl) ==> before && !after)
    && (ch != Take(sl) && ch != Give(sl) ==> after == before)
  }

  lemma MoveHoldsGates(cfg: Config, counts: map<Res, int>, th: Thread, refuse: bool, j: nat)
    requires ThreadOk(cfg, th)
    ensures var (pc, ch) := Move(cfg, counts, th, refuse); Follows(cfg, th, pc, ch, GateSlot(j))
  {
    hide ConnMax;
    hide ConnRes;
    hide SharedLimit;
    hide Get;
    hide Addresses;
    match th.pc
    case AtGate(i) =>
    case AtIp =>
    case AtConn =>
    case ConnSaw(_) =>
    case _ =>
  }

  lemma MoveHoldsShared(cfg: Config, counts: map<Res, int>, th: Thread, refuse: bool)
    requires ThreadOk(cfg, th)
    ensures var (pc, ch) := Move(cfg, counts, th, refuse); Follows(cfg, th, pc, ch, SharedSlot)
  {
    hide ConnMax;
    hide ConnRes;
    hide SharedLimit;
    hide Get;
    hide Addresses;
    match th.pc
    case AtGate(i) =>
    case AtIp =>
    case AtConn =>
    case ConnSaw(_) =>
    case _ =>
  }

  lemma MoveHoldsCell(cfg: Config, counts: map<Res, int>, th: Thread, refuse: bool)
    requires ThreadOk(cfg, th)
    ensures var (pc, ch) := Move(cfg, counts, th, refuse); Follows(cfg, th, pc, ch, CellSlot)
  {
    hide ConnMax;
    hide ConnRes;
    hide SharedLimit;
    hide Get;
    hide Addresses;
    match th.pc
    case AtGate(i) =>
    case AtIp =>
    case AtConn =>
    case ConnSaw(_) =>
    case _ =>
  }

  lemma MoveHoldsIp(cfg: Config, counts: map<Res, int>, th: Thread, refuse: bool)
    requires ThreadOk(cfg, th)
    ensures var (pc, ch) := Move(cfg, counts, th, refuse); Follows(cfg, th, pc, ch, IpSlot)
  {
    hide ConnMax;
    hide ConnRes;
    hide SharedLimit;
    hide Get;
    hide Addresses;
    match th.pc
    case AtGate(i) =>
    case AtIp =>
    case AtConn =>
    case ConnSaw(_) =>
    case AtGuard =>
    case Held =>
    case _ =>
  }

  /** A step changes what the admission holds by exactly the slot it names. */
  lemma MoveHolds(cfg: Config, counts: map<Res, int>, th: Thread, refuse: bool, sl: Slot)
    requires ThreadOk(cfg, th)
    ensures var (pc, ch) := Move(cfg, counts, th, refuse); Follows(cfg, th, pc, ch, sl)
  {
    hide Move;
    hide Follows;
    match sl
    case GateSlot(j) => MoveHoldsGates(cfg, counts, th, refuse, j);
    case IpSlot => MoveHoldsIp(cfg, counts, th, refuse);
    case SharedSlot => MoveHoldsShared(cfg, counts, th, refuse);
    case CellSlot => MoveHoldsCell(cfg, counts, th, refuse);
  }

  lemma TakeIsOwnSlot(cfg: Config, counts: map<Res, int>, th: Thread, refuse: bool)
    requires ThreadOk(cfg, th)
    ensures var ch := Move(cfg, counts, th, refuse).1; ch != Keep ==> ch.sl in Slots(th.req)
  {
    hide ConnMax;
    hide ConnRes;
    hide SharedLimit;
    hide Get;
    hide Addresses;
    match th.pc
    case AtGate(i) =>
    case AtIp =>
    case AtConn =>
    case ConnSaw(_) =>
    case _ =>
  }

  // ---- Invariant ----

  ghost function Slots(req: Request): set<Slot> {
    {IpSlot, SharedSlot, CellSlot} + set i | 0 <= i < |req.gates| :: GateSlot(i)
  }

  ghost predicate Holding(cfg: Config, th: Thread, sl: Slot, r: Res) {
    Holds(cfg, th, sl) && ResOf(cfg, th.req, sl) == Some(r)
  }

  /** The admissions, and their slots, that hold a resource. */
  ghost function Holders(cfg: Config, threads: map<nat, Thread>, r: Res): set<(nat, Slot)> {
    set t, sl | t in threads && sl in Slots(threads[t].req) && Holding(cfg, threads[t], sl, r) :: (t, sl)
  }

  /** Every counter equals the number of slots held; an address is known while it is held. */
  ghost predicate Exact(cfg: Config, s: State) {
    && (forall r :: Get(s.counts, r) == |Holders(cfg, s.threads, r)|)
    && (forall r :: r in s.counts && r.IpRes? ==> s.counts[r] >= 1)
  }

  ghost predicate Capped(cfg: Config, s: State) {
    && (forall g :: cfg.gateMax(g) > 0 ==> Get(s.counts, GateRes(g)) <= cfg.gateMax(g))
    && (forall u :: cfg.sharedMax(u) > 0 ==> Get(s.counts, SharedRes(u)) <= cfg.sharedMax(u))
    && (forall c :: cfg.cellMax(c) > 0 && (cfg.sharedOf(c).None? || cfg.sharedMax(cfg.sharedOf(c).value) == 0) ==>
          Get(s.counts, CellRes(c)) <= cfg.cellMax(c))
    && (forall g :: cfg.ipCap(g) > 0 ==> |Addresses(s.counts, g)| <= cfg.ipCap(g))
  }

  ghost predicate Inv(cfg: Config, s: State) {
    && (forall t :: t in s.threads ==> ThreadOk(cfg, s.threads[t]))
    && Exact(cfg, s)
    && Capped(cfg, s)
  }

  /** Changing what one admission holds by one slot changes the holders by that slot. */
  lemma HoldersUpdate(cfg: Config, threads: map<nat, Thread>, t: nat, th: Thread, ch: Change, r: Res)
    requires t in threads && th.req == threads[t].req
    requires ch != Keep ==> ch.sl in Slots(th.req)
    requires forall sl :: Follows(cfg, threads[t], th.pc, ch, sl)
    ensures var hs, hs' := Holders(cfg, threads, r), Holders(cfg, threads[t := th], r);
            var hit := ch != Keep && ResOf(cfg, th.req, ch.sl) == Some(r);
            && (!hit ==> hs' == hs)
            && (hit && ch.Take? ==> (t, ch.sl) !in hs && hs' == hs + {(t, ch.sl)})
            && (hit && ch.Give? ==> (t, ch.sl) in hs && hs' == hs - {(t, ch.sl)})
  {
    hide ResOf;
    hide Holds;
    hide Slots;
    assert th == threads[t].(pc := th.pc);
    forall sl: Slot
      ensures Holding(cfg, th, sl, r) <==>
              ch != Give(sl) &&
              ((ch == Take(sl) && ResOf(cfg, th.req, sl) == Some(r)) || Holding(cfg, threads[t], sl, r))
      ensures ch == Take(sl) ==> !Holding(cfg, threads[t], sl, r)
      ensures ch == Give(sl) ==> Holds(cfg, threads[t], sl)
    {
      assert Follows(cfg, threads[t], th.pc, ch, sl);
    }
    hide Follows;
    hide Holding;
  }

  lemma HoldersAfter(cfg: Config, s: State, t: nat, refuse: bool, r: Res)
    requires t in s.threads && ThreadOk(cfg, s.threads[t])
    ensures var th := s.threads[t];
            var (pc, ch) := Move(cfg, s.counts, th, refuse);
            var hs, hs' := Holders(cfg, s.threads, r), Holders(cfg, s.threads[t := th.(pc := pc)], r);
            var hit := ch != Keep && ResOf(cfg, th.req, ch.sl) == Some(r);
            && (!hit ==> hs' == hs)
            && (hit && ch.Take? ==> (t, ch.sl) !in hs && hs' == hs + {(t, ch.sl)})
            && (hit && ch.Give? ==> (t, ch.sl) in hs && hs' == hs - {(t, ch.sl)})
  {
    hide Move;
    hide Holders;
    hide ThreadOk;
    hide Follows;
    hide Slots;
    var th := s.threads[t];
    var (pc, ch) := Move(cfg, s.counts, th, refuse);
    TakeIsOwnSlot(cfg, s.counts, th, refuse);
    forall sl: Slot
      ensures Follows(cfg, th, pc, ch, sl)
    {
      MoveHolds(cfg, s.counts, th, refuse, sl);
    }
    HoldersUpdate(cfg, s.threads, t, th.(pc := pc), ch, r);
  }

  predicate CellLimited(cfg: Config, c: nat) {
    cfg.cellMax(c) > 0 && (cfg.sharedOf(c).None? || cfg.sharedMax(cfg.sharedOf(c).value) == 0)
  }

  /** A slot is taken only while its resource has room. */
  lemma TakeHasRoom(cfg: Config, counts: map<Res, int>, th: Thread, refuse: bool, sl: Slot, r: Res)
    requires ThreadOk(cfg, th)
    requires Move(cfg, counts, th, refuse).1 == Take(sl) && ResOf(cfg, th.req, sl) == Some(r)
    ensures r.GateRes? && cfg.gateMax(r.g) > 0 ==> Get(counts, r) < cfg.gateMax(r.g)
    ensures r.SharedRes? && cfg.sharedMax(r.u) > 0 ==> Get(counts, r) < cfg.sharedMax(r.u)
    ensures r.CellRes? && CellLimited(cfg, r.c) ==> Get(counts, r) < cfg.cellMax(r.c)
    ensures r.IpRes? && cfg.ipCap(r.g) > 0 && r !in counts ==> |Addresses(counts, r.g)| < cfg.ipCap(r.g)
  {
  }

  lemma BumpGet(counts: map<Res, int>, r0: Res, ch: Change, r: Res)
    requires ch != Keep && (ch.Give? ==> Get(counts, r0) >= 1)
    requires r.IpRes? && r in counts ==> counts[r] >= 1
    ensures Get(Bump(counts, r0, ch), r) ==
            if r != r0 then Get(counts, r) else if ch.Take? then Get(counts, r) + 1 else Get(counts, r) - 1
    ensures r.IpRes? && r in Bump(counts, r0, ch) ==> Bump(counts, r0, ch)[r] >= 1
  {
  }

  lemma StepKeepsExact(cfg: Config, s: State, t: nat, refuse: bool)
    requires t in s.threads && ThreadOk(cfg, s.threads[t]) && Exact(cfg, s)
    ensures Exact(cfg, Step(cfg, s, t, refuse))
  {
    hide ThreadOk;
    hide Move;
    hide ResOf;
    hide Holders;
    hide Bump;
    hide Get;
    var s', th := Step(cfg, s, t, refuse), s.threads[t];
    var (pc, ch) := Move(cfg, s.counts, th, refuse);
    var r0 := if ch == Keep then None else ResOf(cfg, th.req, ch.sl);
    if r0.Some? {
      HoldersAfter(cfg, s, t, refuse, r0.value);
    }
    forall r: Res
      ensures Get(s'.counts, r) == |Holders(cfg, s'.threads, r)|
      ensures r in s'.counts && r.IpRes? ==> s'.counts[r] >= 1
    {
      HoldersAfter(cfg, s, t, refuse, r);
      if r0.Some? {
        BumpGet(s.counts, r0.value, ch, r);
      }
    }
  }

  lemma AddressesAfter(counts: map<Res, int>, r: Res, ch: Change, g: nat)
    requires ch != Keep
    ensures var before, after := Addresses(counts, g), Addresses(Bump(counts, r, ch), g);
            && (!(r.IpRes? && r.g == g) ==> after == before)
            && (r.IpRes? && r.g == g && ch.Take? ==> after == before + {r} && (r in counts <==> r in before))
            && (ch.Give? ==> after <= before || (r.IpRes? && r !in counts))
  {
  }

  lemma StepKeepsCapped(cfg: Config, s: State, t: nat, refuse: bool)
    requires t in s.threads && ThreadOk(cfg, s.threads[t]) && Exact(cfg, s) && Capped(cfg, s)
    ensures Capped(cfg, Step(cfg, s, t, refuse))
  {
    var s', th := Step(cfg, s, t, refuse), s.threads[t];
    var (pc, ch) := Move(cfg, s.counts, th, refuse);
    var r := if ch == Keep then None else ResOf(cfg, th.req, ch.sl);
    if r.Some? {
      if ch.Take? {
        TakeHasRoom(cfg, s.counts, th, refuse, ch.sl, r.value);
        BumpKeepsCapped(cfg, s, s', r.value, ch);
      } else {
        HoldersAfter(cfg, s, t, refuse, r.value);
        GiveKeepsCapped(cfg, s, s', r.value, ch);
      }
    }
  }

  lemma BumpKeepsCapped(cfg: Config, s: State, s': State, r: Res, ch: Change)
    requires Capped(cfg, s) && ch.Take? && s'.counts == Bump(s.counts, r, ch)
    requires r.GateRes? && cfg.gateMax(r.g) > 0 ==> Get(s.counts, r) < cfg.gateMax(r.g)
    requires r.SharedRes? && cfg.sharedMax(r.u) > 0 ==> Get(s.counts, r) < cfg.sharedMax(r.u)
    requires r.CellRes? && CellLimited(cfg, r.c) ==> Get(s.counts, r) < cfg.cellMax(r.c)
    requires r.IpRes? && cfg.ipCap(r.g) > 0 && r !in s.counts ==> |Addresses(s.counts, r.g)| < cfg.ipCap(r.g)
    ensures Capped(cfg, s')
  {
    forall g: nat | cfg.ipCap(g) > 0
      ensures |Addresses(s'.counts, g)| <= cfg.ipCap(g)
    {
      AddressesAfter(s.counts, r, ch, g);
    }
  }

  lemma GiveKeepsCapped(cfg: Config, s: State, s': State, r: Res, ch: Change)
    requires Capped(cfg, s) && ch.Give? && s'.counts == Bump(s.counts, r, ch)
    requires Get(s.counts, r) >= 1
    ensures Capped(cfg, s')
  {
    forall g: nat | cfg.ipCap(g) > 0
      ensures |Addresses(s'.counts, g)| <= cfg.ipCap(g)
    {
      AddressesAfter(s.counts, r, ch, g);
      SubsetSize(Addresses(s'.counts, g), Addresses(s.counts, g));
    }
  }

  // ---- Whole runs ----

  datatype Action = New(t: nat, req: Request) | Go(t: nat, refuse: bool)

  predicate Enabled(s: State, a: Action) {
    match a case New(t, _) => t !in s.threads case Go(t, _) => t in s.threads
  }

  function Next(cfg: Config, s: State, a: Action): State
    requires Enabled(s, a)
  {
    match a case New(t, req) => Arrive(s, t, req) case Go(t, refuse) => Step(cfg, s, t, refuse)
  }

  const INIT: State := State(map[], map[])

  lemma InitInv(cfg: Config)
    ensures Inv(cfg, INIT)
  {
    assert forall r :: Holders(cfg, INIT.threads, r) == {};
    assert forall g :: Addresses(INIT.counts, g) == {};
  }

  lemma ArriveKeepsInv(cfg: Config, s: State, t: nat, req: Request)
    requires Inv(cfg, s) && t !in s.threads
    ensures Inv(cfg, Arrive(s, t, req))
  {
    hide Capped;
    var s' := Arrive(s, t, req);
    assert forall sl :: !Holds(cfg, s'.threads[t], sl);
    forall r: Res
      ensures Holders(cfg, s'.threads, r) == Holders(cfg, s.threads, r)
    {
      hide Holds;
      hide ResOf;
    }
    assert Capped(cfg, s') by { assert s'.counts == s.counts; CappedByCounts(cfg, s, s'); }
  }

  lemma CappedByCounts(cfg: Config, s: State, s': State)
    requires Capped(cfg, s) && s'.counts == s.counts
    ensures Capped(cfg, s')
  {
  }

  lemma StepKeepsInv(cfg: Config, s: State, t: nat, refuse: bool)
    requires Inv(cfg, s) && t in s.threads
    ensures Inv(cfg, Step(cfg, s, t, refuse))
  {
    hide Exact;
    hide Capped;
    hide ThreadOk;
    StepKeepsExact(cfg, s, t, refuse);
    StepKeepsCapped(cfg, s, t, refuse);
    MoveKeepsThreadOk(cfg, s.counts, s.threads[t], refuse);
    hide Move;
  }

  ghost predicate IsRun(cfg: Config, states: seq<State>, actions: seq<Action>) {
    && |states| == |actions| + 1
    && states[0] == INIT
    && forall i :: 0 <= i < |actions| ==>
         Enabled(states[i], actions[i]) && states[i + 1] == Next(cfg, states[i], actions[i])
  }

  /** In every interleaving the counters equal what is held and stay within their maxima. */
  lemma {:induction false} RunKeepsInv(cfg: Config, states: seq<State>, actions: seq<Action>, n: nat)
    requires IsRun(cfg, states, actions) && n < |states|
    ensures Inv(cfg, states[n])
  {
    hide Inv;
    hide Step;
    hide Arrive;
    if n == 0 {
      InitInv(cfg);
    } else {
      RunKeepsInv(cfg, states, actions, n - 1);
      match actions[n - 1]
      case New(t, req) => ArriveKeepsInv(cfg, states[n - 1], t, req);
      case Go(t, refuse) => StepKeepsInv(cfg, states[n - 1], t, refuse);
    }
  }

  /** An admission that has been rejected holds nothing, and neither does a closed one: with only
      it having moved since it arrived, every counter and every address is as it found them. */
  lemma RejectionLeavesNoTrace(cfg: Config, s: State, t: nat, req: Request, s': State)
    requires Inv(cfg, s) && t !in s.threads && Inv(cfg, s')
    requires s'.threads == s.threads[t := Thread(req, Rejected)] || s'.threads == s.threads[t := Thread(req, Closed)]
    ensures forall r :: Get(s'.counts, r) == Get(s.counts, r)
    ensures forall g :: Addresses(s'.counts, g) == Addresses(s.counts, g)
  {
    hide Capped;
    hide ThreadOk;
    assert forall sl :: !Holds(cfg, s'.threads[t], sl);
    forall r: Res
      ensures Get(s'.counts, r) == Get(s.counts, r)
    {
      hide Holds;
      hide ResOf;
      assert Holders(cfg, s'.threads, r) == Holders(cfg, s.threads, r);
    }
    forall r: Res | r.IpRes?
      ensures r in s'.counts <==> r in s.counts
    {
      assert Get(s'.counts, r) == Get(s.counts, r);
    }
  }

  /** On the way to a rejection. */
  predicate Refusing(pc: PC) {
    pc == BackCell || pc == BackShared || pc == BackIp || pc.BackGates? || pc == Rejected
  }

  /** The counter that stops this admission here is at its maximum. */
  ghost predicate Full(cfg: Config, counts: map<Res, int>, th: Thread) {
    match th.pc
    case AtGate(i) =>
      i < |th.req.gates| && th.req.gates[i].Some?
        && 0 < cfg.gateMax(th.req.gates[i].value) <= Get(counts, GateRes(th.req.gates[i].value))
    case AtIp =>
      cfg.ipGateOf(th.req.cell).Some? &&
      var g := cfg.ipGateOf(th.req.cell).value;
      IpRes(g, th.req.ip) !in counts && 0 < cfg.ipCap(g) <= |Addresses(counts, g)|
    case AtConn => 0 < ConnMax(cfg, th.req) <= Get(counts, ConnRes(cfg, th.req))
    case _ => false
  }

  /** An admission turns to rejection exactly when the memory guard refuses it at the start, a limit it
      needs is used up, or the cell has been disabled; a full limit is never passed. */
  lemma RefusalHasReason(cfg: Config, counts: map<Res, int>, th: Thread, refuse: bool)
    requires ThreadOk(cfg, th) && !Refusing(th.pc)
    ensures Refusing(Move(cfg, counts, th, refuse).0) <==>
              Full(cfg, counts, th) || ((th.pc == AtMem || th.pc == AtGuard) && refuse)
  {
  }
}
