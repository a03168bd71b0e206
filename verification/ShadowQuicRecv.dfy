/**
 The receive side of a ShadowQUIC connection: a datagram whose id no association has announced yet is
 parked, up to a limit; binding the id hands the parked ones over. Deliveries run outside the lock, so
 they are steps of their own and interleave with everything else.
 */
module ShadowQuicRecv {
  import opened Basics
  import opened Ids

  const MAX_PENDING := 32

  /** `pending` holds arrival numbers of datagrams; `ready` is closed when the id gets an owner. */
  datatype Slot = Slot(ready: bool, owner: Option<nat>, from: string, pending: seq<nat>)

  const EmptySlot := Slot(false, None, "", [])

  function SlotOf(recv: map<Id, Slot>, id: Id): Slot {
    if id in recv then recv[id] else EmptySlot
  }

  /** A datagram on its way to an association, with the source address it will carry. */
  datatype Hand = Hand(n: nat, a: nat, from: string)

  // ---- One section under the lock ----

  /** `feed`: the new slots, and what is to be handed over after the lock is released. */
  function Feed(recv: map<Id, Slot>, id: Id, n: nat): (map<Id, Slot>, seq<Hand>) {
    var s := SlotOf(recv, id);
    if s.owner.Some? then (recv[id := s], [Hand(n, s.owner.value, s.from)])
    else if |s.pending| < MAX_PENDING then (recv[id := s.(pending := s.pending + [n])], [])
    else (recv[id := s], [])
  }

  function HandAll(pending: seq<nat>, a: nat, from: string): (out: seq<Hand>)
    ensures |out| == |pending| && forall i :: 0 <= i < |out| ==> out[i] == Hand(pending[i], a, from)
  {
    seq(|pending|, i requires 0 <= i < |pending| => Hand(pending[i], a, from))
  }

  /** `bind` */
  function Bind(recv: map<Id, Slot>, id: Id, a: nat, from: string): (map<Id, Slot>, seq<Hand>) {
    var s := SlotOf(recv, id);
    (recv[id := Slot(true, Some(a), from, [])], HandAll(s.pending, a, from))
  }

  /** `unbind` */
  function Unbind(recv: map<Id, Slot>, a: nat, ids: set<Id>): map<Id, Slot> {
    map id | id in recv && !(id in ids && recv[id].owner == Some(a)) :: recv[id]
  }

  // ---- The table ----

  ghost predicate SlotOk(s: Slot) {
    && (s.owner.Some? ==> s.pending == []) && |s.pending| <= MAX_PENDING
    && (s.ready <==> s.owner.Some?)
  }

  ghost predicate TableOk(recv: map<Id, Slot>) {
    forall id :: id in recv ==> SlotOk(recv[id])
  }

  class RecvTable {
    var recv: map<Id, Slot>

    constructor ()
      ensures recv == map[]
    {
      recv := map[];
    }

    method TakeDatagram(id: Id, n: nat) returns (out: seq<Hand>)
      requires TableOk(recv)
      modifies this
      ensures (recv, out) == Feed(old(recv), id, n) && TableOk(recv)
    {
      if id !in recv {
        recv := recv[id := EmptySlot];
      }
      var s := recv[id];
      assert recv == old(recv)[id := s];
      if s.owner.Some? {
        return [Hand(n, s.owner.value, s.from)];
      }
      if |s.pending| < MAX_PENDING {
        recv := recv[id := s.(pending := s.pending + [n])];
        assert recv == old(recv)[id := s.(pending := s.pending + [n])];
      }
      return [];
    }

    /** `ready` is closed at most once: it is open whenever this call closes it. */
    method BindId(id: Id, a: nat, from: string) returns (out: seq<Hand>)
      requires TableOk(recv)
      modifies this
      ensures (recv, out) == Bind(old(recv), id, a, from) && TableOk(recv)
    {
      if id !in recv {
        recv := recv[id := EmptySlot];
      }
      var s := recv[id];
      assert s == SlotOf(old(recv), id);
      var first := s.owner.None?;
      assert first ==> !s.ready;
      recv := recv[id := Slot(s.ready || first, Some(a), from, [])];
      out := [];
      for i := 0 to |s.pending|
        invariant out == HandAll(s.pending[..i], a, from)
      {
        out := out + [Hand(s.pending[i], a, from)];
      }
      assert s.pending[..|s.pending|] == s.pending;
      assert recv == old(recv)[id := Slot(true, Some(a), from, [])];
    }

    method UnbindIds(a: nat, ids: set<Id>)
      requires TableOk(recv)
      modifies this
      ensures recv == Unbind(old(recv), a, ids) && TableOk(recv)
    {
      var left := ids;
      while left != {}
        invariant left <= ids
        invariant recv == Unbind(old(recv), a, ids - left)
        decreases left
      {
        var id :| id in left;
        if id in recv && recv[id].owner == Some(a) {
          recv := recv - {id};
        }
        left := left - {id};
      }
      assert ids - left == ids;
    }
  }

  // ---- Every interleaving ----

  /** `ids[n]` is the id of the n-th datagram received. `hands` are the deliveries pending outside the
      lock, `done` those made (or dropped by a full queue), `binds` what was ever announced. */
  datatype State = State(
    recv: map<Id, Slot>, ids: seq<Id>, hands: multiset<Hand>, done: seq<Hand>, binds: set<(Id, nat, string)>)

  datatype Action =
    | Arrive(id: Id)
    | Announce(id: Id, a: nat, from: string)
    | Drop(a: nat, some: set<Id>)
    | Deliver(h: Hand)

  ghost predicate Enabled(s: State, act: Action) {
    act.Deliver? ==> act.h in s.hands
  }

  ghost function Step(s: State, act: Action): State
    requires Enabled(s, act)
  {
    match act
    case Arrive(id) =>
      var (recv, out) := Feed(s.recv, id, |s.ids|);
      s.(recv := recv, ids := s.ids + [id], hands := s.hands + multiset(out))
    case Announce(id, a, from) =>
      var (recv, out) := Bind(s.recv, id, a, from);
      s.(recv := recv, hands := s.hands + multiset(out), binds := s.binds + {(id, a, from)})
    case Drop(a, some) => s.(recv := Unbind(s.recv, a, some))
    case Deliver(h) => s.(hands := s.hands - multiset{h}, done := s.done + [h])
  }

  /** The n-th datagram waits in its id's slot. */
  ghost predicate Parked(s: State, n: nat) {
    n < |s.ids| && s.ids[n] in s.recv && n in s.recv[s.ids[n]].pending
  }

  ghost predicate OnWay(s: State, n: nat) {
    exists h :: h in s.hands && h.n == n
  }

  ghost predicate Handed(s: State, n: nat) {
    exists h :: h in s.done && h.n == n
  }

  /** A slot holds datagrams of its own id, in arrival order, and its owner announced the id. */
  ghost predicate SlotIn(ids: seq<Id>, binds: set<(Id, nat, string)>, id: Id, slot: Slot) {
    && (forall i :: 0 <= i < |slot.pending| ==> slot.pending[i] < |ids| && ids[slot.pending[i]] == id)
    && (forall i, j :: 0 <= i < j < |slot.pending| ==> slot.pending[i] < slot.pending[j])
    && (slot.owner.Some? ==> (id, slot.owner.value, slot.from) in binds)
  }

  ghost predicate SlotsOk(s: State) {
    forall id :: id in s.recv ==> SlotIn(s.ids, s.binds, id, s.recv[id])
  }

  /** A datagram goes only to an association that announced its id, under the announced address. */
  ghost predicate Rightful(s: State, h: Hand) {
    h.n < |s.ids| && (s.ids[h.n], h.a, h.from) in s.binds
  }

  ghost predicate AllRightful(s: State) {
    forall h :: h in s.hands || h in s.done ==> Rightful(s, h)
  }

  /** No datagram twice among the deliveries under way. */
  ghost predicate Once(hands: multiset<Hand>) {
    && (forall h :: hands[h] <= 1)
    && (forall h, g :: h in hands && g in hands && h.n == g.n ==> h == g)
  }

  ghost predicate DoneOnce(s: State) {
    forall i, j :: 0 <= i < j < |s.done| ==> s.done[i].n != s.done[j].n
  }

  ghost predicate HandsOk(s: State) {
    AllRightful(s) && Once(s.hands) && DoneOnce(s)
  }

  ghost predicate OnePlace(s: State) {
    forall n: nat :: !(Parked(s, n) && OnWay(s, n)) && !(Parked(s, n) && Handed(s, n)) && !(OnWay(s, n) && Handed(s, n))
  }

  ghost predicate Inv(s: State) {
    TableOk(s.recv) && SlotsOk(s) && HandsOk(s) && OnePlace(s)
  }

  lemma TableStep(s: State, act: Action)
    requires TableOk(s.recv) && Enabled(s, act)
    ensures TableOk(Step(s, act).recv)
  {
  }

  lemma SlotsStep(s: State, act: Action)
    requires SlotsOk(s) && Enabled(s, act)
    ensures SlotsOk(Step(s, act))
  {
    var s' := Step(s, act);
    forall id | id in s'.recv
      ensures SlotIn(s'.ids, s'.binds, id, s'.recv[id])
    {
      assert SlotIn(s.ids, s.binds, id, SlotOf(s.recv, id));
      if act.Arrive? && id == act.id {
        SlotTakes(s.ids, s.binds, id, SlotOf(s.recv, id));
      }
    }
  }

  lemma SlotTakes(ids: seq<Id>, binds: set<(Id, nat, string)>, id: Id, slot: Slot)
    requires SlotIn(ids, binds, id, slot)
    ensures SlotIn(ids + [id], binds, id, slot)
    ensures SlotIn(ids + [id], binds, id, slot.(pending := slot.pending + [|ids|]))
  {
  }

  /** What a bind takes out of the slot. */
  lemma BindTakes(s: State, id: Id, a: nat, from: string, h: Hand)
    requires SlotsOk(s) && h in Bind(s.recv, id, a, from).1
    ensures Parked(s, h.n) && s.ids[h.n] == id && h == Hand(h.n, a, from)
  {
    var slot := SlotOf(s.recv, id);
    var i :| 0 <= i < |slot.pending| && h == Hand(slot.pending[i], a, from);
    assert SlotIn(s.ids, s.binds, id, slot);
  }

  lemma {:induction false} EachOnce(q: seq<Hand>, h: Hand)
    requires forall i, j :: 0 <= i < j < |q| ==> q[i].n != q[j].n
    ensures multiset(q)[h] <= 1
  {
    if q != [] {
      assert q == [q[0]] + q[1..];
      EachOnce(q[1..], h);
      assert q[0] !in q[1..];
    }
  }

  lemma SeqOnce(q: seq<Hand>)
    requires forall i, j :: 0 <= i < j < |q| ==> q[i].n != q[j].n
    ensures Once(multiset(q))
  {
    forall h
      ensures multiset(q)[h] <= 1
    {
      EachOnce(q, h);
    }
    forall h, g | h in multiset(q) && g in multiset(q) && h.n == g.n
      ensures h == g
    {
      assert h in q && g in q;
    }
  }

  lemma GrowOnce(hands: multiset<Hand>, q: seq<Hand>)
    requires Once(hands) && Once(multiset(q))
    requires forall h, g :: h in hands && g in q ==> h.n != g.n
    ensures Once(hands + multiset(q))
  {
    var all := hands + multiset(q);
    forall h
      ensures all[h] <= 1
    {
      assert h in multiset(q) ==> h in q;
    }
    forall h, g | h in all && g in all && h.n == g.n
      ensures h == g
    {
      assert h in hands || h in q;
      assert g in hands || g in q;
    }
  }

  /** The datagrams a bind hands over are all different. */
  lemma BindOnce(s: State, id: Id, a: nat, from: string)
    requires SlotsOk(s)
    ensures Once(multiset(Bind(s.recv, id, a, from).1))
  {
    assert SlotIn(s.ids, s.binds, id, SlotOf(s.recv, id));
    SeqOnce(Bind(s.recv, id, a, from).1);
  }

  lemma AnnounceHands(s: State, id: Id, a: nat, from: string)
    requires Inv(s)
    ensures HandsOk(Step(s, Announce(id, a, from)))
  {
    var s', q := Step(s, Announce(id, a, from)), Bind(s.recv, id, a, from).1;
    assert s'.hands == s.hands + multiset(q) && s'.done == s.done && s'.ids == s.ids;
    assert s'.binds == s.binds + {(id, a, from)};
    BindOnce(s, id, a, from);
    forall h | h in q
      ensures Parked(s, h.n) && s.ids[h.n] == id && h == Hand(h.n, a, from)
    {
      BindTakes(s, id, a, from, h);
    }
    hide SlotsOk;
    hide TableOk;
    hide Bind;
    hide Parked;
    hide Step;
    forall h, g | h in s.hands && g in q
      ensures h.n != g.n
    {
      assert OnWay(s, h.n);
    }
    hide Once;
    hide OnePlace;
    GrowOnce(s.hands, q);
    forall h | h in s'.hands || h in s'.done
      ensures Rightful(s', h)
    {
      assert h in s.hands || h in q || h in s.done;
    }
  }

  lemma ArriveHands(s: State, id: Id)
    requires Inv(s)
    ensures HandsOk(Step(s, Arrive(id)))
  {
    var s', q, slot := Step(s, Arrive(id)), Feed(s.recv, id, |s.ids|).1, SlotOf(s.recv, id);
    assert s'.hands == s.hands + multiset(q) && s'.done == s.done && s'.ids == s.ids + [id] && s'.binds == s.binds;
    assert SlotIn(s.ids, s.binds, id, slot);
    assert forall h :: h in q ==> h.n == |s.ids| && (id, h.a, h.from) in s.binds;
    assert |q| <= 1;
    hide SlotsOk;
    hide TableOk;
    hide OnePlace;
    hide DoneOnce;
    SeqOnce(q);
    hide Feed;
    hide Step;
    assert forall h :: h in s.hands ==> h.n < |s.ids|;
    hide Once;
    GrowOnce(s.hands, q);
    ArriveRightful(s, s', id, q);
  }

  lemma ArriveRightful(s: State, s': State, id: Id, q: seq<Hand>)
    requires AllRightful(s) && s'.hands == s.hands + multiset(q) && s'.done == s.done
    requires s'.ids == s.ids + [id] && s'.binds == s.binds
    requires forall h :: h in q ==> h.n == |s.ids| && (id, h.a, h.from) in s.binds
    ensures AllRightful(s')
  {
    forall h | h in s'.hands || h in s'.done
      ensures Rightful(s', h)
    {
      assert h in s.hands || h in q || h in s.done;
    }
  }

  lemma DeliverHands(s: State, h: Hand)
    requires Inv(s) && h in s.hands
    ensures HandsOk(Step(s, Deliver(h)))
  {
    assert OnWay(s, h.n);
    assert !Handed(s, h.n);
    hide SlotsOk;
    hide TableOk;
    hide OnePlace;
    var s' := Step(s, Deliver(h));
    assert s'.hands == s.hands - multiset{h} && s'.done == s.done + [h] && s'.ids == s.ids && s'.binds == s.binds;
    hide Step;
    forall g | g in s'.hands || g in s'.done
      ensures Rightful(s', g)
    {
      assert g in s.hands || g in s.done;
    }
    LessOnce(s.hands, h);
    hide Once;
    forall i | 0 <= i < |s.done|
      ensures s.done[i].n != h.n
    {
      assert s.done[i] in s.done;
    }
  }

  lemma LessOnce(hands: multiset<Hand>, h: Hand)
    requires Once(hands)
    ensures Once(hands - multiset{h})
  {
    assert forall g :: g in hands - multiset{h} ==> g in hands;
  }

  lemma HandsStep(s: State, act: Action)
    requires Inv(s) && Enabled(s, act)
    ensures HandsOk(Step(s, act))
  {
    match act
    case Arrive(id) => ArriveHands(s, id);
    case Announce(id, a, from) => AnnounceHands(s, id, a, from);
    case Drop(_, _) =>
      hide SlotsOk;
      hide TableOk;
      hide OnePlace;
    case Deliver(h) => DeliverHands(s, h);
  }

  lemma PlaceStep(s: State, act: Action)
    requires Inv(s) && Enabled(s, act)
    ensures OnePlace(Step(s, act))
  {
    var s' := Step(s, act);
    forall n: nat
      ensures !(Parked(s', n) && OnWay(s', n)) && !(Parked(s', n) && Handed(s', n)) && !(OnWay(s', n) && Handed(s', n))
    {
      PlaceAfter(s, act, n);
    }
  }

  lemma PlaceAfter(s: State, act: Action, n: nat)
    requires Inv(s) && Enabled(s, act)
    ensures var s' := Step(s, act);
            !(Parked(s', n) && OnWay(s', n)) && !(Parked(s', n) && Handed(s', n)) && !(OnWay(s', n) && Handed(s', n))
  {
    match act
    case Arrive(id) => ArrivePlaces(s, id, n);
    case Announce(id, a, from) => AnnouncePlaces(s, id, a, from, n);
    case Drop(_, _) =>
      assert Parked(Step(s, act), n) ==> Parked(s, n);
      assert OnWay(Step(s, act), n) ==> OnWay(s, n);
      assert Handed(Step(s, act), n) ==> Handed(s, n);
    case Deliver(h) =>
      assert OnWay(s, h.n);
      hide SlotsOk;
      hide TableOk;
      assert Parked(Step(s, act), n) <==> Parked(s, n);
      assert OnWay(Step(s, act), n) ==> OnWay(s, n) && n != h.n;
      assert Handed(Step(s, act), n) ==> Handed(s, n) || n == h.n;
      hide Step;
  }

  lemma ArrivePlaces(s: State, id: Id, n: nat)
    requires Inv(s)
    ensures var s' := Step(s, Arrive(id));
            !(Parked(s', n) && OnWay(s', n)) && !(Parked(s', n) && Handed(s', n)) && !(OnWay(s', n) && Handed(s', n))
  {
    var s' := Step(s, Arrive(id));
    if n == |s.ids| {
      assert !Handed(s', n);
      assert !OnWay(s, n);
    } else {
      assert Parked(s', n) ==> Parked(s, n);
      assert OnWay(s', n) ==> OnWay(s, n);
    }
  }

  lemma AnnouncePlaces(s: State, id: Id, a: nat, from: string, n: nat)
    requires Inv(s)
    ensures var s' := Step(s, Announce(id, a, from));
            !(Parked(s', n) && OnWay(s', n)) && !(Parked(s', n) && Handed(s', n)) && !(OnWay(s', n) && Handed(s', n))
  {
    var s' := Step(s, Announce(id, a, from));
    forall h | h in Bind(s.recv, id, a, from).1
      ensures Parked(s, h.n) && s.ids[h.n] == id
    {
      BindTakes(s, id, a, from, h);
    }
    assert Parked(s', n) ==> Parked(s, n) && s.ids[n] != id;
    hide Bind;
    assert OnWay(s', n) ==> OnWay(s, n) || (Parked(s, n) && s.ids[n] == id);
  }

  lemma StepKeepsInv(s: State, act: Action)
    requires Inv(s) && Enabled(s, act)
    ensures Inv(Step(s, act))
  {
    TableStep(s, act);
    SlotsStep(s, act);
    HandsStep(s, act);
    PlaceStep(s, act);
    hide *;
  }

  const Start := State.State(map[], [], multiset{}, [], {})

  ghost predicate IsRun(states: seq<State>, acts: seq<Action>) {
    && |states| == |acts| + 1 && states[0] == Start
    && forall i :: 0 <= i < |acts| ==> Enabled(states[i], acts[i]) && states[i + 1] == Step(states[i], acts[i])
  }

  lemma {:induction false} RunKeepsInv(states: seq<State>, acts: seq<Action>, n: nat)
    requires IsRun(states, acts) && n < |states|
    ensures Inv(states[n])
  {
    hide Step;
    if n > 0 {
      hide Inv;
      RunKeepsInv(states, acts, n - 1);
      StepKeepsInv(states[n - 1], acts[n - 1]);
    }
  }

  /** In every state of every run an owned slot has nothing parked and an unowned one at most 32
      datagrams; and each datagram is handed over at most once, to an association that announced its
      id, with the announced address. */
  lemma ParkingSafe(states: seq<State>, acts: seq<Action>, n: nat, id: Id)
    requires IsRun(states, acts) && n < |states|
    ensures var s := states[n];
            && (id in s.recv && s.recv[id].owner.Some? ==> s.recv[id].pending == [])
            && (id in s.recv ==> |s.recv[id].pending| <= 32)
            && (forall h :: s.hands[h] <= 1)
            && (forall i, j :: 0 <= i < j < |s.done| ==> s.done[i].n != s.done[j].n)
            && (forall h :: h in s.done ==> h.n < |s.ids| && (s.ids[h.n], h.a, h.from) in s.binds)
  {
    RunKeepsInv(states, acts, n);
    hide SlotsOk;
    hide OnePlace;
  }

  // ---- Nothing is lost ----

  /** The n-th datagram is parked, on its way or handed over. */
  ghost predicate Kept(s: State, n: nat) {
    Parked(s, n) || OnWay(s, n) || Handed(s, n)
  }

  /** An arriving datagram is kept unless its id has no owner and 32 datagrams parked already. */
  lemma ArriveKeeps(s: State, id: Id)
    requires Inv(s)
    ensures Kept(Step(s, Arrive(id)), |s.ids|) <==>
              !(id in s.recv && s.recv[id].owner.None? && |s.recv[id].pending| == 32)
  {
    var s', n, slot := Step(s, Arrive(id)), |s.ids|, SlotOf(s.recv, id);
    assert SlotOk(slot);
    assert s'.ids[n] == id;
    if slot.owner.Some? {
      assert Hand(n, slot.owner.value, slot.from) in [Hand(n, slot.owner.value, slot.from)];
      assert OnWay(s', n);
    } else if |slot.pending| < MAX_PENDING {
      assert (slot.pending + [n])[|slot.pending|] == n;
      assert Parked(s', n);
    } else {
      assert SlotIn(s.ids, s.binds, id, slot);
    }
  }

  /** No later step loses it, whatever is bound, unbound or delivered. */
  lemma StepLosesNothing(s: State, act: Action, n: nat)
    requires Inv(s) && Enabled(s, act) && Kept(s, n)
    ensures Kept(Step(s, act), n)
  {
    var s' := Step(s, act);
    if Handed(s, n) {
      assert Handed(s', n);
    } else if OnWay(s, n) {
      var h :| h in s.hands && h.n == n;
      assert act == Deliver(h) ==> (s.done + [h])[|s.done|] == h;
      assert h in s'.hands || h in s'.done;
    } else {
      ParkedStays(s, act, n);
    }
  }

  lemma BoundOnWay(s: State, id: Id, a: nat, from: string, i: nat)
    requires id in s.recv && i < |s.recv[id].pending|
    ensures OnWay(Step(s, Announce(id, a, from)), s.recv[id].pending[i])
  {
    var out := HandAll(s.recv[id].pending, a, from);
    assert out[i] in out;
    assert out[i] in multiset(out);
  }

  lemma ParkedStays(s: State, act: Action, n: nat)
    requires Inv(s) && Enabled(s, act) && Parked(s, n)
    ensures Parked(Step(s, act), n) || OnWay(Step(s, act), n)
  {
    var s', id := Step(s, act), s.ids[n];
    var slot := s.recv[id];
    assert SlotOk(slot);
    var i :| 0 <= i < |slot.pending| && slot.pending[i] == n;
    if act.Announce? && act.id == id {
      BoundOnWay(s, act.id, act.a, act.from, i);
    } else if act.Arrive? {
      assert s'.ids[n] == id;
      assert (slot.pending + [|s.ids|])[i] == n;
    }
  }

  /** Over a whole run: once a datagram has found room it is never lost. */
  lemma {:induction false} NothingLost(states: seq<State>, acts: seq<Action>, m: nat, n: nat, d: nat)
    requires IsRun(states, acts) && m <= n < |states| && Kept(states[m], d)
    ensures Kept(states[n], d)
  {
    hide Step;
    hide Kept;
    if m < n {
      NothingLost(states, acts, m, n - 1, d);
      RunKeepsInv(states, acts, n - 1);
      StepLosesNothing(states[n - 1], acts[n - 1], d);
    }
  }

  /** What a closing association leaves behind: among the given ids the slots it owns are gone, and every
      other slot, also of an id that has been announced again for another association, is as before. */
  lemma DropFrees(states: seq<State>, acts: seq<Action>, n: nat, a: nat, some: set<Id>, id: Id)
    requires IsRun(states, acts) && n < |acts| && acts[n] == Drop(a, some)
    ensures var recv, recv' := states[n].recv, states[n + 1].recv;
            if id in some && id in recv && recv[id].owner == Some(a) then id !in recv'
            else (id in recv' <==> id in recv) && (id in recv ==> recv'[id] == recv[id])
  {
  }
}
