/**
 The send ids of a ShadowQUIC connection. `AllocId` is the bounded search for an unused 16-bit id.
 Around it every interleaving of writers and closers is a run of small steps: a writer holds its
 association's lock from the closed check until the id is announced, while Close signals, takes that
 lock once, and frees the ids afterwards.
 */
module ShadowQuicIds {
  import opened Basics
  import opened Ids

  // ---- The allocator ----

  /** What one call of `allocID` may answer: the first unused id at or after the cursor, going round;
      or an error with every id in use. */
  ghost predicate AllocResult(sending: set<Id>, next: Id, r: Option<Id>, next': Id) {
    match r
    case Some(id) =>
      && id !in sending && next' == After(id, 1)
      && exists k: nat {:trigger After(next, k)} :: k < IDS && id == After(next, k) &&
           forall j: nat :: j < k ==> After(next, j) in sending
    case None =>
      next' == next && forall id: Id :: id in sending
  }

  class IdTable {
    var nextId: Id
    var sending: set<Id>

    constructor ()
      ensures nextId == 0 && sending == {}
    {
      nextId, sending := 0, {};
    }

    method AllocId() returns (r: Option<Id>)
      modifies this
      ensures AllocResult(old(sending), old(nextId), r, nextId)
      ensures r.None? <==> forall id: Id :: id in old(sending)
      ensures sending == old(sending) + (if r.Some? then {r.value} else {})
    {
      ghost var start := nextId;
      var k: nat := 0;
      while k < IDS
        invariant k <= IDS && nextId == After(start, k)
        invariant sending == old(sending)
        invariant forall j: nat :: j < k ==> After(start, j) in sending
      {
        var id := nextId;
        AfterAdd(start, k, 1);
        nextId := After(nextId, 1);
        if id !in sending {
          sending := sending + {id};
          return Some(id);
        }
        k := k + 1;
      }
      forall id: Id
        ensures id in sending
      {
        var j := AfterCovers(start, id);
      }
      return None;
    }

    method FreeIds(ids: map<string, Id>)
      modifies this
      ensures sending == old(sending) - ids.Values && nextId == old(nextId)
    {
      var left := ids.Values;
      while left != {}
        invariant left <= ids.Values && nextId == old(nextId)
        invariant sending == old(sending) - (ids.Values - left)
        decreases left
      {
        var id :| id in left;
        sending := sending - {id};
        left := left - {id};
      }
    }
  }

  // ---- Associations ----

  datatype Writer = NoWriter | Checked(key: string) | Allocated(key: string, id: Id)

  datatype Stage = Active | Taken | Freed

  /** `writer` is the holder of the association's lock that needs a new id; `stage` how far the one
      body of Close has come after the signal. */
  datatype Assoc = Assoc(closed: bool, writer: Writer, sendId: map<string, Id>, stage: Stage)

  datatype State = State(sending: set<Id>, next: Id, assocs: map<nat, Assoc>)

  datatype Action =
    | Open(a: nat)
    | Enter(a: nat, key: string)
    | Alloc(a: nat, r: Option<Id>, next: Id)
    | Announced(a: nat)
    | AnnounceFailed(a: nat)
    | Signal(a: nat)
    | TakeSent(a: nat)
    | Free(a: nat)

  ghost predicate Enabled(s: State, act: Action) {
    if act.Open? then act.a !in s.assocs
    else if act.a !in s.assocs then false
    else
      var x := s.assocs[act.a];
      match act
      case Enter(_, key) => x.writer == NoWriter && !x.closed && key !in x.sendId
      case Alloc(_, r, next) => x.writer.Checked? && AllocResult(s.sending, s.next, r, next)
      case Announced(_) => x.writer.Allocated?
      case AnnounceFailed(_) => x.writer.Allocated?
      case Signal(_) => !x.closed
      case TakeSent(_) => x.closed && x.stage == Active && x.writer == NoWriter
      case Free(_) => x.stage == Taken
  }

  ghost function Step(s: State, act: Action): State
    requires Enabled(s, act)
  {
    if act.Open? then s.(assocs := s.assocs[act.a := Assoc(false, NoWriter, map[], Active)])
    else
      var x := s.assocs[act.a];
      match act
      case Enter(a, key) => s.(assocs := s.assocs[a := x.(writer := Checked(key))])
      case Alloc(a, r, next) =>
        var w := if r.Some? then Allocated(x.writer.key, r.value) else NoWriter;
        State(s.sending + (if r.Some? then {r.value} else {}), next, s.assocs[a := x.(writer := w)])
      case Announced(a) =>
        s.(assocs := s.assocs[a := x.(writer := NoWriter, sendId := x.sendId[x.writer.key := x.writer.id])])
      case AnnounceFailed(a) =>
        s.(sending := s.sending - {x.writer.id}, assocs := s.assocs[a := x.(writer := NoWriter)])
      case Signal(a) => s.(assocs := s.assocs[a := x.(closed := true)])
      case TakeSent(a) => s.(assocs := s.assocs[a := x.(stage := Taken)])
      case Free(a) => s.(sending := s.sending - x.sendId.Values, assocs := s.assocs[a := x.(stage := Freed)])
  }

  /** Association `x` holds `id` for `key`, announced or on its way. */
  ghost predicate HoldsIn(x: Assoc, key: string, id: Id) {
    x.stage != Freed && ((key in x.sendId && x.sendId[key] == id) || x.writer == Allocated(key, id))
  }

  ghost predicate Holds(s: State, a: nat, key: string, id: Id) {
    a in s.assocs && HoldsIn(s.assocs[a], key, id)
  }

  /** Once Close has taken the send ids nobody can be in the middle of adding one. */
  ghost predicate AssocOk(x: Assoc) {
    && (x.stage != Active ==> x.closed && x.writer == NoWriter)
    && (x.writer != NoWriter ==> x.writer.key !in x.sendId)
  }

  ghost predicate HeldInUse(s: State) {
    forall a, key, id :: Holds(s, a, key, id) ==> id in s.sending
  }

  ghost predicate InUseHeld(s: State) {
    forall id :: id in s.sending ==> exists a, key :: Holds(s, a, key, id)
  }

  ghost predicate HeldOnce(s: State) {
    forall a, key, b, key', id :: Holds(s, a, key, id) && Holds(s, b, key', id) ==> a == b && key == key'
  }

  ghost predicate Inv(s: State) {
    && (forall a :: a in s.assocs ==> AssocOk(s.assocs[a]))
    && HeldInUse(s) && InUseHeld(s) && HeldOnce(s)
  }

  /** What is held after a step. */
  ghost predicate HoldsNext(s: State, act: Action, b: nat, key: string, id: Id)
    requires Enabled(s, act)
  {
    if act.Alloc? && b == act.a && act.r.Some? && id == act.r.value then key == s.assocs[b].writer.key
    else if act.AnnounceFailed? && b == act.a && id == s.assocs[b].writer.id then false
    else if act.Free? && b == act.a then false
    else Holds(s, b, key, id)
  }

  lemma HoldsAfter(s: State, act: Action, b: nat, key: string, id: Id)
    requires Inv(s) && Enabled(s, act)
    ensures Holds(Step(s, act), b, key, id) <==> HoldsNext(s, act, b, key, id)
  {
    hide InUseHeld;
    if act.Alloc? && b == act.a && act.r.Some? && id == act.r.value {
      assert !Holds(s, b, key, id);
    } else if act.AnnounceFailed? && b == act.a {
      var w := s.assocs[b].writer;
      assert Holds(s, b, w.key, w.id);
      assert Holds(s, b, key, w.id) ==> key == w.key;
    }
  }

  ghost predicate HoldsLike(s: State, act: Action)
    requires Enabled(s, act)
  {
    var s' := Step(s, act);
    forall b, key, id :: Holds(s', b, key, id) <==> HoldsNext(s, act, b, key, id)
  }

  lemma StepKeepsHeld(s: State, act: Action)
    requires Inv(s) && Enabled(s, act) && HoldsLike(s, act)
    ensures HeldInUse(Step(s, act))
  {
    hide InUseHeld;
    var s' := Step(s, act);
    if act.AnnounceFailed? {
      var w := s.assocs[act.a].writer;
      assert Holds(s, act.a, w.key, w.id);
    } else if act.Free? {
      var x := s.assocs[act.a];
      forall b, key, id | Holds(s', b, key, id)
        ensures id !in x.sendId.Values
      {
        assert forall k :: k in x.sendId ==> Holds(s, act.a, k, x.sendId[k]);
      }
    }
    hide Step;
  }

  lemma StepKeepsUsed(s: State, act: Action)
    requires Inv(s) && Enabled(s, act) && HoldsLike(s, act)
    ensures InUseHeld(Step(s, act))
  {
    hide HeldInUse;
    hide HeldOnce;
    var s' := Step(s, act);
    forall id | id in s'.sending
      ensures exists a, key :: Holds(s', a, key, id)
    {
      if act.Alloc? && act.r.Some? && id == act.r.value {
        assert Holds(s', act.a, s.assocs[act.a].writer.key, id);
      } else {
        assert id in s.sending;
        var a, key :| Holds(s, a, key, id);
        assert Holds(s', a, key, id);
      }
    }
  }

  /** Every step of any interleaving keeps: the ids in use are exactly the ids held, each by one
      destination of one association. */
  lemma StepKeepsInv(s: State, act: Action)
    requires Inv(s) && Enabled(s, act)
    ensures Inv(Step(s, act))
  {
    forall b, key, id
      ensures Holds(Step(s, act), b, key, id) <==> HoldsNext(s, act, b, key, id)
    {
      HoldsAfter(s, act, b, key, id);
    }
    hide Holds;
    hide HoldsNext;
    assert HoldsLike(s, act);
    StepKeepsHeld(s, act);
    StepKeepsUsed(s, act);
    hide *;
  }

  // ---- Whole runs ----

  const Start := State({}, 0, map[])

  ghost predicate IsRun(states: seq<State>, acts: seq<Action>) {
    && |states| == |acts| + 1 && states[0] == Start
    && forall i :: 0 <= i < |acts| ==> Enabled(states[i], acts[i]) && states[i + 1] == Step(states[i], acts[i])
  }

  lemma {:induction false} RunKeepsInv(states: seq<State>, acts: seq<Action>, n: nat)
    requires IsRun(states, acts) && n < |states|
    ensures Inv(states[n])
  {
    hide Step;
    hide HoldsIn;
    if n > 0 {
      hide Inv;
      RunKeepsInv(states, acts, n - 1);
      StepKeepsInv(states[n - 1], acts[n - 1]);
    }
  }

  /** At every moment of every run two associations that have not been closed down, or two
      destinations of one, never hold the same id, and every id they hold is taken. */
  lemma NoSharedIds(states: seq<State>, acts: seq<Action>, n: nat, a: nat, key: string, b: nat, key': string)
    requires IsRun(states, acts) && n < |states|
    requires a in states[n].assocs && b in states[n].assocs && (a != b || key != key')
    requires states[n].assocs[a].stage != Freed && states[n].assocs[b].stage != Freed
    requires key in states[n].assocs[a].sendId && key' in states[n].assocs[b].sendId
    ensures states[n].assocs[a].sendId[key] != states[n].assocs[b].sendId[key']
    ensures states[n].assocs[a].sendId[key] in states[n].sending
  {
    RunKeepsInv(states, acts, n);
    assert Holds(states[n], a, key, states[n].assocs[a].sendId[key]);
    assert Holds(states[n], b, key', states[n].assocs[b].sendId[key']);
  }

  /** Closing an association, or failing to announce an id, frees exactly what was held for it. */
  lemma FreesExactly(states: seq<State>, acts: seq<Action>, n: nat, id: Id)
    requires IsRun(states, acts) && n < |acts| && (acts[n].Free? || acts[n].AnnounceFailed?)
    ensures var s, s', act := states[n], states[n + 1], acts[n];
            id in s'.sending <==>
              id in s.sending && !if act.Free? then exists key :: Holds(s, act.a, key, id)
                                  else id == s.assocs[act.a].writer.id
    ensures forall b, key :: b != acts[n].a ==> (Holds(states[n + 1], b, key, id) <==> Holds(states[n], b, key, id))
  {
    RunKeepsInv(states, acts, n);
    var s, act := states[n], acts[n];
    hide InUseHeld;
    hide HeldInUse;
    hide HeldOnce;
    if act.Free? {
      var x := s.assocs[act.a];
      forall key | Holds(s, act.a, key, id)
        ensures id in x.sendId.Values
      {
        assert x.sendId[key] in x.sendId.Values;
      }
      if id in x.sendId.Values {
        var key :| key in x.sendId && x.sendId[key] == id;
        assert Holds(s, act.a, key, id);
      }
    }
  }

  /** When every association has been closed down no id stays behind. */
  lemma NothingLeaks(states: seq<State>, acts: seq<Action>, n: nat)
    requires IsRun(states, acts) && n < |states|
    requires forall a :: a in states[n].assocs ==> states[n].assocs[a].stage == Freed
    ensures states[n].sending == {}
  {
    RunKeepsInv(states, acts, n);
    assert forall a, key, id :: !Holds(states[n], a, key, id);
  }

  /** From the moment Close has taken the send ids under the lock until it frees them the map does
      not change, although it is read outside the lock. */
  lemma {:induction false} TakenStays(states: seq<State>, acts: seq<Action>, m: nat, n: nat, a: nat)
    requires IsRun(states, acts) && m <= n < |states|
    requires a in states[m].assocs && states[m].assocs[a].stage != Active
    ensures a in states[n].assocs && states[n].assocs[a].stage != Active
    ensures states[n].assocs[a].sendId == states[m].assocs[a].sendId
  {
    if m < n {
      TakenStays(states, acts, m, n - 1, a);
      RunKeepsInv(states, acts, n - 1);
      hide HeldInUse;
      hide InUseHeld;
      hide HeldOnce;
      hide AllocResult;
      assert AssocOk(states[n - 1].assocs[a]);
    }
  }

  // ---- What becomes of a write and of a close ----

  lemma CloseStep(s: State, act: Action, a: nat)
    requires Enabled(s, act) && a in s.assocs
    ensures a in Step(s, act).assocs
    ensures var x, x' := s.assocs[a], Step(s, act).assocs[a];
            && (x'.closed <==> x.closed || act == Signal(a))
            && (x'.stage != Active <==> x.stage != Active || act == TakeSent(a))
            && (x'.stage == Freed <==> x.stage == Freed || act == Free(a))
  {
    hide AllocResult;
  }

  /** An association is closed, its ids are taken and they are freed exactly when its Close has come that
      far. */
  lemma {:induction false} CloseIsHistory(states: seq<State>, acts: seq<Action>, n: nat, a: nat)
    requires IsRun(states, acts) && n < |states|
    ensures a in states[n].assocs <==> Happened(acts, n, Open(a))
    ensures a in states[n].assocs ==>
              && (states[n].assocs[a].closed <==> Happened(acts, n, Signal(a)))
              && (states[n].assocs[a].stage != Active <==> Happened(acts, n, TakeSent(a)))
              && (states[n].assocs[a].stage == Freed <==> Happened(acts, n, Free(a)))
    ensures a !in states[n].assocs ==>
              !Happened(acts, n, Signal(a)) && !Happened(acts, n, TakeSent(a)) && !Happened(acts, n, Free(a))
  {
    if n > 0 {
      var s, act := states[n - 1], acts[n - 1];
      CloseIsHistory(states, acts, n - 1, a);
      HappenedNext(acts, n - 1, Open(a));
      HappenedNext(acts, n - 1, Signal(a));
      HappenedNext(acts, n - 1, TakeSent(a));
      HappenedNext(acts, n - 1, Free(a));
      hide Happened;
      hide AllocResult;
      if a in s.assocs {
        CloseStep(s, act, a);
      }
    }
  }

  /** A step of the holder of the association's lock. */
  predicate OfWriter(act: Action, a: nat) {
    act.a == a && (act.Enter? || act.Alloc? || act.Announced? || act.AnnounceFailed?)
  }

  lemma {:induction false} WriterWaits(states: seq<State>, acts: seq<Action>, i: nat, j: nat, a: nat)
    requires IsRun(states, acts) && i <= j < |states| && a in states[i].assocs
    requires forall k :: i <= k < j ==> !OfWriter(acts[k], a)
    ensures a in states[j].assocs && states[j].assocs[a].writer == states[i].assocs[a].writer
    ensures states[j].assocs[a].sendId == states[i].assocs[a].sendId
    decreases j
  {
    hide AllocResult;
    if i < j {
      WriterWaits(states, acts, i, j - 1, a);
    }
  }

  /** A write to a new destination goes on with the lock held: nobody else enters until it is through, and
      it can always ask for an id. */
  lemma EnterHoldsLock(states: seq<State>, acts: seq<Action>, i: nat, j: nat, a: nat, key: string)
    requires IsRun(states, acts) && i < j < |states| && acts[i] == Enter(a, key)
    requires forall k :: i < k < j ==> !OfWriter(acts[k], a)
    ensures a in states[j].assocs && states[j].assocs[a].writer == Checked(key)
    ensures forall other :: !Enabled(states[j], Enter(a, other))
    ensures exists r, next :: Enabled(states[j], Alloc(a, r, next))
  {
    WriterWaits(states, acts, i + 1, j, a);
    var r, next := AllocAnswers(states[j].sending, states[j].next);
    assert Enabled(states[j], Alloc(a, r, next));
  }

  /** A write to a new destination that finds an id and announces it: the id was in use by nobody,
      and the destination has it then, whatever others do in between. */
  lemma WriteGetsId(states: seq<State>, acts: seq<Action>, i: nat, j: nat, n: nat, a: nat, key: string)
    requires IsRun(states, acts) && i < j < n < |acts|
    requires acts[i] == Enter(a, key) && acts[j].Alloc? && acts[j].a == a && acts[j].r.Some? && acts[n] == Announced(a)
    requires forall k :: i < k < n && k != j ==> !OfWriter(acts[k], a)
    ensures var id, x := acts[j].r.value, states[n + 1].assocs[a];
            && id !in states[j].sending && id in states[j + 1].sending
            && key !in states[i].assocs[a].sendId && x.sendId == states[i].assocs[a].sendId[key := id]
            && x.writer == NoWriter
  {
    WriterWaits(states, acts, i + 1, j, a);
    WriterWaits(states, acts, j + 1, n, a);
  }

  /** How far the writer and the Close of an association are from their end. */
  function Left(x: Assoc): nat {
    (match x.writer case NoWriter => 0 case Allocated(_, _) => 1 case Checked(_) => 2)
    + (match x.stage case Active => 4 case Taken => 2 case Freed => 0)
  }

  /** A Close that has signalled can always come nearer to its end: the writer inside the lock leaves it,
      the ids are taken, and they are freed. */
  lemma CloseGoesOn(s: State, a: nat) returns (act: Action)
    requires Inv(s) && a in s.assocs && s.assocs[a].closed && s.assocs[a].stage != Freed
    ensures Enabled(s, act) && a in Step(s, act).assocs && Left(Step(s, act).assocs[a]) < Left(s.assocs[a])
  {
    hide HeldInUse;
    hide InUseHeld;
    hide HeldOnce;
    var x := s.assocs[a];
    match x.writer
    case Allocated(_, _) => act := AnnounceFailed(a);
    case Checked(_) =>
      var r, next := AllocAnswers(s.sending, s.next);
      act := Alloc(a, r, next);
    case NoWriter => act := if x.stage == Active then TakeSent(a) else Free(a);
  }

  lemma AllocAnswers(sending: set<Id>, next: Id) returns (r: Option<Id>, next': Id)
    ensures AllocResult(sending, next, r, next')
  {
    if free: Id :| free !in sending {
      var k := AfterCovers(next, free);
      var id, j := FirstUnused(sending, next, k);
      r, next' := Some(id), After(id, 1);
      assert After(next, j) == id;
    } else {
      r, next' := None, next;
    }
  }

  lemma {:induction false} FirstUnused(sending: set<Id>, next: Id, k: nat) returns (id: Id, j: nat)
    requires k < IDS && After(next, k) !in sending
    ensures j < IDS && id == After(next, j) && id !in sending && forall i: nat :: i < j ==> After(next, i) in sending
  {
    if i: nat :| i < k && After(next, i) !in sending {
      id, j := FirstUnused(sending, next, i);
    } else {
      id, j := After(next, k), k;
    }
  }

  /** In every run: any association can be opened once, closed once from then on, and written to for a new
      destination as long as it is not closed and nobody is inside; a writer that has its id can announce
      it or give it back. */
  lemma NothingWaits(states: seq<State>, acts: seq<Action>, n: nat, a: nat, key: string)
    requires IsRun(states, acts) && n < |states|
    ensures Enabled(states[n], Open(a)) <==> !Happened(acts, n, Open(a))
    ensures Enabled(states[n], Signal(a)) <==> Happened(acts, n, Open(a)) && !Happened(acts, n, Signal(a))
    ensures Happened(acts, n, Open(a)) && !Happened(acts, n, Signal(a)) ==>
              var x := states[n].assocs[a];
              Enabled(states[n], Enter(a, key)) <==> x.writer == NoWriter && key !in x.sendId
    ensures Happened(acts, n, Open(a)) && states[n].assocs[a].writer.Allocated? ==>
              Enabled(states[n], Announced(a)) && Enabled(states[n], AnnounceFailed(a))
  {
    CloseIsHistory(states, acts, n, a);
    hide Happened;
  }
}
