/**
 Sub-stream ids on the client side of a Mux.cool connection. The allocator moves a 16-bit cursor to the
 next id that is not registered, passing over 0. It reserves nothing: data sub-streams register their
 id a little later and remove it when they end, the control sub-stream never registers its own.
 */
module MuxClient {
  import opened Ids

  const TURN := 0xFFFF

  /** An id the cursor passes over. */
  predicate Passed(sessions: set<Id>, id: Id) {
    id == 0 || id in sessions
  }

  /** `allocID`: the first id behind the cursor that is not passed over, `k` places on. */
  ghost predicate AllocAt(sessions: set<Id>, next: Id, id: Id, k: nat) {
    && 1 <= k <= IDS && id == After(next, k) && !Passed(sessions, id)
    && forall j: nat :: 1 <= j < k ==> Passed(sessions, After(next, j))
  }

  /** How far behind the cursor an id is, one full turn for the cursor itself. */
  lemma Ahead(next: Id, id: Id) returns (k: nat)
    ensures 1 <= k <= IDS && After(next, k) == id
  {
    k := AfterCovers(After(next, 1), id);
    AfterAdd(next, 1, k);
    k := k + 1;
  }

  lemma {:induction false} FirstFree(sessions: set<Id>, next: Id, k: nat) returns (id: Id, first: nat)
    requires 1 <= k <= IDS && !Passed(sessions, After(next, k))
    ensures AllocAt(sessions, next, id, first)
  {
    if j: nat :| 1 <= j < k && !Passed(sessions, After(next, j)) {
      id, first := FirstFree(sessions, next, j);
    } else {
      id, first := After(next, k), k;
    }
  }

  /** The search ends, wherever the cursor is, if and only if some id other than 0 is not registered. */
  lemma SearchEndsIffFree(sessions: set<Id>, next: Id)
    ensures (exists id: Id, k: nat :: AllocAt(sessions, next, id, k)) <==> exists free: Id :: !Passed(sessions, free)
  {
    if free: Id :| !Passed(sessions, free) {
      var k := Ahead(next, free);
      var id, first := FirstFree(sessions, next, k);
    }
  }

  class ClientIds {
    var nextId: Id
    var total: nat
    var draining: bool
    var sessions: set<Id>

    constructor ()
      ensures nextId == 0 && total == 0 && !draining && sessions == {}
    {
      nextId, total, draining, sessions := 0, 0, false, {};
    }

    /** With an id left to find; otherwise the search does not end. */
    method AllocId() returns (id: Id, ghost k: nat)
      requires exists free: Id :: !Passed(sessions, free)
      modifies this`nextId, this`total, this`draining
      ensures AllocAt(sessions, old(nextId), id, k) && nextId == id
      ensures total == old(total) + 1 && draining == (old(draining) || total > 256)
    {
      total := total + 1;
      if total > 256 {
        draining := true;
      }
      ghost var start := nextId;
      ghost var free: Id :| !Passed(sessions, free);
      ghost var far := Ahead(start, free);
      k := 0;
      while true
        invariant total == old(total) + 1 && draining == (old(draining) || total > 256)
        invariant k < far && nextId == After(start, k)
        invariant forall j: nat :: 1 <= j <= k ==> Passed(sessions, After(start, j))
        decreases far - k
      {
        AfterAdd(start, k, 1);
        nextId := After(nextId, 1);
        k := k + 1;
        if nextId == 0 {
          continue;
        }
        if nextId !in sessions {
          return nextId, k;
        }
      }
    }
  }

  /** An unregistered id, such as that of the control sub-stream, is handed out again exactly when
      everything between the cursor and it is registered. */
  lemma HandsOut(sessions: set<Id>, next: Id, id: Id, k: nat, c: Id, d: nat)
    requires AllocAt(sessions, next, id, k)
    requires !Passed(sessions, c) && 1 <= d <= IDS && c == After(next, d)
    ensures id == c <==> forall j: nat :: 1 <= j < d ==> Passed(sessions, After(next, j))
  {
    if id == c {
      assert k == d;
    }
  }

  // ---- Whole runs ----

  /** `handed` are all ids handed out so far, in order; `total` counts them. */
  datatype State = State(next: Id, sessions: set<Id>, handed: seq<Id>)

  datatype Action = Alloc(id: Id, k: nat) | Register(id: Id) | Unregister(id: Id)

  ghost predicate Enabled(s: State, a: Action) {
    match a
    case Alloc(id, k) => AllocAt(s.sessions, s.next, id, k)
    case Register(id) => id in s.handed
    case Unregister(_) => true
  }

  ghost function Step(s: State, a: Action): State {
    match a
    case Alloc(id, _) => s.(next := id, handed := s.handed + [id])
    case Register(id) => s.(sessions := s.sessions + {id})
    case Unregister(id) => s.(sessions := s.sessions - {id})
  }

  /** During the first turn of the cursor the ids are 1, 2, 3 and so on. */
  ghost predicate Inv(s: State) {
    && (forall id :: id in s.sessions ==> id in s.handed)
    && (forall i :: 0 <= i < |s.handed| && i < TURN ==> s.handed[i] == i + 1)
    && (forall id :: id in s.handed ==> id != 0)
    && (|s.handed| <= TURN ==> s.next == |s.handed|)
  }

  lemma FirstTurn(s: State, id: Id, k: nat)
    requires Inv(s) && AllocAt(s.sessions, s.next, id, k) && |s.handed| < TURN
    ensures id == |s.handed| + 1 && id !in s.handed
  {
    var up := After(s.next, 1);
    assert up == |s.handed| + 1;
    assert up !in s.handed;
    assert !Passed(s.sessions, up);
  }

  lemma StepKeepsInv(s: State, a: Action)
    requires Inv(s) && Enabled(s, a)
    ensures Inv(Step(s, a))
  {
    if a.Alloc? && |s.handed| < TURN {
      FirstTurn(s, a.id, a.k);
    }
  }

  ghost predicate IsRun(states: seq<State>, acts: seq<Action>) {
    && |states| == |acts| + 1 && states[0] == State(0, {}, [])
    && forall i :: 0 <= i < |acts| ==> Enabled(states[i], acts[i]) && states[i + 1] == Step(states[i], acts[i])
  }

  lemma {:induction false} RunKeepsInv(states: seq<State>, acts: seq<Action>, n: nat)
    requires IsRun(states, acts) && n < |states|
    ensures Inv(states[n])
  {
    hide Enabled;
    hide Step;
    if n > 0 {
      RunKeepsInv(states, acts, n - 1);
      hide Inv;
      StepKeepsInv(states[n - 1], acts[n - 1]);
    }
  }

  /** In every run an allocation is fresh, its id never handed out before, if and only if fewer than
      65535 allocations came before it. */
  lemma FreshIffFirstTurn(states: seq<State>, acts: seq<Action>, n: nat)
    requires IsRun(states, acts) && n < |acts| && acts[n].Alloc?
    ensures acts[n].id !in states[n].handed <==> |states[n].handed| < TURN
  {
    RunKeepsInv(states, acts, n);
    var s, id := states[n], acts[n].id;
    if |s.handed| < TURN {
      FirstTurn(s, id, acts[n].k);
    } else {
      assert s.handed[id - 1] == id;
    }
  }

  /** In every run: an id can be allocated exactly when one other than 0 is not registered, and every id
      handed out can be registered from then on. */
  lemma NothingWaits(states: seq<State>, acts: seq<Action>, i: nat, n: nat)
    requires IsRun(states, acts) && n < |states|
    ensures (exists id: Id, k: nat :: Enabled(states[n], Alloc(id, k))) <==>
            exists free: Id :: !Passed(states[n].sessions, free)
    ensures i < n && acts[i].Alloc? ==> Enabled(states[n], Register(acts[i].id))
  {
    SearchEndsIffFree(states[n].sessions, states[n].next);
    if id: Id, k: nat :| AllocAt(states[n].sessions, states[n].next, id, k) {
      assert Enabled(states[n], Alloc(id, k));
    }
    if id: Id, k: nat :| Enabled(states[n], Alloc(id, k)) {
      assert AllocAt(states[n].sessions, states[n].next, id, k);
    }
    if i < n && acts[i].Alloc? {
      HandedStays(states, acts, i, n);
    }
  }

  lemma {:induction false} HandedStays(states: seq<State>, acts: seq<Action>, i: nat, n: nat)
    requires IsRun(states, acts) && i < n < |states| && acts[i].Alloc?
    ensures acts[i].id in states[n].handed
    decreases n
  {
    hide AllocAt;
    if n > i + 1 {
      HandedStays(states, acts, i, n - 1);
    }
  }
}
