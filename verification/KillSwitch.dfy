/**
 The hot switch: connections register in their cell's live map under the cell's lock, together
 with the disabled check; Disable, KillConn, KillIP and the idle evictions take entries out of
 the live map under the same lock and start the kill functions afterwards. All of these, and the
 end of connections, interleave freely.
 */
module KillSwitch {
  import opened Basics

  /** A connection: its cell and source address. */
  datatype Conn = Conn(cell: nat, src: nat)

  /** A call of Disable after its store of the flag: before or after `killAll`; `clean` while no
      Enable of the cell has come since the store. */
  datatype Disabler = Disabler(cell: nat, killed: bool, clean: bool)

  /** `opening` are connections with an id that have not yet reached `addGuarded`. `queued` are
      kill functions taken out of a live map and not yet started; `started` and `finished` record
      the starts and the connections that ended on their own. */
  datatype State = State(
    disabled: set<nat>,
    connSeq: nat,
    opening: map<nat, Conn>,
    live: map<nat, Conn>,
    disablers: map<nat, Disabler>,
    queued: multiset<nat>,
    started: multiset<nat>,
    admitted: set<nat>,
    finished: set<nat>)

  const INIT: State := State({}, 0, map[], map[], map[], multiset{}, multiset{}, {}, {})

  datatype Action =
    | Alloc(c: Conn)                   // Open: connSeq.Add(1)
    | Guard(id: nat)                   // Open: addGuarded
    | Done(id: nat)                    // done: removeLive
    | DisableMark(d: nat, cell: nat)   // Disable: store the flag
    | DisableKill(d: nat)              // Disable: killAll takes the whole live map
    | Enable(cell: nat)
    | TakeOne(id: nat)                 // KillConn, evictIdle, ReapIdle: take one if still there
    | TakeIP(cell: nat, src: nat)      // KillIP
    | Start(id: nat)                   // go kill()

  /** Live connections of a cell, and those of them from one address. */
  ghost function LiveOf(s: State, cell: nat): set<nat> {
    set id | id in s.live && s.live[id].cell == cell
  }

  ghost function LiveFrom(s: State, c: Conn): set<nat> {
    set id | id in s.live && s.live[id] == c
  }

  ghost predicate Enabled(s: State, a: Action) {
    match a
    case Guard(id) => id in s.opening
    case DisableMark(d, _) => d !in s.disablers
    case DisableKill(d) => d in s.disablers && !s.disablers[d].killed
    case Start(id) => id in s.queued
    case _ => true
  }

  /** A lock section that takes a set of entries out and queues their kills. */
  ghost function Take(s: State, ids: set<nat>): State {
    s.(live := s.live - ids, queued := s.queued + multiset(ids))
  }

  ghost function Step(s: State, a: Action): State
    requires Enabled(s, a)
  {
    match a
    case Alloc(c) => s.(connSeq := s.connSeq + 1, opening := s.opening[s.connSeq + 1 := c])
    case Guard(id) =>
      var c := s.opening[id];
      if c.cell in s.disabled then s.(opening := s.opening - {id})
      else s.(opening := s.opening - {id}, live := s.live[id := c], admitted := s.admitted + {id})
    case Done(id) =>
      if id in s.live then s.(live := s.live - {id}, finished := s.finished + {id}) else s
    case DisableMark(d, cell) =>
      s.(disabled := s.disabled + {cell}, disablers := s.disablers[d := Disabler(cell, false, true)])
    case DisableKill(d) =>
      Take(s, LiveOf(s, s.disablers[d].cell)).(disablers := s.disablers[d := s.disablers[d].(killed := true)])
    case Enable(cell) =>
      s.(disabled := s.disabled - {cell},
         disablers := map d | d in s.disablers ::
           if s.disablers[d].cell == cell then s.disablers[d].(clean := false) else s.disablers[d])
    case TakeOne(id) => if id in s.live then Take(s, {id}) else s
    case TakeIP(cell, src) => Take(s, LiveFrom(s, Conn(cell, src)))
    case Start(id) => s.(queued := s.queued - multiset{id}, started := s.started + multiset{id})
  }

  // ---- Invariant ----

  /** Ids are handed out once: everything known has an id already allocated, and nothing is both
      opening and admitted. */
  ghost predicate Allocated(s: State) {
    && (forall id :: id in s.opening ==> id <= s.connSeq && id !in s.admitted)
    && (forall id :: id in s.admitted ==> id <= s.connSeq)
  }

  /** An admitted connection is in exactly one place: live, ended on its own, waiting for its kill
      or killed once; any other id is in none. */
  ghost predicate OnePlace(s: State) {
    forall id: nat ::
      (if id in s.live then 1 else 0) + (if id in s.finished then 1 else 0) + s.queued[id] + s.started[id]
      == if id in s.admitted then 1 else 0
  }

  /** A Disable not followed by an Enable keeps its cell disabled and, once through, empty. */
  ghost predicate Silenced(s: State) {
    forall d :: d in s.disablers && s.disablers[d].clean ==>
      && s.disablers[d].cell in s.disabled
      && (s.disablers[d].killed ==> LiveOf(s, s.disablers[d].cell) == {})
  }

  ghost predicate Inv(s: State) {
    Allocated(s) && OnePlace(s) && Silenced(s)
  }

  lemma GuardKeepsInv(s: State, id: nat)
    requires Inv(s) && Enabled(s, Guard(id))
    ensures Inv(Step(s, Guard(id)))
  {
    var c, s' := s.opening[id], Step(s, Guard(id));
    if c.cell !in s.disabled {
      assert forall d :: d in s.disablers && s.disablers[d].clean ==> s.disablers[d].cell != c.cell;
      assert forall cell :: cell != c.cell ==> LiveOf(s', cell) == LiveOf(s, cell);
    }
  }

  lemma TakeKeepsInv(s: State, ids: set<nat>)
    requires Inv(s) && ids <= s.live.Keys
    ensures Inv(Take(s, ids))
    ensures forall cell :: LiveOf(Take(s, ids), cell) == LiveOf(s, cell) - ids
  {
  }

  lemma KillKeepsInv(s: State, d: nat)
    requires Inv(s) && Enabled(s, DisableKill(d))
    ensures Inv(Step(s, DisableKill(d)))
  {
    var s', cell := Step(s, DisableKill(d)), s.disablers[d].cell;
    TakeKeepsInv(s, LiveOf(s, cell));
    assert forall k :: LiveOf(s', k) == LiveOf(Take(s, LiveOf(s, cell)), k);
    assert OnePlace(s') by { hide Silenced; }
  }

  lemma SwitchKeepsInv(s: State, a: Action)
    requires Inv(s) && Enabled(s, a) && (a.DisableMark? || a.Enable?)
    ensures Inv(Step(s, a))
  {
    hide OnePlace;
    var s' := Step(s, a);
    assert forall k :: LiveOf(s', k) == LiveOf(s, k);
    SamePlaces(s, s');
  }

  lemma SamePlaces(s: State, s': State)
    requires OnePlace(s) && s'.live == s.live && s'.finished == s.finished && s'.queued == s.queued
    requires s'.started == s.started && s'.admitted == s.admitted
    ensures OnePlace(s')
  {
  }

  lemma StepKeepsInv(s: State, a: Action)
    requires Inv(s) && Enabled(s, a)
    ensures Inv(Step(s, a))
  {
    match a
    case Alloc(c) => assert Silenced(Step(s, a));
    case Guard(id) => GuardKeepsInv(s, id);
    case Done(id) =>
      assert forall cell :: LiveOf(Step(s, a), cell) <= LiveOf(s, cell);
    case TakeOne(id) =>
      if id in s.live {
        TakeKeepsInv(s, {id});
      }
    case TakeIP(cell, src) => TakeKeepsInv(s, LiveFrom(s, Conn(cell, src)));
    case Start(id) =>
      assert forall k :: LiveOf(Step(s, a), k) == LiveOf(s, k);
    case DisableKill(d) => KillKeepsInv(s, d);
    case _ => SwitchKeepsInv(s, a);
  }

  // ---- Whole runs ----

  ghost predicate IsRun(states: seq<State>, actions: seq<Action>) {
    && |states| == |actions| + 1
    && states[0] == INIT
    && forall i :: 0 <= i < |actions| ==> Enabled(states[i], actions[i]) && states[i + 1] == Step(states[i], actions[i])
  }

  lemma {:induction false} RunKeepsInv(states: seq<State>, actions: seq<Action>, n: nat)
    requires IsRun(states, actions) && n < |states|
    ensures Inv(states[n])
  {
    hide Inv;
    hide Step;
    if n == 0 {
      InitInv();
    } else {
      RunKeepsInv(states, actions, n - 1);
      StepKeepsInv(states[n - 1], actions[n - 1]);
    }
  }

  lemma InitInv()
    ensures Inv(INIT)
  {
  }

  /** Over a whole run each connection's kill function is started at most once, and only for a
      connection that had been admitted and did not end on its own. */
  lemma KillsAtMostOnce(states: seq<State>, actions: seq<Action>, n: nat, id: nat)
    requires IsRun(states, actions) && n < |states|
    ensures states[n].started[id] + states[n].queued[id] <= 1
    ensures id in states[n].started ==> id in states[n].admitted && id !in states[n].live && id !in states[n].finished
  {
    hide Step;
    RunKeepsInv(states, actions, n);
  }

  lemma {:induction false} DisablerStays(states: seq<State>, actions: seq<Action>, m: nat, i: nat, n: nat, d: nat,
                                         cell: nat)
    requires IsRun(states, actions) && m < n < |states| && m < i < |actions|
    requires actions[m] == DisableMark(d, cell) && actions[i] == DisableKill(d)
    requires forall k :: m < k < n ==> actions[k] != Enable(cell)
    ensures d in states[n].disablers && states[n].disablers[d].cell == cell && states[n].disablers[d].clean
    ensures n > i ==> states[n].disablers[d].killed
    decreases n
  {
    if n > m + 1 {
      DisablerStays(states, actions, m, i, n - 1, d, cell);
    }
  }

  /** Once a Disable has returned, and until the next Enable, the cell has no live connection and
      admits none. */
  lemma DisableSilences(states: seq<State>, actions: seq<Action>, m: nat, i: nat, n: nat, d: nat, cell: nat)
    requires IsRun(states, actions) && m < i < n < |states|
    requires actions[m] == DisableMark(d, cell) && actions[i] == DisableKill(d)
    requires forall k :: m < k < n ==> actions[k] != Enable(cell)
    ensures cell in states[n].disabled && LiveOf(states[n], cell) == {}
    ensures n < |actions| && actions[n].Guard? && states[n].opening[actions[n].id].cell == cell ==>
              states[n + 1].admitted == states[n].admitted && states[n + 1].live == states[n].live
  {
    RunKeepsInv(states, actions, n);
    DisablerStays(states, actions, m, i, n, d, cell);
  }

  /** Whom a kill path is after. */
  ghost predicate Targets(s: State, a: Action, id: nat)
    requires Enabled(s, a) && id in s.live
  {
    match a
    case DisableKill(d) => s.live[id].cell == s.disablers[d].cell
    case TakeOne(one) => id == one
    case TakeIP(cell, src) => s.live[id].cell == cell && s.live[id].src == src
    case _ => false
  }

  /** A kill path takes exactly its targets out of the live map and queues each of them once. */
  lemma KillsExactly(s: State, a: Action, id: nat)
    requires Inv(s) && Enabled(s, a) && id in s.live && (a.DisableKill? || a.TakeOne? || a.TakeIP?)
    ensures id in Step(s, a).live <==> !Targets(s, a, id)
    ensures Step(s, a).queued[id] == if Targets(s, a, id) then 1 else 0
    ensures Targets(s, a, id) ==> Enabled(Step(s, a), Start(id))
  {
    assert s.queued[id] == 0;
  }

  // ---- Admission ----

  /** The last switching of a cell among the first `n` actions, if any, was a Disable. */
  ghost predicate SwitchedOff(actions: seq<Action>, n: nat, cell: nat)
    requires n <= |actions|
  {
    exists m: nat :: SwitchedOffAt(actions, m, n, cell)
  }

  ghost predicate SwitchedOffAt(actions: seq<Action>, m: nat, n: nat, cell: nat)
    requires n <= |actions|
  {
    && m < n && actions[m].DisableMark? && actions[m].cell == cell
    && forall k :: m < k < n ==> actions[k] != Enable(cell)
  }

  lemma {:induction false} DisabledIffSwitchedOff(states: seq<State>, actions: seq<Action>, n: nat, cell: nat)
    requires IsRun(states, actions) && n < |states|
    ensures cell in states[n].disabled <==> SwitchedOff(actions, n, cell)
  {
    if n > 0 {
      var k, a := n - 1, actions[n - 1];
      DisabledIffSwitchedOff(states, actions, k, cell);
      if a.DisableMark? && a.cell == cell {
        assert SwitchedOffAt(actions, k, n, cell);
      } else if a != Enable(cell) {
        if m: nat :| SwitchedOffAt(actions, m, k, cell) {
          assert SwitchedOffAt(actions, m, n, cell);
        }
        if m: nat :| SwitchedOffAt(actions, m, n, cell) {
          assert SwitchedOffAt(actions, m, k, cell);
        }
      }
    }
  }

  ghost predicate GuardedWithin(actions: seq<Action>, i: nat, n: nat, id: nat)
    requires n <= |actions|
  {
    exists k: nat :: i < k < n && actions[k] == Guard(id)
  }

  lemma GuardedNext(actions: seq<Action>, i: nat, n: nat, id: nat)
    requires i < n < |actions|
    ensures GuardedWithin(actions, i, n + 1, id) <==> GuardedWithin(actions, i, n, id) || actions[n] == Guard(id)
  {
  }

  lemma OpeningStep(s: State, a: Action, id: nat)
    requires Enabled(s, a) && id <= s.connSeq
    ensures id <= Step(s, a).connSeq
    ensures if id in s.opening && a != Guard(id)
            then id in Step(s, a).opening && Step(s, a).opening[id] == s.opening[id]
            else id !in Step(s, a).opening
  {
  }

  /** An id is handed out once: opening until its Guard, and never again afterwards. */
  lemma {:induction false} OpeningUntilGuard(states: seq<State>, actions: seq<Action>, i: nat, n: nat, id: nat)
    requires IsRun(states, actions) && i < n < |states| && actions[i].Alloc? && id == states[i].connSeq + 1
    ensures id <= states[n].connSeq
    ensures if GuardedWithin(actions, i, n, id) then id !in states[n].opening
            else id in states[n].opening && states[n].opening[id] == actions[i].c
    decreases n
  {
    if n == i + 1 {
      assert states[n] == Step(states[i], actions[i]);
      hide IsRun;
    } else {
      hide Step;
      hide Enabled;
      OpeningUntilGuard(states, actions, i, n - 1, id);
      OpeningStep(states[n - 1], actions[n - 1], id);
      GuardedNext(actions, i, n - 1, id);
      hide GuardedWithin;
    }
  }

  /** In every run: a connection gets an id that nothing knows yet, and when it reaches the guard it goes
      live as what it is if and only if its cell has not been switched off since the last Enable. */
  lemma AdmittedIffSwitchedOn(states: seq<State>, actions: seq<Action>, i: nat, g: nat, id: nat)
    requires IsRun(states, actions) && i < g < |actions|
    requires actions[i].Alloc? && id !in states[i].opening && id in states[i + 1].opening && actions[g] == Guard(id)
    ensures id !in states[i].admitted && id !in states[g].live && id !in states[g + 1].opening
    ensures var c := actions[i].c;
            && (id in states[g + 1].live && states[g + 1].live[id] == c <==> !SwitchedOff(actions, g, c.cell))
            && (id in states[g + 1].admitted <==> !SwitchedOff(actions, g, c.cell))
    ensures forall k :: k != id ==> (k in states[g + 1].live <==> k in states[g].live)
  {
    RunKeepsInv(states, actions, i);
    RunKeepsInv(states, actions, g);
    OpeningUntilGuard(states, actions, i, g, id);
    DisabledIffSwitchedOff(states, actions, g, actions[i].c.cell);
    hide SwitchedOff;
    assert id !in states[g].admitted;
  }

  /** What ends a live connection: its own end, or a kill path that is after it. */
  ghost predicate Ends(s: State, a: Action, id: nat)
    requires Enabled(s, a) && id in s.live
  {
    a == Done(id) || Targets(s, a, id)
  }

  lemma LiveStep(s: State, a: Action, id: nat)
    requires Inv(s) && Enabled(s, a) && id in s.live
    ensures if Ends(s, a, id) then id !in Step(s, a).live
            else id in Step(s, a).live && Step(s, a).live[id] == s.live[id]
  {
    assert id in s.admitted;
  }

  /** A live connection stays as it is until something ends it, and then it is gone. */
  lemma {:induction false} LiveUntilEnded(states: seq<State>, actions: seq<Action>, m: nat, n: nat, id: nat)
    requires IsRun(states, actions) && m <= n < |states| && id in states[m].live
    requires forall k :: m <= k < n && id in states[k].live ==> !Ends(states[k], actions[k], id)
    ensures id in states[n].live && states[n].live[id] == states[m].live[id]
    ensures n < |actions| ==>
              if Ends(states[n], actions[n], id) then id !in states[n + 1].live
              else id in states[n + 1].live && states[n + 1].live[id] == states[m].live[id]
    decreases n
  {
    hide Step;
    hide Inv;
    hide Ends;
    RunKeepsInv(states, actions, n);
    if n > m {
      LiveUntilEnded(states, actions, m, n - 1, id);
    }
    if n < |actions| {
      LiveStep(states[n], actions[n], id);
    }
  }

  lemma StartStep(s: State, a: Action, id: nat)
    requires Enabled(s, a)
    ensures Step(s, a).started[id] == s.started[id] + if a == Start(id) then 1 else 0
    ensures a == Start(id) ==> s.queued[id] > 0 && Step(s, a).queued[id] == s.queued[id] - 1
  {
  }

  /** A connection's kill function has run exactly if its start has come, and a start takes it off the
      queue. */
  lemma {:induction false} KilledIffStarted(states: seq<State>, actions: seq<Action>, n: nat, id: nat)
    requires IsRun(states, actions) && n < |states|
    ensures states[n].started[id] == if Happened(actions, n, Start(id)) then 1 else 0
    ensures Happened(actions, n, Start(id)) ==> states[n].queued[id] == 0
  {
    KillsAtMostOnce(states, actions, n, id);
    if n > 0 {
      hide Step;
      hide Enabled;
      KilledIffStarted(states, actions, n - 1, id);
      StartStep(states[n - 1], actions[n - 1], id);
      HappenedNext(actions, n - 1, Start(id));
      hide Happened;
    }
  }

  // ---- Nothing has to wait ----

  ghost predicate Marked(actions: seq<Action>, n: nat, d: nat)
    requires n <= |actions|
  {
    exists k: nat :: k < n && actions[k].DisableMark? && actions[k].d == d
  }

  lemma MarkedNext(actions: seq<Action>, n: nat, d: nat)
    requires n < |actions|
    ensures Marked(actions, n + 1, d) <==> Marked(actions, n, d) || (actions[n].DisableMark? && actions[n].d == d)
  {
  }

  lemma DisablerStep(s: State, a: Action, d: nat)
    requires Enabled(s, a)
    ensures d in Step(s, a).disablers <==> d in s.disablers || (a.DisableMark? && a.d == d)
    ensures d in Step(s, a).disablers ==>
              (Step(s, a).disablers[d].killed <==> d in s.disablers && (s.disablers[d].killed || a == DisableKill(d)))
    ensures a == DisableKill(d) ==> d in s.disablers && !s.disablers[d].killed
  {
  }

  lemma {:induction false} DisablerHistory(states: seq<State>, actions: seq<Action>, n: nat, d: nat)
    requires IsRun(states, actions) && n < |states|
    ensures d in states[n].disablers <==> Marked(actions, n, d)
    ensures d in states[n].disablers ==> (states[n].disablers[d].killed <==> Happened(actions, n, DisableKill(d)))
    ensures d !in states[n].disablers ==> !Happened(actions, n, DisableKill(d))
  {
    if n > 0 {
      hide Step;
      hide Enabled;
      hide Happened;
      hide Marked;
      var s, a, s' := states[n - 1], actions[n - 1], states[n];
      DisablerHistory(states, actions, n - 1, d);
      assert Enabled(s, a) && s' == Step(s, a);
      hide IsRun;
      MarkedNext(actions, n - 1, d);
      HappenedNext(actions, n - 1, DisableKill(d));
      DisablerStep(s, a, d);
    }
  }

  /** In every run: a connection with an id can come to the guard until it has, a Disable can be called at
      any time, and its killing can follow until it has. */
  lemma NothingWaits(states: seq<State>, actions: seq<Action>, n: nat, i: nat, d: nat, cell: nat)
    requires IsRun(states, actions) && n < |states|
    ensures i < n && actions[i].Alloc? && !GuardedWithin(actions, i, n, states[i].connSeq + 1) ==>
              Enabled(states[n], Guard(states[i].connSeq + 1))
    ensures Enabled(states[n], DisableMark(d, cell)) <==> !Marked(actions, n, d)
    ensures Enabled(states[n], DisableKill(d)) <==> Marked(actions, n, d) && !Happened(actions, n, DisableKill(d))
  {
    hide Step;
    DisablerHistory(states, actions, n, d);
    if i < n && actions[i].Alloc? {
      OpeningUntilGuard(states, actions, i, n, states[i].connSeq + 1);
    }
    hide GuardedWithin;
    hide Happened;
    hide Marked;
  }
}
