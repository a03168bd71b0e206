/**
 The session table of the Mux.cool server under concurrency. The read loop, one landing
 goroutine per session, every path that finishes a session and `Close` interleave freely; each
 critical section, dial result and connection close is one atomic step.
 */
module MuxServer {
  import Basics

  const MAX_SESSIONS: nat := 512
  const MAX_UDP_PENDING: nat := 64

  /** Progress of the `sync.Once` body of `finish`; `conn` is the connection it saw, if any. */
  datatype Finish = Open | Marked(conn: bool) | Removed(conn: bool) | Ended

  /** Progress of the landing goroutine: dialling, dialled but not yet past `setConn` or
      `activateUDP`, past it with the connection installed, refused and about to close the
      connection, refused and closed, or without a connection because the dial failed. */
  datatype Landing = None | Dialing | Dialed | Installed | Refused | Dropped | Failed

  /** `closes` counts the Close calls on the dialled connection; `returned` says that the landing
      goroutine is over. */
  datatype Session = Session(
    id: nat, control: bool, udp: bool,
    finish: Finish, landing: Landing, udpPending: nat, closes: nat, returned: bool)
  {
    /** The fields guarded by `smu`. */
    predicate Finished() {
      finish != Open
    }

    predicate HasConn() {
      landing == Installed
    }
  }

  /** Where the read loop is inside `handleNew`; stopped once reading a frame has failed. */
  datatype ReadLoop = Idle | IdFree(id: nat, udp: bool) | RoomLeft(id: nat, udp: bool) | Stopped

  /** A call of `closeAll` after its snapshot: the sessions it has still to finish. The deferred one
      is that of `Run` itself. */
  datatype Closer = Closer(deferred: bool, todo: set<nat>)

  /** Sessions by handle, in order of creation; the table maps ids to handles. */
  datatype State = State(sessions: seq<Session>, table: map<nat, nat>, loop: ReadLoop, closers: map<nat, Closer>)

  datatype Action =
    | NewControl(id: nat)             // read loop: New frame for the control domain
    | CheckId(id: nat, udp: bool)     // read loop: getSession(id) == nil?
    | CheckRoom                       // read loop: sessionCount() < 512?
    | AddSession                      // read loop: addSession, start landing
    | DialOk(h: nat) | DialFail(h: nat)
    | Install(h: nat)                 // setConn / activateUDP
    | CloseRefused(h: nat)            // landing closes the connection it could not install
    | DeliverUDP(h: nat)
    | Mark(h: nat)                    // finish: set finished, read conn
    | Remove(h: nat)                  // finish: removeSession(id)
    | CloseConn(h: nat)               // finish: close the connection it saw
    | Return(h: nat)                  // the landing goroutine returns, its finish call included
    | Stop                            // read loop: ReadFrame fails
    | Snapshot(c: nat, deferred: bool)  // closeAll: copy the table under the lock
    | Waited(c: nat, h: nat)          // closeAll: finish of one copied session has returned

  const INIT: State := State([], map[], Idle, map[])

  function Add(s: State, x: Session): State {
    s.(sessions := s.sessions + [x], table := s.table[x.id := |s.sessions|], loop := Idle)
  }

  function Set(s: State, h: nat, x: Session): State
    requires h < |s.sessions|
  {
    s.(sessions := s.sessions[h := x])
  }

  predicate Enabled(s: State, a: Action) {
    match a
    case NewControl(_) => s.loop == Idle
    case CheckId(_, _) => s.loop == Idle
    case CheckRoom => s.loop.IdFree?
    case AddSession => s.loop.RoomLeft?
    case DialOk(h) => h < |s.sessions| && s.sessions[h].landing == Dialing
    case DialFail(h) => h < |s.sessions| && s.sessions[h].landing == Dialing
    case Install(h) => h < |s.sessions| && s.sessions[h].landing == Dialed
    case CloseRefused(h) => h < |s.sessions| && s.sessions[h].landing == Refused
    case DeliverUDP(h) => h < |s.sessions| && s.sessions[h].udp
    case Mark(h) => h < |s.sessions| && s.sessions[h].finish == Open
    case Remove(h) => h < |s.sessions| && s.sessions[h].finish.Marked?
    case CloseConn(h) => h < |s.sessions| && s.sessions[h].finish.Removed?
    case Return(h) => h < |s.sessions| && !s.sessions[h].returned && Over(s.sessions[h])
    case Stop => s.loop == Idle
    case Snapshot(c, deferred) => c !in s.closers && (deferred ==> s.loop == Stopped)
    case Waited(c, h) =>
      c in s.closers && h in s.closers[c].todo && h < |s.sessions| && s.sessions[h].finish == Ended
  }

  /** The landing goroutine has nothing left to do: it dropped the connection, or its call of
      `finish`, which waits for the one body, has returned. */
  predicate Over(x: Session) {
    x.landing == Dropped || ((x.landing == Installed || x.landing == Failed) && x.finish == Ended)
  }

  function Step(s: State, a: Action): State
    requires Enabled(s, a)
  {
    match a
    case NewControl(id) => Add(s, Session(id, true, false, Open, None, 0, 0, false))
    case CheckId(id, udp) => if id in s.table then s else s.(loop := IdFree(id, udp))
    case CheckRoom =>
      s.(loop := if |s.table| >= MAX_SESSIONS then Idle else RoomLeft(s.loop.id, s.loop.udp))
    case AddSession => Add(s, Session(s.loop.id, false, s.loop.udp, Open, Dialing, 0, 0, false))
    case DialOk(h) => Set(s, h, s.sessions[h].(landing := Dialed))
    case DialFail(h) => Set(s, h, s.sessions[h].(landing := Failed))
    case Install(h) =>
      var x := s.sessions[h];
      Set(s, h, if x.Finished() then x.(landing := Refused) else x.(landing := Installed, udpPending := 0))
    case CloseRefused(h) =>
      Set(s, h, s.sessions[h].(landing := Dropped, closes := s.sessions[h].closes + 1))
    case DeliverUDP(h) =>
      var x := s.sessions[h];
      if x.Finished() || x.HasConn() || x.udpPending >= MAX_UDP_PENDING then s
      else Set(s, h, x.(udpPending := x.udpPending + 1))
    case Mark(h) => Set(s, h, s.sessions[h].(finish := Marked(s.sessions[h].HasConn())))
    case Remove(h) =>
      var x := s.sessions[h];
      Set(s, h, x.(finish := Removed(x.finish.conn))).(table := s.table - {x.id})
    case CloseConn(h) =>
      var x := s.sessions[h];
      Set(s, h, x.(finish := Ended, closes := if x.finish.conn then x.closes + 1 else x.closes))
    case Return(h) => Set(s, h, s.sessions[h].(returned := true))
    case Stop => s.(loop := Stopped)
    case Snapshot(c, deferred) => s.(closers := s.closers[c := Closer(deferred, s.table.Values)])
    case Waited(c, h) => s.(closers := s.closers[c := s.closers[c].(todo := s.closers[c].todo - {h})])
  }

  // ---- Invariant ----

  /** A session is in the table under its id until `finish` removes it, and nothing else is. */
  ghost predicate OwnEntries(s: State) {
    && (forall id :: id in s.table ==> s.table[id] < |s.sessions| && s.sessions[s.table[id]].id == id)
    && (forall id :: id in s.table ==> InTable(s.sessions[s.table[id]]))
    && (forall h :: 0 <= h < |s.sessions| && InTable(s.sessions[h]) ==>
          s.sessions[h].id in s.table && s.table[s.sessions[h].id] == h)
  }

  predicate InTable(x: Session) {
    x.finish.Open? || x.finish.Marked?
  }

  ghost predicate Bounded(s: State)
    requires OwnEntries(s)
  {
    && |NonControl(s)| <= MAX_SESSIONS
    && (s.loop.IdFree? ==> s.loop.id !in s.table)
    && (s.loop.RoomLeft? ==> s.loop.id !in s.table && |s.table| < MAX_SESSIONS)
  }

  ghost function NonControl(s: State): set<nat>
    requires OwnEntries(s)
  {
    set id | id in s.table && !s.sessions[s.table[id]].control
  }

  /** The connection is closed by `finish` if it was installed in time, else by the landing
      goroutine, and by no one twice. */
  ghost predicate Accounted(x: Session) {
    && (x.finish.Marked? || x.finish.Removed? ==> x.finish.conn == x.HasConn())
    && (x.landing.Refused? || x.landing.Dropped? ==> x.Finished())
    && x.closes == (if x.landing == Dropped || (x.landing == Installed && x.finish == Ended) then 1 else 0)
    && x.udpPending <= MAX_UDP_PENDING
    && (x.HasConn() ==> x.udpPending == 0)
    && (x.returned ==> Over(x))
  }

  /** Once `Run` closes down nothing is added, and whatever is still in the table is among the
      sessions it has to finish. */
  ghost predicate Closing(s: State) {
    forall c :: c in s.closers && s.closers[c].deferred ==>
      s.loop == Stopped && forall id :: id in s.table ==> s.table[id] in s.closers[c].todo
  }

  ghost predicate Inv(s: State) {
    && OwnEntries(s) && Bounded(s) && Closing(s)
    && forall h :: 0 <= h < |s.sessions| ==> Accounted(s.sessions[h])
  }

  lemma InitInv()
    ensures Inv(INIT)
  {
  }

  /** A control session must come under an id that is free. */
  predicate FreshControl(s: State, a: Action) {
    a.NewControl? ==> a.id !in s.table
  }

  lemma AddKeepsInv(s: State, x: Session)
    requires Inv(s) && x.id !in s.table && x.finish == Open && Accounted(x) && s.loop != Stopped
    requires x.control || |s.table| < MAX_SESSIONS
    ensures Inv(Add(s, x))
  {
    hide Accounted;
    hide OwnEntries;
    AddKeepsEntries(s, x);
    AddToNonControl(s, x);
    Basics.SubsetSize(NonControl(s), s.table.Keys);
    var s' := Add(s, x);
    assert forall h :: 0 <= h < |s.sessions| ==> s'.sessions[h] == s.sessions[h];
  }

  lemma AddToNonControl(s: State, x: Session)
    requires OwnEntries(s) && OwnEntries(Add(s, x)) && x.id !in s.table
    ensures NonControl(Add(s, x)) == NonControl(s) + if x.control then {} else {x.id}
  {
    var s' := Add(s, x);
    assert s'.sessions[s'.table[x.id]] == x;
    assert forall id :: id in s.table ==> s'.table[id] == s.table[id];
  }

  lemma AddKeepsEntries(s: State, x: Session)
    requires OwnEntries(s) && x.id !in s.table && x.finish == Open
    ensures OwnEntries(Add(s, x))
  {
  }

  lemma SetKeepsInv(s: State, h: nat, x: Session)
    requires Inv(s) && h < |s.sessions| && Accounted(x)
    requires x.id == s.sessions[h].id && x.control == s.sessions[h].control && InTable(x) == InTable(s.sessions[h])
    ensures Inv(Set(s, h, x))
  {
    hide Accounted;
    var s' := Set(s, h, x);
    assert OwnEntries(s');
    assert NonControl(s') == NonControl(s);
  }

  lemma RemoveKeepsEntries(s: State, h: nat)
    requires OwnEntries(s) && Enabled(s, Remove(h))
    ensures OwnEntries(Step(s, Remove(h)))
    ensures NonControl(Step(s, Remove(h))) <= NonControl(s)
  {
    var s', x := Step(s, Remove(h)), s.sessions[h];
    assert s.table[x.id] == h;
    assert s'.table == s.table - {x.id};
    assert forall k :: 0 <= k < |s.sessions| && k != h ==> s'.sessions[k] == s.sessions[k];
  }

  lemma RemoveKeepsClosing(s: State, h: nat)
    requires Closing(s) && Enabled(s, Remove(h))
    ensures Closing(Step(s, Remove(h)))
  {
  }

  lemma RemoveKeepsAccounts(s: State, h: nat)
    requires Enabled(s, Remove(h)) && forall k :: 0 <= k < |s.sessions| ==> Accounted(s.sessions[k])
    ensures forall k :: 0 <= k < |s.sessions| ==> Accounted(Step(s, Remove(h)).sessions[k])
  {
    assert Accounted(s.sessions[h]);
  }

  lemma RemoveKeepsInv(s: State, h: nat)
    requires Inv(s) && Enabled(s, Remove(h))
    ensures Inv(Step(s, Remove(h)))
  {
    hide OwnEntries;
    hide Accounted;
    hide Closing;
    var s' := Step(s, Remove(h));
    RemoveKeepsClosing(s, h);
    RemoveKeepsAccounts(s, h);
    RemoveKeepsEntries(s, h);
    Basics.SubsetSize(NonControl(s'), NonControl(s));
    Basics.SubsetSize(s'.table.Keys, s.table.Keys);
  }

  predicate Local(a: Action) {
    a.DialOk? || a.DialFail? || a.Install? || a.CloseRefused? || a.Mark? || a.CloseConn? || a.Return?
  }

  lemma LocalKeepsInv(s: State, a: Action)
    requires Inv(s) && Enabled(s, a) && Local(a)
    ensures Inv(Step(s, a))
  {
    hide OwnEntries;
    hide Bounded;
    SetKeepsInv(s, a.h, Step(s, a).sessions[a.h]);
  }

  lemma DeliverKeepsInv(s: State, h: nat)
    requires Inv(s) && Enabled(s, DeliverUDP(h))
    ensures Inv(Step(s, DeliverUDP(h)))
  {
    hide OwnEntries;
    hide Bounded;
    SetKeepsInv(s, h, Step(s, DeliverUDP(h)).sessions[h]);
    assert s.sessions[h := s.sessions[h]] == s.sessions;
  }

  lemma ReadLoopKeepsInv(s: State, a: Action)
    requires Inv(s) && Enabled(s, a) && FreshControl(s, a)
    requires a.NewControl? || a.CheckId? || a.CheckRoom? || a.AddSession? || a.Stop?
    ensures Inv(Step(s, a))
  {
    hide OwnEntries;
    if a.NewControl? {
      AddKeepsInv(s, Session(a.id, true, false, Open, None, 0, 0, false));
    } else if a.AddSession? {
      AddKeepsInv(s, Session(s.loop.id, false, s.loop.udp, Open, Dialing, 0, 0, false));
    } else {
      LoopKeepsInv(s, Step(s, a).loop);
    }
  }

  lemma LoopKeepsInv(s: State, loop: ReadLoop)
    requires Inv(s)
    requires s.loop == Stopped ==> loop == Stopped
    requires loop.IdFree? ==> loop.id !in s.table
    requires loop.RoomLeft? ==> loop.id !in s.table && |s.table| < MAX_SESSIONS
    ensures Inv(s.(loop := loop))
  {
    assert OwnEntries(s.(loop := loop));
    assert NonControl(s.(loop := loop)) == NonControl(s);
  }

  lemma CloserKeepsInv(s: State, a: Action)
    requires Inv(s) && Enabled(s, a) && (a.Snapshot? || a.Waited?)
    ensures Inv(Step(s, a))
  {
    var s' := Step(s, a);
    assert OwnEntries(s') && NonControl(s') == NonControl(s);
    forall c, id | c in s'.closers && s'.closers[c].deferred && id in s'.table
      ensures s'.table[id] in s'.closers[c].todo
    {
      assert InTable(s.sessions[s.table[id]]);
    }
  }

  lemma StepKeepsInv(s: State, a: Action)
    requires Inv(s) && Enabled(s, a) && FreshControl(s, a)
    ensures Inv(Step(s, a))
  {
    hide Inv;
    hide Step;
    match a
    case DeliverUDP(h) => DeliverKeepsInv(s, h);
    case Remove(h) => RemoveKeepsInv(s, h);
    case Snapshot(_, _) => CloserKeepsInv(s, a);
    case Waited(_, _) => CloserKeepsInv(s, a);
    case _ =>
      if Local(a) {
        LocalKeepsInv(s, a);
      } else {
        ReadLoopKeepsInv(s, a);
      }
  }

  // ---- Whole runs ----

  ghost predicate IsRun(states: seq<State>, actions: seq<Action>) {
    && |states| == |actions| + 1
    && states[0] == INIT
    && forall i :: 0 <= i < |actions| ==> Enabled(states[i], actions[i]) && states[i + 1] == Step(states[i], actions[i])
  }

  lemma {:induction false} RunKeepsInv(states: seq<State>, actions: seq<Action>, n: nat)
    requires IsRun(states, actions) && n < |states|
    requires forall i :: 0 <= i < |actions| ==> FreshControl(states[i], actions[i])
    ensures Inv(states[n])
  {
    hide Inv;
    hide Step;
    if n == 0 {
      InitInv();
    } else {
      RunKeepsInv(states, actions, n - 1);
      StepKeepsInv(states[n - 1], actions[n - 1]);
    }
  }

  /** Non-control sessions registered in the table. */
  ghost function Registered(s: State): set<nat> {
    set id | id in s.table && s.table[id] < |s.sessions| && !s.sessions[s.table[id]].control
  }

  /** In every run whose control sessions use free ids: finishing a session removes that
      session's own entry and no other, at most 512 data sessions are registered, and a dialled
      connection is closed at most once - and exactly once as soon as the session has ended and
      its landing goroutine is past installing or dropping it. */
  lemma RunSafe(states: seq<State>, actions: seq<Action>, n: nat)
    requires IsRun(states, actions) && n < |states|
    requires forall i :: 0 <= i < |actions| ==> FreshControl(states[i], actions[i])
    ensures n < |actions| && actions[n].Remove? ==>
              var h := actions[n].h;
              var id := states[n].sessions[h].id;
              && id in states[n].table && states[n].table[id] == h
              && states[n + 1].table == states[n].table - {id}
    ensures |Registered(states[n])| <= MAX_SESSIONS
    ensures forall h :: 0 <= h < |states[n].sessions| ==>
              var x := states[n].sessions[h];
              && x.closes <= 1
              && (x.finish == Ended && x.landing == Installed ==> x.closes == 1)
              && (x.landing == Dropped ==> x.closes == 1)
              && (x.landing == Dialing || x.landing == Failed ==> x.closes == 0)
              && x.udpPending <= MAX_UDP_PENDING
  {
    RunKeepsInv(states, actions, n);
    assert Registered(states[n]) == NonControl(states[n]);
  }

  /** A control session on an id in use displaces the session that holds it: entries stay with
      their sessions exactly when the id is free. */
  lemma ControlNeedsFreeId(s: State, id: nat)
    requires Inv(s) && s.loop == Idle
    ensures OwnEntries(Step(s, NewControl(id))) <==> id !in s.table
  {
    if id in s.table {
      var s' := Step(s, NewControl(id));
      var h := s.table[id];
      assert s'.sessions[h] == s.sessions[h] && InTable(s'.sessions[h]) && s'.table[id] == |s.sessions|;
    } else {
      AddKeepsEntries(s, Session(id, true, false, Open, None, 0, 0, false));
    }
  }

  /** The consequence: when the displaced session finishes, the control session loses its entry. */
  lemma DisplacedFinishRemovesControl(s: State, id: nat)
    requires Inv(s) && s.loop == Idle && id in s.table && s.sessions[s.table[id]].finish == Open
    ensures var h := s.table[id];
            var s3 := Step(Step(Step(s, NewControl(id)), Mark(h)), Remove(h));
            var control := s3.sessions[|s.sessions|];
            control.control && control.id == id && InTable(control) && id !in s3.table
  {
    hide Bounded;
    hide Accounted;
    var h := s.table[id];
    var s1 := Step(s, NewControl(id));
    assert s1.sessions[h] == s.sessions[h] && s1.sessions[h].id == id;
    var s2 := Step(s1, Mark(h));
    assert s2.sessions[h].finish.Marked? && s2.sessions[h].id == id
           && s2.sessions[|s.sessions|] == s1.sessions[|s.sessions|];
  }

  // ---- Shutdown ----

  /** `Run` has returned: the deferred `closeAll` has finished every session of its snapshot. */
  ghost predicate RunReturned(s: State) {
    exists c :: c in s.closers && s.closers[c].deferred && s.closers[c].todo == {}
  }

  /** In every run whose control sessions use free ids: when `Run` has returned the table is empty and
      every session finished; when the landing goroutines have returned too, every connection that was
      ever dialled has been closed exactly once. */
  lemma ShutdownComplete(states: seq<State>, actions: seq<Action>, n: nat)
    requires IsRun(states, actions) && n < |states|
    requires forall i :: 0 <= i < |actions| ==> FreshControl(states[i], actions[i])
    requires RunReturned(states[n])
    ensures states[n].table == map[]
    ensures forall x :: x in states[n].sessions ==> x.Finished() && !InTable(x)
    ensures forall x :: x in states[n].sessions && x.returned ==>
              x.closes == if x.landing == Failed then 0 else 1
  {
    RunKeepsInv(states, actions, n);
    var s := states[n];
    var c :| c in s.closers && s.closers[c].deferred && s.closers[c].todo == {};
    assert s.table.Keys == {};
    forall x | x in s.sessions
      ensures x.Finished() && !InTable(x) && (x.returned ==> x.closes == if x.landing == Failed then 0 else 1)
    {
      var h :| 0 <= h < |s.sessions| && s.sessions[h] == x;
      assert Accounted(x);
    }
  }

  // ---- When control ids are free ----

  /** The read loop handles a New frame on `id`. */
  predicate NewOn(a: Action, id: nat) {
    a == NewControl(id) || (a.CheckId? && a.id == id)
  }

  /** Ids come into the table by New frames only. */
  lemma {:induction false} TableFromNews(states: seq<State>, actions: seq<Action>, n: nat, id: nat)
    requires IsRun(states, actions) && n < |states|
    requires id in states[n].table || ((states[n].loop.IdFree? || states[n].loop.RoomLeft?) && states[n].loop.id == id)
    ensures exists j :: 0 <= j < n && NewOn(actions[j], id)
  {
    var s, a := states[n - 1], actions[n - 1];
    if !NewOn(a, id) {
      TableFromNews(states, actions, n - 1, id);
    }
  }

  /** Control sessions use free ids as soon as no earlier New frame used their id. */
  lemma FreshWhenUnused(states: seq<State>, actions: seq<Action>)
    requires IsRun(states, actions)
    requires forall i, j :: 0 <= j < i < |actions| && actions[i].NewControl? ==> !NewOn(actions[j], actions[i].id)
    ensures forall i :: 0 <= i < |actions| ==> FreshControl(states[i], actions[i])
  {
    forall i | 0 <= i < |actions|
      ensures FreshControl(states[i], actions[i])
    {
      if actions[i].NewControl? && actions[i].id in states[i].table {
        TableFromNews(states, actions, i, actions[i].id);
      }
    }
  }
}
