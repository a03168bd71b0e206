/**
 What becomes of the New frames a Mux.cool server reads, and of the sessions it registers for them: in
 every run of the session table, which of them are accepted, installed, kept waiting and ended.
 */
module MuxSessions {
  import opened Basics
  import opened MuxServer

  // ---- What becomes of a New frame ----

  /** Steps of the read loop. */
  predicate OfLoop(a: Action) {
    a.NewControl? || a.CheckId? || a.CheckRoom? || a.AddSession? || a.Stop?
  }

  /** The loop can take the next frame, whatever it is, or end. */
  ghost predicate ReadsNext(s: State) {
    && (forall id: nat, udp: bool :: Enabled(s, CheckId(id, udp)))
    && (forall id: nat :: Enabled(s, NewControl(id)))
    && Enabled(s, Stop)
  }

  /** Nobody else moves the read loop. */
  lemma {:induction false} LoopWaits(states: seq<State>, actions: seq<Action>, i: nat, j: nat)
    requires IsRun(states, actions) && i <= j < |states|
    requires forall k :: i <= k < j ==> !OfLoop(actions[k])
    ensures states[j].loop == states[i].loop
    decreases j
  {
    if i < j {
      LoopWaits(states, actions, i, j - 1);
    }
  }

  /** In every run: after the frame of a New on `id` the loop goes on to the room check exactly when the
      id was not in the table, whatever the other goroutines do meanwhile. */
  lemma FreeIdGoesOn(states: seq<State>, actions: seq<Action>, i: nat, j: nat, id: nat, udp: bool)
    requires IsRun(states, actions) && i < j < |states| && actions[i] == CheckId(id, udp)
    requires forall k :: i < k < j ==> !OfLoop(actions[k])
    ensures Enabled(states[j], CheckRoom) <==> id !in states[i].table
    ensures id in states[i].table ==> ReadsNext(states[j])
    ensures states[i + 1].table == states[i].table && states[i + 1].sessions == states[i].sessions
  {
    LoopWaits(states, actions, i + 1, j);
  }

  /** A New on `id` gets as far as being registered if and only if the id was not in the table when it
      was checked and the table had fewer than 512 entries when the room was checked. */
  lemma NewAcceptedIffRoom(
    states: seq<State>, actions: seq<Action>, i: nat, j: nat, n: nat, id: nat, udp: bool)
    requires IsRun(states, actions) && i < j < n < |states| && actions[i] == CheckId(id, udp)
    requires forall k :: i < k < n && k != j ==> !OfLoop(actions[k])
    requires OfLoop(actions[j]) && !actions[j].CheckId? && !actions[j].NewControl?
    ensures actions[j] == CheckRoom || (id in states[i].table && actions[j] == Stop)
    ensures Enabled(states[n], AddSession) <==> id !in states[i].table && |states[j].table| < 512
    ensures actions[j] == CheckRoom && |states[j].table| >= 512 ==> ReadsNext(states[n])
  {
    LoopWaits(states, actions, i + 1, j);
    LoopWaits(states, actions, j + 1, n);
  }

  /** Registering makes a new session of that id and network, open and dialling, and nothing else. */
  lemma Registers(states: seq<State>, actions: seq<Action>, i: nat, j: nat, n: nat, id: nat, udp: bool)
    requires IsRun(states, actions) && i < j < n < |actions|
    requires actions[i] == CheckId(id, udp) && actions[j] == CheckRoom && actions[n] == AddSession
    requires forall k :: i < k < n && k != j ==> !OfLoop(actions[k])
    ensures var s, s' := states[n], states[n + 1];
            && id in s'.table && s'.table[id] == |s.sessions| && |s'.sessions| == |s.sessions| + 1
            && (forall h :: 0 <= h < |s.sessions| ==> s'.sessions[h] == s.sessions[h])
            && (forall k :: k != id ==> (k in s'.table <==> k in s.table))
            && (forall k :: k != id && k in s.table ==> s'.table[k] == s.table[k])
            && var x := s'.sessions[|s.sessions|];
               && x.id == id && x.udp == udp && !x.control && !x.Finished() && x.landing == Dialing
               && x.udpPending == 0 && x.closes == 0 && ReadsNext(s')
               && Enabled(s', DialOk(|s.sessions|)) && Enabled(s', DialFail(|s.sessions|))
               && (Enabled(s', DeliverUDP(|s.sessions|)) <==> udp)
  {
    LoopWaits(states, actions, i + 1, j);
    LoopWaits(states, actions, j + 1, n);
  }

  /** A control frame is registered whatever the table holds. */
  lemma ControlRegisters(states: seq<State>, actions: seq<Action>, i: nat, id: nat)
    requires IsRun(states, actions) && i < |actions| && actions[i] == NewControl(id)
    ensures var s, s' := states[i], states[i + 1];
            && id in s'.table && s'.table[id] == |s.sessions| && |s'.sessions| == |s.sessions| + 1
            && s'.sessions[|s.sessions|].control && s'.sessions[|s.sessions|].id == id
            && !s'.sessions[|s.sessions|].Finished() && ReadsNext(s')
  {
  }

  // ---- What becomes of a session ----

  lemma SessionStep(s: State, a: Action, h: nat)
    requires Enabled(s, a) && h < |s.sessions|
    ensures |Step(s, a).sessions| >= |s.sessions|
    ensures var x, x' := s.sessions[h], Step(s, a).sessions[h];
            && x'.id == x.id && x'.control == x.control && x'.udp == x.udp
            && (x'.Finished() <==> x.Finished() || a == Mark(h))
            && (x'.landing == Installed <==> x.landing == Installed || (a == Install(h) && !x.Finished()))
            && (x'.landing == Failed <==> x.landing == Failed || a == DialFail(h))
  {
  }

  lemma FreshSession(s: State, a: Action, h: nat)
    requires Enabled(s, a) && |s.sessions| <= h < |Step(s, a).sessions|
    ensures var x := Step(s, a).sessions[h];
            !x.Finished() && x.landing != Installed && x.landing != Failed && x.udpPending == 0
    ensures a != Mark(h) && a != DialFail(h) && a != DeliverUDP(h)
  {
  }

  /** A session is finished exactly once its finish has begun, and its dial has failed exactly if it
      said so. */
  lemma {:induction false} FinishedIffMarked(states: seq<State>, actions: seq<Action>, n: nat, h: nat)
    requires IsRun(states, actions) && n < |states|
    ensures h >= |states[n].sessions| ==> !Happened(actions, n, Mark(h)) && !Happened(actions, n, DialFail(h))
    ensures h < |states[n].sessions| ==>
              && (states[n].sessions[h].Finished() <==> Happened(actions, n, Mark(h)))
              && (states[n].sessions[h].landing == Failed <==> Happened(actions, n, DialFail(h)))
  {
    if n > 0 {
      var s, a := states[n - 1], actions[n - 1];
      FinishedIffMarked(states, actions, n - 1, h);
      HappenedNext(actions, n - 1, Mark(h));
      HappenedNext(actions, n - 1, DialFail(h));
      if h < |s.sessions| {
        SessionStep(s, a, h);
      } else if h < |states[n].sessions| {
        FreshSession(s, a, h);
      }
      hide Step;
      hide Happened;
    }
  }

  /** A dialled connection is installed if and only if the session's finish has not begun; otherwise the
      landing goroutine is left to close it. */
  lemma InstalledIffNotFinished(states: seq<State>, actions: seq<Action>, n: nat, h: nat)
    requires IsRun(states, actions) && n < |actions| && actions[n] == Install(h)
    ensures var x := states[n + 1].sessions[h];
            if Happened(actions, n, Mark(h)) then x.landing == Refused else x.landing == Installed && x.udpPending == 0
  {
    hide Happened;
    FinishedIffMarked(states, actions, n, h);
  }

  /** Datagrams delivered to a session so far. */
  ghost function Delivered(actions: seq<Action>, n: nat, h: nat): nat
    requires n <= |actions|
  {
    if n == 0 then 0 else Delivered(actions, n - 1, h) + if actions[n - 1] == DeliverUDP(h) then 1 else 0
  }

  lemma PendingStep(s: State, a: Action, h: nat)
    requires Enabled(s, a) && h < |s.sessions|
    ensures var x, x' := s.sessions[h], Step(s, a).sessions[h];
            !x'.Finished() && !x'.HasConn() ==>
              x'.udpPending == if a == DeliverUDP(h) && x.udpPending < 64 then x.udpPending + 1 else x.udpPending
  {
  }

  /** Until its connection is installed a UDP session keeps the first 64 datagrams delivered to it. */
  lemma {:induction false} KeepsFirst64(states: seq<State>, actions: seq<Action>, n: nat, h: nat)
    requires IsRun(states, actions) && n < |states|
    ensures h >= |states[n].sessions| ==> Delivered(actions, n, h) == 0
    ensures h < |states[n].sessions| && !states[n].sessions[h].Finished() && !states[n].sessions[h].HasConn() ==>
              var d := Delivered(actions, n, h); states[n].sessions[h].udpPending == if d <= 64 then d else 64
  {
    if n > 0 {
      var s, a := states[n - 1], actions[n - 1];
      KeepsFirst64(states, actions, n - 1, h);
      if h < |s.sessions| {
        SessionStep(s, a, h);
        PendingStep(s, a, h);
      } else if h < |states[n].sessions| {
        FreshSession(s, a, h);
      }
      hide Step;
    }
  }

  // ---- Nothing gets stuck ----

  /** How much of a session is still to come. */
  function Ahead(x: Session): nat {
    (match x.finish case Open => 3 case Marked(_) => 2 case Removed(_) => 1 case Ended => 0)
    + (match x.landing case Dialing => 3 case Dialed => 2 case Refused => 1 case _ => 0)
    + if x.returned then 0 else 1
  }

  /** At every moment a session with a landing goroutine that is not over can take a step towards it. */
  lemma NeverStuck(s: State, h: nat) returns (a: Action)
    requires h < |s.sessions| && s.sessions[h].landing != Landing.None && !s.sessions[h].returned
    ensures Enabled(s, a) && Ahead(Step(s, a).sessions[h]) < Ahead(s.sessions[h])
  {
    var x := s.sessions[h];
    match x.landing
    case Dialing => a := DialOk(h);
    case Dialed => a := Install(h);
    case Refused => a := CloseRefused(h);
    case Dropped => a := Return(h);
    case _ =>
      match x.finish
      case Open => a := Mark(h);
      case Marked(_) => a := Remove(h);
      case Removed(_) => a := CloseConn(h);
      case Ended => a := Return(h);
  }

  /** No step of anyone takes a session back. */
  lemma NeverBack(s: State, a: Action, h: nat)
    requires Enabled(s, a) && h < |s.sessions|
    ensures h < |Step(s, a).sessions| && Ahead(Step(s, a).sessions[h]) <= Ahead(s.sessions[h])
  {
    match a
    case Install(k) =>
    case CloseConn(k) =>
    case _ =>
  }

  /** A call of `closeAll` can always go on with any session it has left: it ticks the session off or the
      session comes nearer to its end. */
  lemma CloserNeverStuck(s: State, c: nat, h: nat) returns (a: Action)
    requires c in s.closers && h in s.closers[c].todo && h < |s.sessions|
    ensures Enabled(s, a)
    ensures var s' := Step(s, a);
            if s.sessions[h].finish == Ended then s'.closers == s.closers[c := s'.closers[c]]
              && s'.closers[c] == Closer(s.closers[c].deferred, s.closers[c].todo - {h})
            else s'.closers == s.closers && Ahead(s'.sessions[h]) < Ahead(s.sessions[h])
  {
    match s.sessions[h].finish
    case Open => a := Mark(h);
    case Marked(_) => a := Remove(h);
    case Removed(_) => a := CloseConn(h);
    case Ended => a := Waited(c, h);
  }

  lemma StoppedStep(s: State, a: Action)
    requires Enabled(s, a) && (s.loop == Stopped || a == Stop)
    ensures Step(s, a).loop == Stopped && |Step(s, a).sessions| == |s.sessions|
    ensures Step(s, a).table.Keys <= s.table.Keys
  {
  }

  /** A failed read ends the loop for good: no session is added afterwards, and `closeAll` may begin. */
  lemma {:induction false} StoppedForGood(states: seq<State>, actions: seq<Action>, i: nat, n: nat)
    requires IsRun(states, actions) && i < n < |states| && actions[i] == Stop
    ensures states[n].loop == Stopped && |states[n].sessions| == |states[i].sessions|
    ensures states[n].table.Keys <= states[i].table.Keys
    ensures forall c :: c !in states[n].closers ==> Enabled(states[n], Snapshot(c, true))
    decreases n
  {
    hide Step;
    if n > i + 1 {
      StoppedForGood(states, actions, i, n - 1);
    }
    StoppedStep(states[n - 1], actions[n - 1]);
  }
}
