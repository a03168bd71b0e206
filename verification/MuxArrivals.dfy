/**
 What each step of a Mux.cool read loop does, in every run: which New frames open a sub-stream, where the
 data of a frame goes, when the loop has to wait, and what ends a sub-stream.
 */
module MuxArrivals {
  import opened Words
  import opened MuxFrame
  import S = MuxStream

  /** The read loop can go on unless it is writing or everything sent has been read: whatever was sent,
      the wire can be read. */
  lemma TakeIffIdle(s: S.State)
    requires S.Inv(s)
    ensures S.Enabled(s, S.Take) <==> s.writing == S.Idle && s.next < |s.frames|
  {
    if s.next < |s.frames| {
      var todo := s.frames[s.next..];
      assert forall i :: 0 <= i < |todo| ==> todo[i] == s.frames[s.next + i] && Deliverable(todo[i]);
      ReadNext(todo);
      hide ReadFrame;
    }
  }

  /** The frame a step of the read loop takes is the next one that was sent. */
  lemma TakesNext(s: S.State)
    requires S.Inv(s) && S.Enabled(s, S.Take)
    ensures var f := s.frames[s.next];
            && ReadFrame(s.wire).value.0 == Received(f.meta, f.data)
            && S.Step(s, S.Take) == S.Handle(s, Received(f.meta, f.data), ReadFrame(s.wire).value.1)
  {
    var todo := s.frames[s.next..];
    assert forall i :: 0 <= i < |todo| ==> todo[i] == s.frames[s.next + i] && Deliverable(todo[i]);
    ReadNext(todo);
    hide ReadFrame;
    hide S.Handle;
  }

  /** The name of the control sub-stream, `reverse`. */
  const CONTROL: Address := Domain([114, 101, 118, 101, 114, 115, 101])

  /** A frame with status 1. The control name is registered whatever the table holds; any other frame is
      ignored when its id is in the table or the table has 512 entries; network 2 is registered without
      a pipe; what is left opens a sub-stream, empty and open, and its data is the first to go in. */
  lemma NewFrame(frames: seq<Frame>, states: seq<S.State>, actions: seq<S.Action>, i: nat)
    requires S.AllDeliverable(frames) && S.IsRun(frames, states, actions) && i < |actions| && actions[i] == S.Take
    requires states[i].next < |frames| && frames[states[i].next].meta.status == 1
    ensures var s, s', f := states[i], states[i + 1], frames[states[i].next];
            var id := f.meta.id;
            && s'.next == s.next + 1
            && if f.meta.address == CONTROL then id in s'.table && s'.table[id] == S.Other && |s'.subs| == |s.subs|
               else if id in s.table || |s.table| >= 512 then
                 s'.table == s.table && s'.subs == s.subs && s'.writing == S.Idle
               else if f.meta.network == 2 then
                 s'.table == s.table[id := S.Other] && s'.subs == s.subs && s'.writing == S.Idle
               else
                 && s'.subs == s.subs + [S.Sub(id, s.next, [], false, [], 0)]
                 && s'.table == s.table[id := S.Tcp(|s.subs|)]
                 && s'.writing == if f.data == [] then S.Idle else S.Write(|s.subs|, f.data)
  {
    hide S.Inv;
    hide ReadFrame;
    hide S.AllDeliverable;
    hide S.Step;
    hide Wire;
    S.RunKeepsInv(frames, states, actions, i);
    TakesNext(states[i]);
  }

  /** A frame with status 2 goes to the sub-stream registered under its id, if there is one; status 3
      takes the id out of the table; no other status does anything. */
  lemma OtherFrame(frames: seq<Frame>, states: seq<S.State>, actions: seq<S.Action>, i: nat)
    requires S.AllDeliverable(frames) && S.IsRun(frames, states, actions) && i < |actions| && actions[i] == S.Take
    requires states[i].next < |frames| && frames[states[i].next].meta.status != 1
    ensures var s, s', f := states[i], states[i + 1], frames[states[i].next];
            var id := f.meta.id;
            && s'.next == s.next + 1 && |s'.subs| == |s.subs|
            && (f.meta.status == 2 ==>
                  && s'.table == s.table && s'.subs == s.subs
                  && s'.writing == if id in s.table && s.table[id].Tcp? && f.data != [] then
                                     S.Write(s.table[id].k, f.data) else S.Idle)
            && (f.meta.status == 3 ==> s'.table == s.table - {id} && s'.writing == S.Idle)
            && (f.meta.status > 3 || f.meta.status == 0 ==>
                  s'.table == s.table && s'.subs == s.subs && s'.writing == S.Idle)
  {
    hide S.Inv;
    hide ReadFrame;
    hide S.AllDeliverable;
    hide S.Step;
    hide Wire;
    S.RunKeepsInv(frames, states, actions, i);
    TakesNext(states[i]);
  }

  /** The loop waits exactly while the pipe it writes to is open and holds 65536 bytes; otherwise it puts
      in what fits, up to 65536, keeps the rest for later, and gives up what it has on a closed pipe. */
  lemma WaitsIffFull(s: S.State)
    requires S.Inv(s) && s.writing.Write?
    ensures S.Enabled(s, S.Append) <==> s.subs[s.writing.k].closed || |s.subs[s.writing.k].buf| < 65536
    ensures S.Enabled(s, S.Append) ==>
              var s', k, left, sub := S.Step(s, S.Append), s.writing.k, s.writing.left, s.subs[s.writing.k];
              if sub.closed then s'.subs == s.subs && s'.writing == S.Idle
              else
                && |s'.subs[k].buf| == (if |sub.buf| + |left| <= 65536 then |sub.buf| + |left| else 65536)
                && s'.subs[k].buf + (if s'.writing.Write? then s'.writing.left else []) == sub.buf + left
                && (s'.writing.Write? <==> |sub.buf| + |left| > 65536)
                && (s'.writing.Write? ==> s'.writing.k == k)
  {
    assert s.subs[s.writing.k := s.subs[s.writing.k]] == s.subs;
  }

  /** A consumer gets all it asks for that is there; a pipe once closed stays closed; finishing a session
      takes its id out of the table and leaves all others in. */
  lemma ConsumerSteps(s: S.State, k: nat, n: nat, id: u16)
    requires S.Inv(s) && k < |s.subs|
    ensures S.Enabled(s, S.Read(k, n)) <==> s.subs[k].buf != []
    ensures S.Enabled(s, S.Read(k, n)) ==>
              var sub, sub' := s.subs[k], S.Step(s, S.Read(k, n)).subs[k];
              && sub'.got + sub'.buf == sub.got + sub.buf && sub'.closed == sub.closed
              && |sub'.got| == |sub.got| + if n < |sub.buf| then n else |sub.buf|
    ensures S.Enabled(s, S.Close(k)) && S.Step(s, S.Close(k)).subs[k].closed
    ensures S.Enabled(s, S.Remove(id)) && S.Step(s, S.Remove(id)).table == s.table - {id}
  {
    hide S.Inv;
  }
}
