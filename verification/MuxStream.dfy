/**
 TCP sub-streams over one Mux.cool connection: the read loop takes frames off the wire and writes
 their data into the bounded pipe of the sub-stream, waiting while the pipe is full. At any time in
 between consumers read from the pipes, pipes are closed, and sessions lose their place in the table.
 */
module MuxStream {
  import opened Words
  import opened MuxFrame

  const LIMIT: nat := 65536
  const MAX_SESSIONS: nat := 512

  /** The domain of the control sub-stream, `reverse`. */
  const INTERNAL_DOMAIN: seq<byte> := [114, 101, 118, 101, 114, 115, 101]

  /** A TCP sub-stream: its id and the frame that opened it, its pipe, the bytes its consumer has
      read, and, when it is no longer in the table, how many frames had been taken by then. */
  datatype Sub = Sub(id: u16, from: nat, buf: seq<byte>, closed: bool, got: seq<byte>, end: nat)

  /** A table entry: a TCP sub-stream, or a control or UDP one. */
  datatype Entry = Tcp(k: nat) | Other

  datatype Writing = Idle | Write(k: nat, left: seq<byte>)

  /** The sending side's frames and how many of them have been taken; the unread bytes; all TCP
      sub-streams ever; the session table; and the write in progress, if the read loop is inside
      `bufPipe.Write`. */
  datatype State = State(
    frames: seq<Frame>, next: nat, wire: seq<byte>,
    subs: seq<Sub>, table: map<u16, Entry>, writing: Writing)

  datatype Action =
    | Take                        // read loop: next frame
    | Append                      // bufPipe.Write: copy what fits, or give up when closed
    | Read(k: nat, n: nat)        // a consumer reads up to n bytes
    | Close(k: nat)               // the pipe is closed
    | Remove(id: u16)             // finish, on any path: removeSession(id)

  /** Whether frame `i` carries data for the sub-stream that frame `from` opened on `id`: the
      opening New frame itself, and every Keep frame on the id. */
  predicate Carries(frames: seq<Frame>, id: u16, from: nat, i: nat)
    requires i < |frames|
  {
    frames[i].meta.id == id
    && (frames[i].meta.status == STATUS_KEEP || (frames[i].meta.status == STATUS_NEW && i == from))
  }

  /** Bytes the frames `from .. to-1` carry for the sub-stream opened by frame `from`. */
  ghost function DataFor(frames: seq<Frame>, id: u16, from: nat, to: nat): seq<byte>
    requires from <= to <= |frames|
  {
    if from == to then []
    else DataFor(frames, id, from, to - 1) + if Carries(frames, id, from, to - 1) then frames[to - 1].data else []
  }

  ghost predicate Enabled(s: State, a: Action) {
    match a
    case Take => s.writing == Idle && s.next < |s.frames| && ReadFrame(s.wire).Ok?
    case Append =>
      s.writing.Write? && s.writing.k < |s.subs|
      && (s.subs[s.writing.k].closed || |s.subs[s.writing.k].buf| < LIMIT)
    case Read(k, _) => k < |s.subs| && |s.subs[k].buf| > 0
    case Close(k) => k < |s.subs|
    case Remove(_) => true
  }

  ghost predicate Listed(s: State, k: nat)
    requires k < |s.subs|
  {
    s.subs[k].id in s.table && s.table[s.subs[k].id] == Tcp(k)
  }

  /** The id leaves the table; the TCP sub-stream it led to gets no more frames. */
  ghost function Unlist(s: State, id: u16): State {
    if id !in s.table then s
    else
      var e := s.table[id];
      var subs := if e.Tcp? && e.k < |s.subs| then s.subs[e.k := s.subs[e.k].(end := s.next)] else s.subs;
      s.(subs := subs, table := s.table - {id})
  }

  /** `handleNew`: a control sub-stream takes its id in any case; any other is refused when the id is
      in use or the table full. */
  ghost function HandleNew(s: State, f: Frame, at: nat): State {
    var id := f.meta.id;
    if f.meta.address == Domain(INTERNAL_DOMAIN) then
      var s1 := Unlist(s, id);
      s1.(table := s1.table[id := Other])
    else if id in s.table || |s.table| >= MAX_SESSIONS then s
    else if f.meta.network == NETWORK_UDP then s.(table := s.table[id := Other])
    else
      s.(subs := s.subs + [Sub(id, at, [], false, [], 0)], table := s.table[id := Tcp(|s.subs|)],
         writing := if f.data == [] then Idle else Write(|s.subs|, f.data))
  }

  ghost function HandleKeep(s: State, id: u16, data: seq<byte>): State {
    if id in s.table && s.table[id].Tcp? && data != [] then s.(writing := Write(s.table[id].k, data)) else s
  }

  /** The read loop with a frame: `handleNew`, `handleKeep`, `handleEnd`. */
  ghost function Handle(s: State, f: Frame, rest: seq<byte>): State
    requires s.next < |s.frames|
  {
    var s1 := s.(next := s.next + 1, wire := rest);
    var id := f.meta.id;
    if f.meta.status == STATUS_NEW then HandleNew(s1, f, s.next)
    else if f.meta.status == STATUS_KEEP then HandleKeep(s1, id, f.data)
    else if f.meta.status == STATUS_END then Unlist(s1, id)
    else s1
  }

  ghost function Step(s: State, a: Action): State
    requires Enabled(s, a)
  {
    match a
    case Take =>
      var r := ReadFrame(s.wire).value;
      Handle(s, r.0, r.1)
    case Append =>
      var k, left, sub := s.writing.k, s.writing.left, s.subs[s.writing.k];
      if sub.closed then s.(writing := Idle)
      else
        var n := if |left| > LIMIT - |sub.buf| then LIMIT - |sub.buf| else |left|;
        s.(subs := s.subs[k := sub.(buf := sub.buf + left[..n])],
           writing := if n == |left| then Idle else Write(k, left[n..]))
    case Read(k, n) =>
      var sub := s.subs[k];
      var m := if n < |sub.buf| then n else |sub.buf|;
      s.(subs := s.subs[k := sub.(got := sub.got + sub.buf[..m], buf := sub.buf[m..])])
    case Close(k) => s.(subs := s.subs[k := s.subs[k].(closed := true)])
    case Remove(id) => Unlist(s, id)
  }

  // ---- Invariant ----

  ghost predicate AllDeliverable(frames: seq<Frame>) {
    forall i :: 0 <= i < |frames| ==> Deliverable(frames[i])
  }

  /** The part of a write that has not reached this sub-stream's pipe. */
  ghost function Pending(w: Writing, k: nat): seq<byte> {
    if w.Write? && w.k == k then w.left else []
  }

  /** What a sub-stream has received, buffered and still to append is what the frames up to `upTo`
      carried for it; once its pipe is closed, a prefix of it. */
  ghost predicate SubOk(frames: seq<Frame>, sub: Sub, pending: seq<byte>, upTo: nat)
    requires upTo <= |frames|
  {
    && sub.from < upTo
    && |sub.buf| <= LIMIT
    && sub.got + sub.buf <= DataFor(frames, sub.id, sub.from, upTo)
    && (!sub.closed ==> sub.got + sub.buf + pending == DataFor(frames, sub.id, sub.from, upTo))
  }

  ghost function UpTo(s: State, k: nat): nat
    requires k < |s.subs|
  {
    if Listed(s, k) then s.next else s.subs[k].end
  }

  ghost predicate Kept(s: State, k: nat)
    requires k < |s.subs| && s.next <= |s.frames|
  {
    UpTo(s, k) <= s.next && SubOk(s.frames, s.subs[k], Pending(s.writing, k), UpTo(s, k))
  }

  ghost predicate TableOk(s: State) {
    forall id :: id in s.table && s.table[id].Tcp? ==>
      s.table[id].k < |s.subs| && s.subs[s.table[id].k].id == id
  }

  ghost predicate Inv(s: State) {
    && s.next <= |s.frames| && AllDeliverable(s.frames)
    && s.wire == Wire(s.frames[s.next..])
    && (s.writing.Write? ==> s.writing.k < |s.subs| && s.writing.left != [])
    && TableOk(s)
    && forall k: nat :: k < |s.subs| ==> Kept(s, k)
  }

  lemma InitInv(frames: seq<Frame>)
    requires AllDeliverable(frames)
    ensures Inv(State(frames, 0, Wire(frames), [], map[], Idle))
  {
    assert frames[0..] == frames;
  }

  // ---- Steps ----

  lemma TakeReads(s: State)
    requires Inv(s) && Enabled(s, Take)
    ensures var f := s.frames[s.next];
            ReadFrame(s.wire) == Ok((Received(f.meta, f.data), Wire(s.frames[s.next + 1..])))
    ensures var r := ReadFrame(s.wire).value.0; var f := s.frames[s.next];
            r.data == f.data && r.meta.id == f.meta.id && r.meta.status == f.meta.status
  {
    hide Wire;
    hide ReadFrame;
    hide Kept;
    hide TableOk;
    ReadNext(s.frames[s.next..]);
    assert s.frames[s.next..][1..] == s.frames[s.next + 1..];
  }

  /** One more frame: the sub-stream gets its data to append, or nothing. */
  lemma NextFrame(frames: seq<Frame>, sub: Sub, upTo: nat)
    requires upTo < |frames| && SubOk(frames, sub, [], upTo)
    ensures sub.from < upTo
    ensures SubOk(frames, sub, if Carries(frames, sub.id, sub.from, upTo) then frames[upTo].data else [], upTo + 1)
  {
    assert sub.got + sub.buf + [] == sub.got + sub.buf;
  }

  lemma FirstFrame(frames: seq<Frame>, sub: Sub, n: nat)
    requires n < |frames| && sub == Sub(frames[n].meta.id, n, [], false, [], sub.end)
    requires frames[n].meta.status == STATUS_NEW
    ensures SubOk(frames, sub, frames[n].data, n + 1)
  {
    assert DataFor(frames, sub.id, n, n) == [];
    assert DataFor(frames, sub.id, n, n + 1) == [] + frames[n].data == frames[n].data;
    assert [] + [] + frames[n].data == frames[n].data;
  }

  lemma UnlistKeepsInv(s: State, id: u16)
    requires Inv(s)
    ensures Inv(Unlist(s, id))
  {
    hide SubOk;
    hide Wire;
    hide AllDeliverable;
    var s' := Unlist(s, id);
    forall k: nat | k < |s'.subs|
      ensures Kept(s', k)
    {
      assert Kept(s, k);
      SameSub(s, s', k);
    }
  }

  /** `end` does not enter into what a sub-stream has received. */
  lemma SameSub(s: State, s': State, k: nat)
    requires k < |s.subs| && k < |s'.subs| && s'.frames == s.frames && s.next <= |s.frames|
    requires s'.subs[k] == s.subs[k].(end := s'.subs[k].end)
    ensures forall upTo: nat, p :: upTo <= |s.frames| ==>
              (SubOk(s'.frames, s'.subs[k], p, upTo) <==> SubOk(s.frames, s.subs[k], p, upTo))
  {
    hide DataFor;
  }

  /** The frame at hand, as taken off the wire. */
  ghost predicate AtHand(s: State, f: Frame) {
    s.next < |s.frames| &&
    var g := s.frames[s.next];
    f.data == g.data && f.meta.id == g.meta.id && f.meta.status == g.meta.status
  }

  lemma UnlistOld(s: State, id: u16, k: nat)
    requires TableOk(s) && k < |s.subs|
    ensures var s' := Unlist(s, id);
            && |s'.subs| == |s.subs| && s'.subs[k] == s.subs[k].(end := s'.subs[k].end)
            && UpTo(s', k) == UpTo(s, k) && s'.writing == s.writing && TableOk(s')
  {
  }

  lemma UnlistTable(s: State, id: u16)
    requires TableOk(s)
    ensures Unlist(s, id) == s.(subs := Unlist(s, id).subs, table := s.table - {id})
    ensures |Unlist(s, id).subs| == |s.subs| && TableOk(Unlist(s, id))
  {
  }

  lemma HandleNewOld(s: State, f: Frame, at: nat, k: nat)
    requires TableOk(s) && s.writing == Idle && k < |s.subs|
    ensures var s' := HandleNew(s, f, at);
            && k < |s'.subs| && s'.subs[k] == s.subs[k].(end := s'.subs[k].end)
            && UpTo(s', k) == UpTo(s, k) && Pending(s'.writing, k) == []
  {
    UnlistOld(s, f.meta.id, k);
    hide Unlist;
  }

  lemma HandleKeepOld(s: State, id: u16, data: seq<byte>, k: nat)
    requires TableOk(s) && s.writing == Idle && k < |s.subs|
    ensures var s' := HandleKeep(s, id, data);
            && s'.subs == s.subs && UpTo(s', k) == UpTo(s, k) && TableOk(s')
            && Pending(s'.writing, k) == if Listed(s, k) && s.subs[k].id == id then data else []
  {
  }

  /** A sub-stream from before the frame: what it is still to get, and up to where it has got it. */
  lemma HandleOld(s: State, f: Frame, rest: seq<byte>, k: nat)
    requires TableOk(s) && s.writing == Idle && AtHand(s, f) && k < |s.subs| && s.subs[k].from < s.next
    ensures var s' := Handle(s, f, rest);
            && k < |s'.subs| && s'.subs[k] == s.subs[k].(end := s'.subs[k].end)
            && UpTo(s', k) == (if Listed(s, k) then s.next + 1 else s.subs[k].end)
            && Pending(s'.writing, k) == (if Listed(s, k) && Carries(s.frames, s.subs[k].id, s.subs[k].from, s.next)
                                          then f.data else [])
  {
    hide Unlist;
    hide HandleNew;
    hide HandleKeep;
    var s1 := s.(next := s.next + 1, wire := rest);
    hide TableOk;
    hide UpTo;
    if f.meta.status == STATUS_NEW {
      HandleNewOld(s1, f, s.next, k);
    } else if f.meta.status == STATUS_KEEP {
      HandleKeepOld(s1, f.meta.id, f.data, k);
    } else if f.meta.status == STATUS_END {
      UnlistOld(s1, f.meta.id, k);
    }
  }

  lemma HandleKept(s: State, f: Frame, rest: seq<byte>, k: nat)
    requires TableOk(s) && s.writing == Idle && AtHand(s, f) && k < |s.subs| && Kept(s, k)
    ensures k < |Handle(s, f, rest).subs| && Handle(s, f, rest).next <= |s.frames| == |Handle(s, f, rest).frames|
    ensures Kept(Handle(s, f, rest), k)
  {
    hide SubOk;
    hide Handle;
    var s' := Handle(s, f, rest);
    SubFrom(s, k);
    HandleOld(s, f, rest, k);
    HandleNewSub(s, f, rest);
    SameSub(s, s', k);
    if Listed(s, k) {
      NextFrame(s.frames, s.subs[k], s.next);
    }
  }

  lemma SubFrom(s: State, k: nat)
    requires k < |s.subs| && s.next <= |s.frames| && Kept(s, k)
    ensures s.subs[k].from < s.next
  {
  }

  lemma HandleNewSub(s: State, f: Frame, rest: seq<byte>)
    requires TableOk(s) && s.writing == Idle && AtHand(s, f)
    ensures var s' := Handle(s, f, rest);
            && |s.subs| <= |s'.subs| <= |s.subs| + 1
            && s'.next == s.next + 1 && s'.frames == s.frames && s'.wire == rest
            && TableOk(s')
            && (s'.writing.Write? ==> s'.writing.k < |s'.subs| && s'.writing.left != [])
            && (|s'.subs| > |s.subs| ==> Kept(s', |s.subs|))
  {
    hide Unlist;
    hide HandleNew;
    var s1 := s.(next := s.next + 1, wire := rest);
    UnlistTable(s1, f.meta.id);
    hide TableOk;
    assert TableOk(s1) by {
    }
    if f.meta.status == STATUS_NEW {
      NewTable(s1, f, s.next);
    } else if f.meta.status == STATUS_KEEP {
      hide HandleKeep;
    }
  }

  lemma OtherTable(s: State, id: u16)
    requires TableOk(s)
    ensures TableOk(s.(table := s.table[id := Other]))
  {
  }

  lemma TcpTable(s: State, id: u16, at: nat, w: Writing)
    requires TableOk(s)
    ensures TableOk(s.(subs := s.subs + [Sub(id, at, [], false, [], 0)],
                       table := s.table[id := Tcp(|s.subs|)], writing := w))
  {
  }

  lemma NewTable(s: State, f: Frame, at: nat)
    requires TableOk(s) && s.writing == Idle && at < |s.frames| && s.next == at + 1
    requires var g := s.frames[at]; f.data == g.data && f.meta.id == g.meta.id && g.meta.status == STATUS_NEW
    ensures var s' := HandleNew(s, f, at);
            && |s.subs| <= |s'.subs| <= |s.subs| + 1 && s'.next == s.next && s'.frames == s.frames && s'.wire == s.wire
            && TableOk(s')
            && (s'.writing.Write? ==> s'.writing.k < |s'.subs| && s'.writing.left != [])
            && (|s'.subs| > |s.subs| ==> Kept(s', |s.subs|))
  {
    hide Unlist;
    hide SubOk;
    hide TableOk;
    UnlistTable(s, f.meta.id);
    OtherTable(Unlist(s, f.meta.id), f.meta.id);
    OtherTable(s, f.meta.id);
    TcpTable(s, f.meta.id, at, if f.data == [] then Idle else Write(|s.subs|, f.data));
    FirstFrame(s.frames, Sub(f.meta.id, at, [], false, [], 0), at);
  }

  lemma TakeKeepsInv(s: State)
    requires Inv(s) && Enabled(s, Take)
    ensures Inv(Step(s, Take))
  {
    hide ReadFrame;
    hide Received;
    hide Wire;
    hide Kept;
    hide TableOk;
    hide Handle;
    TakeReads(s);
    var r := ReadFrame(s.wire).value;
    var s' := Handle(s, r.0, r.1);
    HandleNewSub(s, r.0, r.1);
    forall k: nat | k < |s'.subs|
      ensures Kept(s', k)
    {
      if k < |s.subs| {
        HandleKept(s, r.0, r.1, k);
      }
    }
  }

  /** A step that changes one pipe only. */
  lemma PipeKeepsInv(s: State, s': State, k: nat, sub: Sub)
    requires Inv(s) && k < |s.subs| && s' == s.(subs := s.subs[k := sub], writing := s'.writing)
    requires sub.id == s.subs[k].id && sub.end == s.subs[k].end
    requires forall j: nat :: j != k ==> Pending(s'.writing, j) == Pending(s.writing, j)
    requires s'.writing.Write? ==> s'.writing == s.writing || (s'.writing.k == k && s'.writing.left != [])
    requires forall upTo: nat :: upTo <= |s.frames| && SubOk(s.frames, s.subs[k], Pending(s.writing, k), upTo) ==>
               SubOk(s.frames, sub, Pending(s'.writing, k), upTo)
    ensures Inv(s')
  {
    hide SubOk;
    hide Wire;
    hide AllDeliverable;
    forall j: nat | j < |s'.subs|
      ensures Kept(s', j)
    {
      assert Kept(s, j);
    }
  }

  lemma PipeBounded(s: State, k: nat)
    requires Inv(s) && k < |s.subs|
    ensures |s.subs[k].buf| <= LIMIT
  {
    assert Kept(s, k);
  }

  lemma AppendKeepsInv(s: State)
    requires Inv(s) && Enabled(s, Append)
    ensures Inv(Step(s, Append))
  {
    PipeBounded(s, s.writing.k);
    hide DataFor;
    hide Inv;
    var s', k, left, sub := Step(s, Append), s.writing.k, s.writing.left, s.subs[s.writing.k];
    var n := if |left| > LIMIT - |sub.buf| then LIMIT - |sub.buf| else |left|;
    assert sub.got + (sub.buf + left[..n]) + left[n..] == sub.got + sub.buf + left;
    assert left[..|left|] == left;
    assert s.subs[k := sub] == s.subs;
    PipeKeepsInv(s, s', k, s'.subs[k]);
  }

  lemma ReadKeepsInv(s: State, k: nat, n: nat)
    requires Inv(s) && Enabled(s, Read(k, n))
    ensures Inv(Step(s, Read(k, n)))
  {
    hide DataFor;
    hide Inv;
    var s', sub := Step(s, Read(k, n)), s.subs[k];
    var m := if n < |sub.buf| then n else |sub.buf|;
    assert sub.got + sub.buf[..m] + sub.buf[m..] == sub.got + sub.buf;
    PipeKeepsInv(s, s', k, s'.subs[k]);
  }

  lemma CloseKeepsInv(s: State, k: nat)
    requires Inv(s) && Enabled(s, Close(k))
    ensures Inv(Step(s, Close(k)))
  {
    hide DataFor;
    hide Inv;
    PipeKeepsInv(s, Step(s, Close(k)), k, Step(s, Close(k)).subs[k]);
  }

  lemma StepKeepsInv(s: State, a: Action)
    requires Inv(s) && Enabled(s, a)
    ensures Inv(Step(s, a))
  {
    hide Inv;
    hide Enabled;
    hide Unlist;
    match a
    case Take => TakeKeepsInv(s);
    case Append => AppendKeepsInv(s);
    case Read(k, n) => ReadKeepsInv(s, k, n);
    case Close(k) => CloseKeepsInv(s, k);
    case Remove(id) => UnlistKeepsInv(s, id);
  }

  // ---- Whole runs ----

  ghost predicate IsRun(frames: seq<Frame>, states: seq<State>, actions: seq<Action>)
    requires AllDeliverable(frames)
  {
    && |states| == |actions| + 1
    && states[0] == State(frames, 0, Wire(frames), [], map[], Idle)
    && forall i :: 0 <= i < |actions| ==>
         && Enabled(states[i], actions[i])
         && states[i + 1] == Step(states[i], actions[i])
  }

  lemma {:induction false} RunKeepsInv(frames: seq<Frame>, states: seq<State>, actions: seq<Action>, n: nat)
    requires AllDeliverable(frames) && IsRun(frames, states, actions) && n < |states|
    ensures Inv(states[n]) && states[n].frames == frames
  {
    hide Inv;
    if n == 0 {
      InitInv(frames);
    } else {
      RunKeepsInv(frames, states, actions, n - 1);
      StepKeepsInv(states[n - 1], actions[n - 1]);
      SameFrames(states[n - 1], actions[n - 1]);
    }
  }

  lemma SameFrames(s: State, a: Action)
    requires Enabled(s, a)
    ensures Step(s, a).frames == s.frames
  {
    hide ReadFrame;
  }

  /** However the sub-streams' frames are interleaved, read, closed and removed, the bytes a TCP
      sub-stream has handed out are a prefix of those sent on its id since it was opened, and its
      buffer holds at most 64 KiB. While it is in the table and its pipe open nothing is missing. */
  lemma SubStreamFaithful(frames: seq<Frame>, states: seq<State>, actions: seq<Action>, n: nat, k: nat)
    requires AllDeliverable(frames) && IsRun(frames, states, actions) && n < |states| && k < |states[n].subs|
    ensures var s, sub := states[n], states[n].subs[k];
            && sub.from < UpTo(s, k) <= s.next <= |frames|
            && sub.got <= DataFor(frames, sub.id, sub.from, UpTo(s, k))
            && |sub.buf| <= LIMIT
            && (Listed(s, k) && !sub.closed ==>
                  sub.got + sub.buf + Pending(s.writing, k) == DataFor(frames, sub.id, sub.from, s.next))
  {
    hide IsRun;
    RunKeepsInv(frames, states, actions, n);
    assert Kept(states[n], k);
  }
}
