/**
 Byte accounting. Every connection keeps one private remainder per direction and drains it into its
 cell's counter when it reaches the threshold; closing flushes the rest. Each direction has a single
 writer, but the counters are shared and the flush may come from another goroutine while the writer is
 still at work, so a report, a drain and a flush are each cut into their loads and stores.
 */
module Meter {

  const THRESHOLD := 128 * 1024
  const WORD := 0x1_0000_0000_0000_0000
  const MAX_INT := 0x7FFF_FFFF_FFFF_FFFF

  /** Arithmetic of an unsigned 64-bit word. */
  function Wrap(x: nat): (w: nat)
    ensures w < WORD && (x < WORD ==> w == x)
  {
    x % WORD
  }

  lemma WrapAdd(a: nat, b: nat, n: nat)
    requires Wrap(a) == Wrap(b)
    ensures Wrap(a + n) == Wrap(b + n)
  {
  }

  lemma WrapTwice(a: nat, n: nat)
    ensures Wrap(Wrap(a) + n) == Wrap(a + n)
  {
    assert Wrap(Wrap(a)) == Wrap(a);
    WrapAdd(Wrap(a), a, n);
  }

  // ---- One connection ----

  class Cell {
    var up: nat
    var down: nat

    constructor ()
      ensures up == 0 && down == 0
    {
      up, down := 0, 0;
    }
  }

  class ConnMeter {
    const cell: Cell
    var localUp: nat
    var localDn: nat

    constructor (c: Cell)
      ensures cell == c && localUp == 0 && localDn == 0
    {
      cell, localUp, localDn := c, 0, 0;
    }

    /** Between calls a remainder is below the threshold. */
    ghost predicate Valid()
      reads this
    {
      localUp < THRESHOLD && localDn < THRESHOLD
    }

    /** Counter plus remainder grow by exactly the bytes reported, modulo the width of the counter. */
    method AddUp(n: int)
      requires Valid() && n <= MAX_INT
      modifies this`localUp, cell`up
      ensures Valid()
      ensures Wrap(cell.up + localUp) == Wrap(old(cell.up) + old(localUp) + if n > 0 then n else 0)
      ensures old(localUp) + n < 131072 ==> cell.up == old(cell.up)
      ensures n > 0 && old(localUp) + n >= 131072 ==> localUp == 0
    {
      if n <= 0 {
        return;
      }
      localUp := Wrap(localUp + n);
      if localUp >= THRESHOLD {
        cell.up := Wrap(cell.up + localUp);
        localUp := 0;
      }
    }

    method AddDown(n: int)
      requires Valid() && n <= MAX_INT
      modifies this`localDn, cell`down
      ensures Valid()
      ensures Wrap(cell.down + localDn) == Wrap(old(cell.down) + old(localDn) + if n > 0 then n else 0)
      ensures old(localDn) + n < 131072 ==> cell.down == old(cell.down)
      ensures n > 0 && old(localDn) + n >= 131072 ==> localDn == 0
    {
      if n <= 0 {
        return;
      }
      localDn := Wrap(localDn + n);
      if localDn >= THRESHOLD {
        cell.down := Wrap(cell.down + localDn);
        localDn := 0;
      }
    }

    method Flush()
      requires Valid()
      modifies this, cell
      ensures localUp == 0 && localDn == 0
      ensures Wrap(cell.up) == Wrap(old(cell.up) + old(localUp))
      ensures Wrap(cell.down) == Wrap(old(cell.down) + old(localDn))
    {
      if localUp > 0 {
        cell.up := Wrap(cell.up + localUp);
      }
      if localDn > 0 {
        cell.down := Wrap(cell.down + localDn);
      }
      localUp, localDn := 0, 0;
    }
  }

  // ---- Every interleaving ----

  datatype Bucket = Bucket(cell: nat, up: bool)

  /** Where the writer of a lane stands. `Loaded`: it has read the remainder `seen` and will store
      `seen + n`; `Full`: at the threshold, not yet added to the counter; `Counted`: added, not yet reset. */
  datatype Writer = Ready | Loaded(seen: nat, n: nat) | Full | Counted

  /** One direction of one connection. `flushing`: a flush has added the remainder, not yet reset it. */
  datatype Lane = Lane(bucket: Bucket, local: nat, writer: Writer, flushing: bool)

  /** `counter` are the shared words; `reported` the bytes every bucket was ever told about. */
  datatype State = State(counter: map<Bucket, nat>, reported: map<Bucket, nat>, lanes: seq<Lane>)

  datatype Action =
    | Open(bucket: Bucket)
    | Load(i: nat, n: int)
    | Store(i: nat)
    | Count(i: nat)
    | Reset(i: nat)
    | FlushCount(i: nat)
    | FlushReset(i: nat)

  function At(m: map<Bucket, nat>, b: Bucket): nat {
    if b in m then m[b] else 0
  }

  /** A lane has one writer and one flush at a time; nothing else is excluded. A report may come
      during a flush or after it, and a flush in the middle of a drain. */
  ghost predicate Enabled(s: State, a: Action) {
    if a.Open? then true
    else if a.i >= |s.lanes| then false
    else
      match a
      case Load(i, n) => s.lanes[i].writer == Ready && n <= MAX_INT
      case Store(i) => s.lanes[i].writer.Loaded?
      case Count(i) => s.lanes[i].writer == Full
      case Reset(i) => s.lanes[i].writer == Counted
      case FlushCount(i) => !s.lanes[i].flushing
      case FlushReset(i) => s.lanes[i].flushing
  }

  ghost function Step(s: State, a: Action): State
    requires Enabled(s, a)
  {
    if a.Open? then s.(lanes := s.lanes + [Lane(a.bucket, 0, Ready, false)])
    else
      var x := s.lanes[a.i];
      match a
      case Load(i, n) =>
        if n <= 0 then s
        else s.(lanes := s.lanes[i := x.(writer := Loaded(x.local, n))])
      case Store(i) =>
        var local := Wrap(x.writer.seen + x.writer.n);
        s.(reported := s.reported[x.bucket := At(s.reported, x.bucket) + x.writer.n],
           lanes := s.lanes[i := x.(local := local, writer := if local >= THRESHOLD then Full else Ready)])
      case Count(i) =>
        s.(counter := s.counter[x.bucket := Wrap(At(s.counter, x.bucket) + x.local)],
           lanes := s.lanes[i := x.(writer := Counted)])
      case Reset(i) => s.(lanes := s.lanes[i := x.(local := 0, writer := Ready)])
      case FlushCount(i) =>
        s.(counter := s.counter[x.bucket := Wrap(At(s.counter, x.bucket) + x.local)],
           lanes := s.lanes[i := x.(flushing := true)])
      case FlushReset(i) => s.(lanes := s.lanes[i := x.(local := 0, flushing := false)])
  }

  /** What a lane still owes to bucket `b`. */
  ghost function Owed(x: Lane, b: Bucket): nat {
    if x.bucket == b && x.writer != Counted && !x.flushing then x.local else 0
  }

  ghost function Outstanding(lanes: seq<Lane>, b: Bucket): nat {
    if lanes == [] then 0 else Owed(lanes[0], b) + Outstanding(lanes[1..], b)
  }

  lemma {:induction false} OutstandingUpdate(lanes: seq<Lane>, i: nat, x: Lane, b: Bucket)
    requires i < |lanes|
    ensures Outstanding(lanes[i := x], b) == Outstanding(lanes, b) - Owed(lanes[i], b) + Owed(x, b)
  {
    var lanes' := lanes[i := x];
    if i == 0 {
      assert lanes'[1..] == lanes[1..];
    } else {
      OutstandingUpdate(lanes[1..], i - 1, x, b);
      assert lanes'[1..] == lanes[1..][i - 1 := x];
    }
  }

  lemma {:induction false} OutstandingOpen(lanes: seq<Lane>, c: Bucket, b: Bucket)
    ensures Outstanding(lanes + [Lane(c, 0, Ready, false)], b) == Outstanding(lanes, b)
  {
    var all := lanes + [Lane(c, 0, Ready, false)];
    if lanes == [] {
      assert all[1..] == [];
    } else {
      assert all[1..] == lanes[1..] + [Lane(c, 0, Ready, false)];
      OutstandingOpen(lanes[1..], c, b);
    }
  }

  ghost predicate LaneOk(x: Lane) {
    match x.writer
    case Ready => x.local < THRESHOLD
    case Loaded(seen, n) => x.local <= seen < THRESHOLD && 0 < n <= MAX_INT
    case Full => x.local < WORD
    case Counted => x.local < WORD
  }

  ghost predicate LanesOk(s: State) {
    forall i :: 0 <= i < |s.lanes| ==> LaneOk(s.lanes[i])
  }

  lemma StepKeepsLanes(s: State, a: Action)
    requires LanesOk(s) && Enabled(s, a)
    ensures LanesOk(Step(s, a))
  {
    hide At;
  }

  // ---- What each step does to the balance of a bucket ----

  /** Bytes a step reports to bucket `b`. */
  ghost function Told(s: State, a: Action, b: Bucket): nat
    requires Enabled(s, a)
  {
    if a.Store? && s.lanes[a.i].bucket == b then s.lanes[a.i].writer.n else 0
  }

  /** Bytes it adds to the counter. */
  ghost function Moved(s: State, a: Action, b: Bucket): nat
    requires Enabled(s, a)
  {
    if (a.Count? || a.FlushCount?) && s.lanes[a.i].bucket == b then s.lanes[a.i].local else 0
  }

  /** Bytes stored into a remainder that a flush has read and is about to reset. */
  ghost function Missed(s: State, a: Action, b: Bucket): nat
    requires Enabled(s, a)
  {
    if a.Store? && s.lanes[a.i].bucket == b && s.lanes[a.i].flushing then s.lanes[a.i].writer.n else 0
  }

  /** Bytes counted before that are added again, or stored again to be added later. */
  ghost function Doubled(s: State, a: Action, b: Bucket): nat
    requires Enabled(s, a) && (!a.Open? ==> LaneOk(s.lanes[a.i]))
  {
    if a.Open? || s.lanes[a.i].bucket != b then 0
    else
      var x := s.lanes[a.i];
      match a
      case Store(_) => if x.flushing then 0 else x.writer.seen - x.local
      case Count(_) => if x.flushing then x.local else 0
      case FlushCount(_) => if x.writer == Counted then x.local else 0
      case _ => 0
  }

  lemma CounterAfter(s: State, a: Action, b: Bucket)
    requires Enabled(s, a) && At(s.counter, b) < WORD
    ensures At(Step(s, a).counter, b) == Wrap(At(s.counter, b) + Moved(s, a, b))
    ensures At(Step(s, a).reported, b) == At(s.reported, b) + Told(s, a, b)
  {
    hide Wrap;
  }

  lemma OutstandingAfter(s: State, a: Action, b: Bucket)
    requires Enabled(s, a) && (!a.Open? ==> LaneOk(s.lanes[a.i]))
    ensures Outstanding(Step(s, a).lanes, b) + Missed(s, a, b) + Moved(s, a, b) ==
            Outstanding(s.lanes, b) + Told(s, a, b) + Doubled(s, a, b)
  {
    hide Wrap;
    hide At;
    if a.Open? {
      OutstandingOpen(s.lanes, a.bucket, b);
    } else if !(a.Load? && a.n <= 0) {
      OutstandingUpdate(s.lanes, a.i, Step(s, a).lanes[a.i], b);
      hide Outstanding;
    }
  }

  /** Counter, outstanding remainders and missed bytes against the bytes reported and doubled. */
  ghost predicate Ledger(s: State, b: Bucket, missed: nat, doubled: nat) {
    At(s.counter, b) < WORD &&
    Wrap(At(s.counter, b) + Outstanding(s.lanes, b) + missed) == Wrap(At(s.reported, b) + doubled)
  }

  /** Counter plus outstanding remainders equals the bytes reported. */
  ghost predicate Balanced(s: State, b: Bucket) {
    Ledger(s, b, 0, 0)
  }

  ghost predicate Conserved(s: State) {
    forall b :: Balanced(s, b)
  }

  lemma LedgerKept(c: nat, o: nat, m: nat, r: nat, d: nat, o': nat, told: nat, moved: nat, missed: nat, doubled: nat)
    requires Wrap(c + o + m) == Wrap(r + d) && o' + missed + moved == o + told + doubled
    ensures Wrap(Wrap(c + moved) + o' + (m + missed)) == Wrap(r + told + (d + doubled))
  {
    hide Wrap;
    WrapTwice(c + moved, o' + (m + missed));
    WrapAdd(c + o + m, r + d, told + doubled);
    assert c + moved + (o' + (m + missed)) == c + o + m + (told + doubled);
    assert Wrap(c + moved) + o' + (m + missed) == Wrap(c + moved) + (o' + (m + missed));
    assert r + told + (d + doubled) == r + d + (told + doubled);
  }

  /** Every step of any interleaving, overlapping calls included, keeps the ledger. */
  lemma StepKeepsLedger(s: State, a: Action, b: Bucket, missed: nat, doubled: nat)
    requires Enabled(s, a) && (!a.Open? ==> LaneOk(s.lanes[a.i])) && Ledger(s, b, missed, doubled)
    ensures Ledger(Step(s, a), b, missed + Missed(s, a, b), doubled + Doubled(s, a, b))
  {
    hide Step;
    hide Outstanding;
    hide Wrap;
    hide At;
    hide Told;
    hide Moved;
    hide Missed;
    hide Doubled;
    hide Enabled;
    hide LaneOk;
    CounterAfter(s, a, b);
    OutstandingAfter(s, a, b);
    LedgerKept(At(s.counter, b), Outstanding(s.lanes, b), missed, At(s.reported, b), doubled,
               Outstanding(Step(s, a).lanes, b), Told(s, a, b), Moved(s, a, b), Missed(s, a, b), Doubled(s, a, b));
  }

  // ---- When the balance is kept ----

  /** A report does not store while its lane is being flushed, nor over a remainder that a flush has
      reset since; a drain does not add what a flush has added, nor a flush what a drain has added. */
  ghost predicate Apart(s: State, a: Action)
    requires Enabled(s, a)
  {
    a.Open? ||
    var x := s.lanes[a.i];
    match a
    case Store(_) => !x.flushing && x.local == x.writer.seen
    case Count(_) => !x.flushing || x.local == 0
    case FlushCount(_) => x.writer != Counted || x.local == 0
    case _ => true
  }

  lemma OffBalance(c: nat, o: nat, r: nat, missed: nat, doubled: nat)
    requires Wrap(c + o + missed) == Wrap(r + doubled) && Wrap(c + o) == Wrap(r)
    requires missed < WORD && doubled < WORD && (missed == 0 || doubled == 0)
    ensures missed == doubled == 0
  {
    var x, y := (c + o) / WORD, r / WORD;
    var u, v := (c + o + missed) / WORD, (r + doubled) / WORD;
    assert missed - doubled == (u - v - (x - y)) * WORD;
  }

  /** A step keeps the balance of every bucket if and only if it is apart. */
  lemma BalancedIffApart(s: State, a: Action)
    requires LanesOk(s) && Enabled(s, a) && Conserved(s)
    ensures Conserved(Step(s, a)) <==> Apart(s, a)
  {
    hide Step;
    hide Outstanding;
    hide Wrap;
    hide At;
    forall b
      ensures Ledger(Step(s, a), b, Missed(s, a, b), Doubled(s, a, b))
    {
      assert Balanced(s, b);
      StepKeepsLedger(s, a, b, 0, 0);
    }
    if Apart(s, a) {
      forall b
        ensures Balanced(Step(s, a), b)
      {
        assert Missed(s, a, b) == Doubled(s, a, b) == 0;
      }
    } else {
      var b := s.lanes[a.i].bucket;
      var s' := Step(s, a);
      assert LaneOk(s.lanes[a.i]);
      if Balanced(s', b) {
        OffBalance(At(s'.counter, b), Outstanding(s'.lanes, b), At(s'.reported, b), Missed(s, a, b), Doubled(s, a, b));
      }
    }
  }

  // ---- Whole runs ----

  const Start := State(map[], map[], [])

  ghost predicate IsRun(states: seq<State>, acts: seq<Action>) {
    && |states| == |acts| + 1 && states[0] == Start
    && forall i :: 0 <= i < |acts| ==> Enabled(states[i], acts[i]) && states[i + 1] == Step(states[i], acts[i])
  }

  lemma {:induction false} RunKeepsLanes(states: seq<State>, acts: seq<Action>, n: nat)
    requires IsRun(states, acts) && n < |states|
    ensures LanesOk(states[n])
  {
    hide Step;
    if n > 0 {
      RunKeepsLanes(states, acts, n - 1);
      StepKeepsLanes(states[n - 1], acts[n - 1]);
    }
  }

  ghost function MissedIn(states: seq<State>, acts: seq<Action>, n: nat, b: Bucket): nat
    requires IsRun(states, acts) && n < |states|
  {
    if n == 0 then 0 else MissedIn(states, acts, n - 1, b) + Missed(states[n - 1], acts[n - 1], b)
  }

  ghost function DoubledIn(states: seq<State>, acts: seq<Action>, n: nat, b: Bucket): nat
    requires IsRun(states, acts) && n < |states|
  {
    if n == 0 then 0
    else
      RunKeepsLanes(states, acts, n - 1);
      DoubledIn(states, acts, n - 1, b) + Doubled(states[n - 1], acts[n - 1], b)
  }

  /** In every run whatsoever the counter is off by exactly what overlapping calls missed and doubled. */
  lemma {:induction false} RunKeepsLedger(states: seq<State>, acts: seq<Action>, n: nat, b: Bucket)
    requires IsRun(states, acts) && n < |states|
    ensures Ledger(states[n], b, MissedIn(states, acts, n, b), DoubledIn(states, acts, n, b))
  {
    hide Step;
    hide Missed;
    hide Doubled;
    if n > 0 {
      RunKeepsLedger(states, acts, n - 1, b);
      RunKeepsLanes(states, acts, n - 1);
      hide Ledger;
      StepKeepsLedger(states[n - 1], acts[n - 1], b,
                      MissedIn(states, acts, n - 1, b), DoubledIn(states, acts, n - 1, b));
    }
  }

  ghost predicate ApartUntil(states: seq<State>, acts: seq<Action>, n: nat)
    requires IsRun(states, acts) && n < |states|
  {
    forall k :: 0 <= k < n ==> Apart(states[k], acts[k])
  }

  /** The balance of every bucket holds up to a moment of a run if and only if every step so far was
      apart. */
  lemma {:induction false} ConservedIffApart(states: seq<State>, acts: seq<Action>, n: nat)
    requires IsRun(states, acts) && n < |states|
    ensures (forall k :: 0 <= k <= n ==> Conserved(states[k])) <==> ApartUntil(states, acts, n)
  {
    hide Step;
    hide Apart;
    if n == 0 {
      forall b
        ensures Balanced(Start, b)
      {
      }
    } else {
      hide Conserved;
      ConservedIffApart(states, acts, n - 1);
      RunKeepsLanes(states, acts, n - 1);
      var s, a := states[n - 1], acts[n - 1];
      assert Enabled(s, a) && states[n] == Step(s, a);
      if Conserved(s) {
        BalancedIffApart(s, a);
      }
    }
  }

  lemma {:induction false} NothingOutstanding(lanes: seq<Lane>, b: Bucket)
    ensures Outstanding(lanes, b) == 0 <==> forall x :: x in lanes ==> Owed(x, b) == 0
  {
    if lanes != [] {
      assert forall x :: x in lanes <==> x == lanes[0] || x in lanes[1..];
      NothingOutstanding(lanes[1..], b);
    }
  }

  lemma ExactIff(c: nat, o: nat, r: nat)
    requires c < WORD && Wrap(c + o) == Wrap(r)
    ensures c == Wrap(r) <==> Wrap(o) == 0
  {
  }

  /** Remainders between calls stay below 128 KiB. As long as calls are apart, counter plus outstanding
      remainders is what was reported; the counter alone is exact if and only if nothing is outstanding
      modulo its width, in particular once no lane of the bucket owes anything. */
  lemma Conservation(states: seq<State>, acts: seq<Action>, n: nat, b: Bucket)
    requires IsRun(states, acts) && n < |states| && ApartUntil(states, acts, n)
    ensures var s := states[n];
            && Wrap(At(s.counter, b) + Outstanding(s.lanes, b)) == Wrap(At(s.reported, b))
            && (forall x :: x in s.lanes && x.writer == Ready ==> x.local < 128 * 1024)
            && (At(s.counter, b) == Wrap(At(s.reported, b)) <==> Wrap(Outstanding(s.lanes, b)) == 0)
            && ((forall x :: x in s.lanes && x.bucket == b ==> x.writer == Counted || x.flushing || x.local == 0) ==>
                  At(s.counter, b) == At(s.reported, b) % WORD)
  {
    var s := states[n];
    ConservedIffApart(states, acts, n);
    RunKeepsLanes(states, acts, n);
    assert Balanced(s, b);
    ExactIff(At(s.counter, b), Outstanding(s.lanes, b), At(s.reported, b));
    NothingOutstanding(s.lanes, b);
  }

  // ---- Whole calls ----

  ghost function StoreAlone(s: State, i: nat, n: nat): (s': State)
    requires i < |s.lanes| && LaneOk(s.lanes[i]) && s.lanes[i].writer == Ready && 0 < n <= MAX_INT
    ensures var x, b := s.lanes[i], s.lanes[i].bucket;
            var full := x.local + n >= 131072;
            && s'.lanes == s.lanes[i := x.(local := x.local + n, writer := if full then Full else Ready)]
            && s'.reported == s.reported[b := At(s.reported, b) + n] && s'.counter == s.counter
  {
    hide At;
    Step(Step(s, Load(i, n)), Store(i))
  }

  ghost function DrainAlone(s: State, i: nat): (s': State)
    requires i < |s.lanes| && s.lanes[i].writer == Full
    ensures var x, b := s.lanes[i], s.lanes[i].bucket;
            && s'.lanes == s.lanes[i := x.(local := 0, writer := Ready)] && s'.reported == s.reported
            && s'.counter == s.counter[b := Wrap(At(s.counter, b) + x.local)]
  {
    hide Wrap;
    Step(Step(s, Count(i)), Reset(i))
  }

  /** A report that nobody gets in between of: below 128 KiB the remainder grows by the bytes, else the
      counter takes all of it and the remainder is empty; nothing else changes. */
  lemma ReportAlone(s: State, i: nat, n: int) returns (acts: seq<Action>, s': State)
    requires LanesOk(s) && i < |s.lanes| && s.lanes[i].writer == Ready && n <= MAX_INT
    ensures Reaches(s, acts, s')
    ensures var x, b := s.lanes[i], s.lanes[i].bucket;
            var local := if n > 0 then x.local + n else x.local;
            && |s'.lanes| == |s.lanes| && (forall j :: 0 <= j < |s.lanes| && j != i ==> s'.lanes[j] == s.lanes[j])
            && s'.lanes[i] == x.(local := if local < 131072 then local else 0)
            && (forall c :: At(s'.counter, c) == if c == b && local >= 131072 then Wrap(At(s.counter, b) + local)
                                                else At(s.counter, c))
            && (forall c :: At(s'.reported, c) == At(s.reported, c) + if c == b && n > 0 then n else 0)
  {
    assert LaneOk(s.lanes[i]);
    if n <= 0 {
      acts, s' := [Load(i, n)], s;
    } else {
      hide Wrap;
      var s2 := StoreAlone(s, i, n);
      acts, s' := [Load(i, n), Store(i)], s2;
      if s2.lanes[i].writer == Full {
        acts, s' := acts + [Count(i), Reset(i)], DrainAlone(s2, i);
        ReachesFour(s, Load(i, n), Store(i), Count(i), Reset(i));
      } else {
        ReachesTwo(s, Load(i, n), Store(i));
      }
    }
  }

  /** A flush that nobody gets in between of moves the remainder into the counter. */
  lemma FlushAlone(s: State, i: nat) returns (acts: seq<Action>, s': State)
    requires i < |s.lanes| && s.lanes[i].writer == Ready && !s.lanes[i].flushing
    ensures Reaches(s, acts, s')
    ensures var x, b := s.lanes[i], s.lanes[i].bucket;
            && s'.lanes == s.lanes[i := x.(local := 0)] && s'.reported == s.reported
            && (forall c :: At(s'.counter, c) == if c == b then Wrap(At(s.counter, b) + x.local) else At(s.counter, c))
  {
    acts := [FlushCount(i), FlushReset(i)];
    s' := Step(Step(s, FlushCount(i)), FlushReset(i));
    ReachesTwo(s, FlushCount(i), FlushReset(i));
  }

  /** The actions can be taken one after the other and lead from `s` to `s'`. */
  ghost predicate Reaches(s: State, acts: seq<Action>, s': State)
    decreases |acts|
  {
    if acts == [] then s' == s else Enabled(s, acts[0]) && Reaches(Step(s, acts[0]), acts[1..], s')
  }

  lemma ReachesTwo(s: State, a: Action, b: Action)
    requires Enabled(s, a) && Enabled(Step(s, a), b)
    ensures Reaches(s, [a, b], Step(Step(s, a), b))
  {
    hide Step;
    hide Enabled;
    assert [a, b][1..] == [b] && [b][1..] == [];
    assert Reaches(Step(s, a), [b], Step(Step(s, a), b));
  }

  lemma ReachesFour(s: State, a: Action, b: Action, c: Action, d: Action)
    requires Enabled(s, a) && Enabled(Step(s, a), b) && Enabled(Step(Step(s, a), b), c)
    requires Enabled(Step(Step(Step(s, a), b), c), d)
    ensures Reaches(s, [a, b] + [c, d], Step(Step(Step(Step(s, a), b), c), d))
  {
    hide Step;
    hide Enabled;
    ReachesTwo(Step(Step(s, a), b), c, d);
    assert ([a, b] + [c, d])[1..] == [b, c, d] && [b, c, d][1..] == [c, d];
    assert Reaches(Step(s, a), [b, c, d], Step(Step(Step(Step(s, a), b), c), d));
  }

  // ---- Callers ----

  /** A report starts while no flush of its lane is under way, and a flush while no report is. */
  ghost predicate Serial(s: State, a: Action)
    requires Enabled(s, a)
  {
    match a
    case Load(i, _) => !s.lanes[i].flushing
    case FlushCount(i) => s.lanes[i].writer == Ready
    case _ => true
  }

  ghost predicate Unmixed(x: Lane) {
    && (x.flushing ==> x.writer == Ready)
    && (x.writer.Loaded? ==> x.writer.seen == x.local)
  }

  /** Callers that keep reports and flushes of a lane from overlapping are apart; reports after a flush
      are no exception. */
  lemma {:induction false} SerialIsApart(states: seq<State>, acts: seq<Action>, n: nat)
    requires IsRun(states, acts) && n < |states|
    requires forall k :: 0 <= k < n ==> Serial(states[k], acts[k])
    ensures ApartUntil(states, acts, n)
    ensures forall i :: 0 <= i < |states[n].lanes| ==> Unmixed(states[n].lanes[i])
  {
    hide Wrap;
    hide At;
    if n > 0 {
      SerialIsApart(states, acts, n - 1);
    }
  }

  /** A report between the add and the reset of a flush is lost: 15 bytes reported, 10 counted, none
      outstanding. */
  lemma ReportInFlushIsLost(b: Bucket) returns (states: seq<State>, acts: seq<Action>)
    ensures IsRun(states, acts)
    ensures var s := states[|acts|];
            At(s.counter, b) == 10 && At(s.reported, b) == 15 && Outstanding(s.lanes, b) == 0
  {
    hide Wrap;
    hide Outstanding;
    acts := [Open(b), Load(0, 10), Store(0), FlushCount(0), Load(0, 5), Store(0), FlushReset(0)];
    states := [
      Start,
      State(map[], map[], [Lane(b, 0, Ready, false)]),
      State(map[], map[], [Lane(b, 0, Loaded(0, 10), false)]),
      State(map[], map[b := 10], [Lane(b, 10, Ready, false)]),
      State(map[b := 10], map[b := 10], [Lane(b, 10, Ready, true)]),
      State(map[b := 10], map[b := 10], [Lane(b, 10, Loaded(10, 5), true)]),
      State(map[b := 10], map[b := 15], [Lane(b, 15, Ready, true)]),
      State(map[b := 10], map[b := 15], [Lane(b, 0, Ready, false)])
    ];
    NothingOutstanding(states[7].lanes, b);
  }

  /** If that report reaches the threshold, what the flush has added is added again. */
  lemma ReportInFlushIsDoubled(b: Bucket) returns (states: seq<State>, acts: seq<Action>)
    ensures IsRun(states, acts)
    ensures var s := states[|acts|];
            At(s.counter, b) == At(s.reported, b) + 10 && Outstanding(s.lanes, b) == 0
  {
    hide Wrap;
    hide Outstanding;
    acts := [Open(b), Load(0, 10), Store(0), FlushCount(0), Load(0, THRESHOLD), Store(0), Count(0)];
    var all := THRESHOLD + 10;
    states := [
      Start,
      State(map[], map[], [Lane(b, 0, Ready, false)]),
      State(map[], map[], [Lane(b, 0, Loaded(0, 10), false)]),
      State(map[], map[b := 10], [Lane(b, 10, Ready, false)]),
      State(map[b := 10], map[b := 10], [Lane(b, 10, Ready, true)]),
      State(map[b := 10], map[b := 10], [Lane(b, 10, Loaded(10, THRESHOLD), true)]),
      State(map[b := 10], map[b := all], [Lane(b, all, Full, true)]),
      State(map[b := 10 + all], map[b := all], [Lane(b, all, Counted, true)])
    ];
    NothingOutstanding(states[7].lanes, b);
  }
}
