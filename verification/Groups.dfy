/**
 Policy groups refer to other outbounds by name, in any order. `BuildGroups` resolves them in passes,
 building every group whose members are all known; a pass without progress is an error. `DialerCycle`
 is the check that no chain of dialers runs in a circle.
 */
module Groups {

  /** A group of the configuration; `valid` is what building it alone would say. */
  datatype Spec = Spec(name: string, members: seq<string>, valid: bool)

  /** An outbound: one of the protocols, or a group with its resolved members. */
  datatype Out = Plain(tag: nat) | Group(name: string, members: seq<(string, Out)>)

  // ---- The reference graph ----

  ghost predicate IsGroup(pending: seq<Spec>, name: string) {
    exists o :: o in pending && o.name == name
  }

  ghost predicate Refers(pending: seq<Spec>, a: string, b: string) {
    IsGroup(pending, b) && exists o :: o in pending && o.name == a && b in o.members
  }

  ghost predicate Path(pending: seq<Spec>, p: seq<string>) {
    |p| >= 2 ==> Refers(pending, p[0], p[1]) && Path(pending, p[1..])
  }

  ghost predicate Cycle(pending: seq<Spec>, p: seq<string>) {
    |p| >= 2 && p[0] == p[|p| - 1] && Path(pending, p)
  }

  ghost predicate Cyclic(pending: seq<Spec>) {
    exists p :: Cycle(pending, p)
  }

  ghost predicate MembersDefined(pending: seq<Spec>, outs: map<string, Out>) {
    forall o, m :: o in pending && m in o.members ==> m in outs || IsGroup(pending, m)
  }

  ghost predicate AllValid(pending: seq<Spec>) {
    forall o :: o in pending ==> o.valid
  }

  ghost predicate Distinct(specs: seq<Spec>) {
    forall i, j :: 0 <= i < j < |specs| ==> specs[i].name != specs[j].name
  }

  /** The members of a group as the table resolves them. */
  function Resolved(members: seq<string>, outs: map<string, Out>): seq<(string, Out)>
    requires forall m :: m in members ==> m in outs
  {
    seq(|members|, i requires 0 <= i < |members| => (members[i], outs[members[i]]))
  }

  // ---- Cyclic when stuck ----

  lemma {:induction false} Pigeonhole(p: seq<string>, s: set<string>)
    requires |p| > |s| && forall x :: x in p ==> x in s
    ensures exists i, j :: 0 <= i < j < |p| && p[i] == p[j]
  {
    assert p[0] in p;
    if j :| 0 < j < |p| && p[j] == p[0] {
    } else {
      var q := p[1..];
      assert forall x :: x in q ==> x in p && x != p[0];
      Pigeonhole(q, s - {p[0]});
      var i, j :| 0 <= i < j < |q| && q[i] == q[j];
      assert p[i + 1] == p[j + 1];
    }
  }

  ghost predicate Onward(pending: seq<Spec>, s: set<string>, a: string) {
    exists b :: b in s && Refers(pending, a, b)
  }

  /** Every name of `s` refers to one of `s`. */
  ghost predicate Closed(pending: seq<Spec>, s: set<string>) {
    forall a :: a in s ==> Onward(pending, s, a)
  }

  lemma Successor(pending: seq<Spec>, s: set<string>, a: string) returns (b: string)
    requires Closed(pending, s) && a in s
    ensures b in s && Refers(pending, a, b)
  {
    assert Onward(pending, s, a);
    hide Refers;
    hide Closed;
    b :| b in s && Refers(pending, a, b);
  }

  lemma {:induction false} LongPath(pending: seq<Spec>, s: set<string>, a: string, n: nat) returns (p: seq<string>)
    requires Closed(pending, s) && a in s
    ensures |p| == n + 1 && p[0] == a && Path(pending, p) && forall x :: x in p ==> x in s
    decreases n
  {
    hide Refers;
    hide Closed;
    p := [a];
    if n > 0 {
      var b := Successor(pending, s, a);
      var q := LongPath(pending, s, b, n - 1);
      p := [a] + q;
      assert p[1..] == q;
    }
  }

  lemma {:induction false} PathDrop(pending: seq<Spec>, p: seq<string>, i: nat)
    requires Path(pending, p) && i < |p|
    ensures Path(pending, p[i..])
  {
    hide Refers;
    if i == 0 {
      assert p[0..] == p;
    } else {
      PathDrop(pending, p[1..], i - 1);
      assert p[1..][i - 1..] == p[i..];
    }
  }

  lemma {:induction false} PathTake(pending: seq<Spec>, p: seq<string>, j: nat)
    requires Path(pending, p) && j < |p|
    ensures Path(pending, p[..j + 1])
  {
    hide Refers;
    if j > 0 {
      PathTake(pending, p[1..], j - 1);
      assert p[1..][..j] == p[..j + 1][1..];
    }
  }

  lemma LoopCyclic(pending: seq<Spec>, p: seq<string>, i: nat, j: nat)
    requires Path(pending, p) && i < j < |p| && p[i] == p[j]
    ensures Cyclic(pending)
  {
    hide Refers;
    PathDrop(pending, p, i);
    PathTake(pending, p[i..], j - i);
    hide Path;
    var c := p[i..][..j - i + 1];
    assert Cycle(pending, c);
  }

  lemma StuckCyclic(pending: seq<Spec>, s: set<string>)
    requires Closed(pending, s) && s != {}
    ensures Cyclic(pending)
  {
    hide *;
    var a :| a in s;
    var p := LongPath(pending, s, a, |s|);
    Pigeonhole(p, s);
    var i, j :| 0 <= i < j < |p| && p[i] == p[j];
    LoopCyclic(pending, p, i, j);
  }

  // ---- Groups that wait for each other ----

  /** Names no group can ever be built for: each group of such a name has a member of such a name. */
  ghost predicate Deadlocked(pending: seq<Spec>, outs0: map<string, Out>, x: set<string>) {
    && x != {} && x !! outs0.Keys && (forall a :: a in x ==> IsGroup(pending, a))
    && forall o :: o in pending && o.name in x ==> Blocked(o, x)
  }

  ghost predicate Blocked(o: Spec, x: set<string>) {
    exists m :: m in o.members && m in x
  }

  /** Names are distinct, among the groups and against the other outbounds. */
  ghost predicate Clean(pending: seq<Spec>, outs0: map<string, Out>) {
    Distinct(pending) && forall o :: o in pending ==> o.name !in outs0
  }

  lemma DeadlockedCyclic(pending: seq<Spec>, outs0: map<string, Out>, x: set<string>)
    requires Deadlocked(pending, outs0, x)
    ensures Cyclic(pending)
  {
    hide Cyclic;
    forall a | a in x
      ensures Onward(pending, x, a)
    {
      var o :| o in pending && o.name == a;
      assert Blocked(o, x);
      var m :| m in o.members && m in x;
      assert Refers(pending, a, m);
    }
    StuckCyclic(pending, x);
  }

  lemma {:induction false} PathNext(pending: seq<Spec>, p: seq<string>, i: nat)
    requires Path(pending, p) && i + 1 < |p|
    ensures Refers(pending, p[i], p[i + 1])
  {
    if i > 0 {
      PathNext(pending, p[1..], i - 1);
    }
  }

  lemma CycleOnward(pending: seq<Spec>, p: seq<string>, x: set<string>, a: string)
    requires Cycle(pending, p) && x == (set a | a in p) && a in x
    ensures Onward(pending, x, a)
  {
    hide Refers;
    var i :| 0 <= i < |p| && p[i] == a;
    var j := if i + 1 < |p| then i else 0;
    PathNext(pending, p, j);
    hide Path;
    assert p[j] == a && p[j + 1] in x;
  }

  lemma CyclicDeadlocked(pending: seq<Spec>, outs0: map<string, Out>, p: seq<string>) returns (x: set<string>)
    requires Clean(pending, outs0) && Cycle(pending, p)
    ensures Deadlocked(pending, outs0, x)
  {
    x := set a | a in p;
    assert p[0] in x;
    hide Path;
    hide IsGroup;
    hide Onward;
    hide Blocked;
    forall a | a in x
      ensures IsGroup(pending, a) && a !in outs0
    {
      CycleOnward(pending, p, x, a);
    }
    forall o | o in pending && o.name in x
      ensures Blocked(o, x)
    {
      CycleOnward(pending, p, x, o.name);
    }
  }

  /** With distinct names the groups that wait for each other are the cycles of the references. */
  lemma DeadlockIffCycle(pending: seq<Spec>, outs0: map<string, Out>)
    requires Clean(pending, outs0)
    ensures (exists x :: Deadlocked(pending, outs0, x)) <==> Cyclic(pending)
  {
    hide Deadlocked;
    hide Cycle;
    if x :| Deadlocked(pending, outs0, x) {
      DeadlockedCyclic(pending, outs0, x);
    }
    if p :| Cycle(pending, p) {
      var x := CyclicDeadlocked(pending, outs0, p);
    }
  }

  lemma SameName(pending: seq<Spec>, o: Spec, u: Spec)
    requires Distinct(pending) && o in pending && u in pending && o.name == u.name
    ensures o == u
  {
  }

  // ---- The passes ----

  ghost predicate BuiltFrom(o: Spec, outs: map<string, Out>) {
    o.valid && o.name in outs && forall m :: m in o.members ==> m in outs
  }

  /** `todo` are the groups still to build; everything else is built. */
  ghost predicate Cover(pending: seq<Spec>, outs0: map<string, Out>, outs: map<string, Out>, todo: seq<Spec>) {
    && (forall o :: o in todo ==> o in pending)
    && (forall o :: o in pending ==> o in todo || BuiltFrom(o, outs))
    && (forall m :: m in outs0 ==> m in outs)
    && (forall m :: m in outs ==> m in outs0 || IsGroup(pending, m))
  }

  /** A group of name `a` was built from members that were there before the name was. */
  ghost predicate Founded(pending: seq<Spec>, outs0: map<string, Out>, rank: map<string, nat>, a: string, o: Spec)
    requires a in rank
  {
    o in pending && o.name == a && forall m :: m in o.members ==> m in outs0 || (m in rank && rank[m] < rank[a])
  }

  /** `rank` is the order in which names came into the table. */
  ghost predicate InOrder(
    pending: seq<Spec>, outs0: map<string, Out>, outs: map<string, Out>, rank: map<string, nat>, top: nat)
  {
    && (forall a :: a in rank ==> a in outs && rank[a] < top && exists o :: Founded(pending, outs0, rank, a, o))
    && (forall a :: a in outs && a !in outs0 ==> a in rank)
  }

  /** Each built group is valid, and its entry holds the final entries of its members. */
  ghost predicate Sound(pending: seq<Spec>, outs: map<string, Out>) {
    forall o :: o in pending && o.name in outs ==>
      && o.valid && (forall m :: m in o.members ==> m in outs)
      && outs[o.name] == Group(o.name, Resolved(o.members, outs))
  }

  /** With distinct names: no entry is ever replaced. */
  ghost predicate Tidy(pending: seq<Spec>, outs0: map<string, Out>, outs: map<string, Out>, todo: seq<Spec>) {
    && Distinct(todo) && (forall o :: o in todo ==> o in pending && o.name !in outs)
    && (forall m :: m in outs0 ==> m in outs && outs[m] == outs0[m])
    && Sound(pending, outs)
  }

  datatype Scan = Ready(members: seq<(string, Out)>) | Waits(on: string) | Undefined(missing: string)

  /** The scan of one group's members. */
  method ScanMembers(o: Spec, outs: map<string, Out>, groups: set<string>) returns (r: Scan)
    ensures r.Ready? <==> forall m :: m in o.members ==> m in outs
    ensures r.Ready? ==> r.members == Resolved(o.members, outs)
    ensures r.Waits? ==> r.on in o.members && r.on !in outs && r.on in groups
    ensures r.Undefined? ==> r.missing in o.members && r.missing !in outs && r.missing !in groups
  {
    var members := [];
    for i := 0 to |o.members|
      invariant forall m :: m in o.members[..i] ==> m in outs
      invariant members == Resolved(o.members[..i], outs)
    {
      var mn := o.members[i];
      if mn !in outs {
        if mn in groups {
          return Waits(mn);
        }
        return Undefined(mn);
      }
      members := members + [(mn, outs[mn])];
      assert o.members[..i + 1] == o.members[..i] + [mn];
    }
    assert o.members[..|o.members|] == o.members;
    return Ready(members);
  }

  ghost predicate Built(pending: seq<Spec>, outs0: map<string, Out>, outs: map<string, Out>, todo: seq<Spec>,
                        rank: map<string, nat>, top: nat)
  {
    && Cover(pending, outs0, outs, todo) && InOrder(pending, outs0, outs, rank, top)
    && (Clean(pending, outs0) ==> Tidy(pending, outs0, outs, todo))
  }

  function Entry(o: Spec, outs: map<string, Out>): Out
    requires forall m :: m in o.members ==> m in outs
  {
    Group(o.name, Resolved(o.members, outs))
  }

  ghost function RankAfter(o: Spec, outs: map<string, Out>, rank: map<string, nat>, top: nat): map<string, nat> {
    if o.name in outs then rank else rank[o.name := top]
  }

  lemma BuildOne(pending: seq<Spec>, outs0: map<string, Out>, outs: map<string, Out>, before: seq<Spec>, o: Spec,
                 after: seq<Spec>, rank: map<string, nat>, top: nat)
    requires Built(pending, outs0, outs, before + [o] + after, rank, top)
    requires o.valid && forall m :: m in o.members ==> m in outs
    ensures Built(pending, outs0, outs[o.name := Entry(o, outs)], before + after,
                  RankAfter(o, outs, rank, top), top + 1)
  {
    hide Entry;
    BuildCover(pending, outs0, outs, before, o, after);
    BuildInOrder(pending, outs0, outs, o, rank, top);
    if Clean(pending, outs0) {
      BuildTidy(pending, outs0, outs, before, o, after);
    }
    hide *;
  }

  lemma BuildCover(pending: seq<Spec>, outs0: map<string, Out>, outs: map<string, Out>, before: seq<Spec>, o: Spec,
                   after: seq<Spec>)
    requires Cover(pending, outs0, outs, before + [o] + after)
    requires o.valid && forall m :: m in o.members ==> m in outs
    ensures o in pending
    ensures Cover(pending, outs0, outs[o.name := Entry(o, outs)], before + after)
  {
    var todo, rest := before + [o] + after, before + after;
    assert todo[|before|] == o;
    assert forall u :: u in rest ==> u in todo;
    assert forall u :: u in todo ==> u in rest || u == o;
  }

  lemma BuildInOrder(pending: seq<Spec>, outs0: map<string, Out>, outs: map<string, Out>, o: Spec,
                     rank: map<string, nat>, top: nat)
    requires InOrder(pending, outs0, outs, rank, top) && o in pending
    requires forall m :: m in o.members ==> m in outs
    ensures InOrder(pending, outs0, outs[o.name := Entry(o, outs)], RankAfter(o, outs, rank, top), top + 1)
  {
    var rank' := RankAfter(o, outs, rank, top);
    forall a | a in rank'
      ensures exists u :: Founded(pending, outs0, rank', a, u)
    {
      if a in rank {
        var u :| Founded(pending, outs0, rank, a, u);
        assert Founded(pending, outs0, rank', a, u);
      } else {
        assert Founded(pending, outs0, rank', a, o);
      }
    }
  }

  lemma BuildTidy(pending: seq<Spec>, outs0: map<string, Out>, outs: map<string, Out>, before: seq<Spec>, o: Spec,
                  after: seq<Spec>)
    requires Clean(pending, outs0) && Tidy(pending, outs0, outs, before + [o] + after)
    requires o.valid && forall m :: m in o.members ==> m in outs
    ensures Tidy(pending, outs0, outs[o.name := Entry(o, outs)], before + after)
  {
    var todo := before + [o] + after;
    assert todo[|before|] == o;
    RestDistinct(before, o, after);
    BuildSound(pending, outs, o);
    hide Sound;
  }

  lemma RestDistinct(before: seq<Spec>, o: Spec, after: seq<Spec>)
    requires Distinct(before + [o] + after)
    ensures Distinct(before + after)
    ensures forall u :: u in before + after ==> u in before + [o] + after && u.name != o.name
  {
    var todo, rest := before + [o] + after, before + after;
    assert todo[|before|] == o;
    forall i | 0 <= i < |rest|
      ensures rest[i] in todo && rest[i].name != o.name
    {
      assert rest[i] == todo[if i < |before| then i else i + 1];
    }
    forall i, j | 0 <= i < j < |rest|
      ensures rest[i].name != rest[j].name
    {
      assert rest[i] == todo[if i < |before| then i else i + 1];
      assert rest[j] == todo[if j < |before| then j else j + 1];
    }
  }

  lemma BuildSound(pending: seq<Spec>, outs: map<string, Out>, o: Spec)
    requires Distinct(pending) && Sound(pending, outs) && o in pending && o.name !in outs
    requires o.valid && forall m :: m in o.members ==> m in outs
    ensures Sound(pending, outs[o.name := Entry(o, outs)])
  {
    forall u | u in pending && u.name == o.name
      ensures u == o
    {
      SameName(pending, o, u);
    }
  }

  lemma UndefinedMember(pending: seq<Spec>, outs0: map<string, Out>, outs: map<string, Out>, todo: seq<Spec>, o: Spec,
                        m: string)
    requires Cover(pending, outs0, outs, todo) && o in todo && m in o.members && m !in outs && !IsGroup(pending, m)
    ensures !MembersDefined(pending, outs0)
  {
  }

  /** A group waits for one that is not built yet. */
  ghost predicate Waiting(o: Spec, outs: map<string, Out>, groups: set<string>) {
    exists m :: m in o.members && m !in outs && m in groups
  }

  lemma InvalidGroup(pending: seq<Spec>, o: Spec)
    requires o in pending && !o.valid
    ensures !AllValid(pending)
  {
  }

  datatype Outcome = Done | Later | Error

  /** One group of a pass: built, left for later, or an error. */
  method Visit(pending: seq<Spec>, ghost outs0: map<string, Out>, outs: map<string, Out>, ghost before: seq<Spec>,
               o: Spec, ghost after: seq<Spec>, groups: set<string>, ghost rank: map<string, nat>, ghost top: nat)
    returns (r: Outcome, outs': map<string, Out>, ghost rank': map<string, nat>, ghost top': nat)
    requires Built(pending, outs0, outs, before + [o] + after, rank, top)
    requires forall m :: m in groups <==> IsGroup(pending, m)
    ensures r.Done? ==> Built(pending, outs0, outs', before + after, rank', top')
    ensures r.Later? ==> outs' == outs && rank' == rank && top' == top && Waiting(o, outs, groups)
    ensures r.Error? ==> !MembersDefined(pending, outs0) || !AllValid(pending)
  {
    hide Cover;
    hide Built;
    hide AllValid;
    hide MembersDefined;
    ghost var todo := before + [o] + after;
    assert todo[|before|] == o;
    BuiltTodo(pending, outs0, outs, todo, rank, top, o);
    outs', rank', top' := outs, rank, top;
    var scan := ScanMembers(o, outs, groups);
    match scan
    case Undefined(m) =>
      UndefinedMember(pending, outs0, outs, todo, o, m);
      r := Error;
    case Waits(m) =>
      r := Later;
    case Ready(members) =>
      if !o.valid {
        InvalidGroup(pending, o);
        r := Error;
        return;
      }
      BuildOne(pending, outs0, outs, before, o, after, rank, top);
      outs', rank', top' := outs[o.name := Group(o.name, members)], RankAfter(o, outs, rank, top), top + 1;
      r := Done;
  }

  /** One pass over the remaining groups. */
  method Pass(pending: seq<Spec>, ghost outs0: map<string, Out>, outs: map<string, Out>, remaining: seq<Spec>,
              groups: set<string>, ghost rank: map<string, nat>, ghost top: nat)
    returns (ok: bool, outs': map<string, Out>, next: seq<Spec>, progress: bool,
             ghost rank': map<string, nat>, ghost top': nat)
    requires Built(pending, outs0, outs, remaining, rank, top)
    requires forall m :: m in groups <==> IsGroup(pending, m)
    ensures ok ==> Built(pending, outs0, outs', next, rank', top')
    ensures ok && progress ==> |next| < |remaining|
    ensures ok && !progress ==> next == remaining && outs' == outs && forall o :: o in next ==> Waiting(o, outs, groups)
    ensures !ok ==> !MembersDefined(pending, outs0) || !AllValid(pending)
  {
    hide *;
    ok, outs', next, progress, rank', top' := true, outs, [], false, rank, top;
    ghost var todo := remaining;
    for i := 0 to |remaining|
      invariant todo == next + remaining[i..] && Built(pending, outs0, outs', todo, rank', top')
      invariant if progress then |next| < i else next == remaining[..i] && outs' == outs
      invariant !progress ==> forall o :: o in next ==> Waiting(o, outs, groups)
    {
      ghost var rest := remaining[i + 1..];
      assert todo == next + [remaining[i]] + rest;
      var r;
      r, outs', rank', top' := Visit(pending, outs0, outs', next, remaining[i], rest, groups, rank', top');
      match r
      case Error =>
        ok := false;
        return;
      case Later =>
        next := next + [remaining[i]];
      case Done =>
        progress := true;
        todo := next + rest;
    }
    assert todo == next;
  }

  lemma BuiltTodo(pending: seq<Spec>, outs0: map<string, Out>, outs: map<string, Out>, todo: seq<Spec>,
                  rank: map<string, nat>, top: nat, o: Spec)
    requires Built(pending, outs0, outs, todo, rank, top) && o in todo
    ensures o in pending && Cover(pending, outs0, outs, todo)
  {
  }

  /** A pass without progress: the names not yet in the table wait for each other. */
  lemma StuckDeadlocked(pending: seq<Spec>, outs0: map<string, Out>, outs: map<string, Out>, todo: seq<Spec>,
                        groups: set<string>)
    requires Cover(pending, outs0, outs, todo) && todo != []
    requires forall m :: m in groups <==> IsGroup(pending, m)
    requires forall o :: o in todo ==> Waiting(o, outs, groups)
    ensures exists x :: Deadlocked(pending, outs0, x)
  {
    var x := set a | a in groups && a !in outs;
    assert Waiting(todo[0], outs, groups);
    var m0 :| m0 in todo[0].members && m0 !in outs && m0 in groups;
    assert m0 in x;
    forall o | o in pending && o.name in x
      ensures Blocked(o, x)
    {
      assert Waiting(o, outs, groups);
    }
    hide Cover;
    assert Deadlocked(pending, outs0, x);
  }

  lemma {:induction false} Descent(pending: seq<Spec>, outs0: map<string, Out>, outs: map<string, Out>,
                                   rank: map<string, nat>, top: nat, x: set<string>, a: string)
    requires InOrder(pending, outs0, outs, rank, top) && a in x && a in rank
    ensures !Deadlocked(pending, outs0, x)
    decreases rank[a]
  {
    var o :| Founded(pending, outs0, rank, a, o);
    if m :| m in o.members && m in x && m !in outs0 {
      Descent(pending, outs0, outs, rank, top, x, m);
    }
  }

  lemma AllBuilt(pending: seq<Spec>, outs0: map<string, Out>, outs: map<string, Out>, rank: map<string, nat>, top: nat)
    requires Cover(pending, outs0, outs, []) && InOrder(pending, outs0, outs, rank, top)
    ensures AllValid(pending) && MembersDefined(pending, outs0)
    ensures !exists x :: Deadlocked(pending, outs0, x)
    ensures outs.Keys == outs0.Keys + set o | o in pending :: o.name
  {
    if x :| Deadlocked(pending, outs0, x) {
      var a :| a in x;
      var o :| o in pending && o.name == a;
      assert BuiltFrom(o, outs);
      Descent(pending, outs0, outs, rank, top, x, a);
    }
    forall o, m | o in pending && m in o.members
      ensures m in outs0 || IsGroup(pending, m)
    {
      assert BuiltFrom(o, outs);
    }
    assert forall o :: o in pending ==> BuiltFrom(o, outs);
  }

  /** The build succeeds exactly when every group is valid by itself, every member is defined and no
      groups wait for each other. With distinct names the last means that the references form no
      cycle, and the table then holds each group with the final entries of its members. */
  method BuildGroups(pending: seq<Spec>, outs0: map<string, Out>) returns (ok: bool, outs: map<string, Out>)
    ensures ok <==>
              AllValid(pending) && MembersDefined(pending, outs0) && !exists x :: Deadlocked(pending, outs0, x)
    ensures Clean(pending, outs0) ==>
              (ok <==> AllValid(pending) && MembersDefined(pending, outs0) && !Cyclic(pending))
    ensures ok ==> outs.Keys == outs0.Keys + set o | o in pending :: o.name
    ensures ok && Clean(pending, outs0) ==>
              Sound(pending, outs) && forall m :: m in outs0 ==> m in outs && outs[m] == outs0[m]
  {
    var groups := set o | o in pending :: o.name;
    var remaining := pending;
    ghost var rank: map<string, nat>, top: nat := map[], 0;
    ok, outs := true, outs0;
    assert forall m :: m in groups <==> IsGroup(pending, m);
    assert Built(pending, outs0, outs, remaining, rank, top);
    if Clean(pending, outs0) {
      DeadlockIffCycle(pending, outs0);
    }
    while remaining != []
      invariant Built(pending, outs0, outs, remaining, rank, top)
      decreases |remaining|
    {
      hide Cover;
      hide InOrder;
      hide Tidy;
      hide Clean;
      hide IsGroup;
      hide AllValid;
      hide MembersDefined;
      hide Cyclic;
      hide Deadlocked;
      var fine, outs', next, progress, rank', top' := Pass(pending, outs0, outs, remaining, groups, rank, top);
      if !fine {
        return false, outs';
      }
      if !progress {
        StuckDeadlocked(pending, outs0, outs, remaining, groups);
        return false, outs';
      }
      outs, remaining, rank, top := outs', next, rank', top';
    }
    AllBuilt(pending, outs0, outs, rank, top);
  }

  // ---- Dialer chains ----

  datatype Outbound = Outbound(name: string, dialer: string)

  /** Following dialers `k` times; a chain ends with the empty name. */
  ghost function Walk(edge: map<string, string>, n: string, k: nat): string
    decreases k
  {
    if k == 0 then n
    else if n == "" || n !in edge then ""
    else Walk(edge, edge[n], k - 1)
  }

  ghost predicate DialerLoop(edge: map<string, string>, n: string, k: nat) {
    n != "" && k >= 1 && Walk(edge, n, k) == n
  }

  lemma {:induction false} WalkAdds(edge: map<string, string>, n: string, j: nat, k: nat)
    ensures Walk(edge, n, j + k) == Walk(edge, Walk(edge, n, j), k)
    decreases j
  {
    if j > 0 {
      if n == "" || n !in edge {
        WalkEnds(edge, k);
      } else {
        WalkAdds(edge, edge[n], j - 1, k);
      }
    }
  }

  lemma WalkEnds(edge: map<string, string>, k: nat)
    ensures Walk(edge, "", k) == ""
  {
  }

  lemma {:induction false} LoopNeverEnds(edge: map<string, string>, n: string, k: nat, m: nat)
    requires DialerLoop(edge, n, k)
    ensures Walk(edge, n, m) != ""
    decreases m
  {
    if m < k {
      WalkAdds(edge, n, m, k - m);
      WalkEnds(edge, k - m);
    } else {
      WalkAdds(edge, n, k, m - k);
      LoopNeverEnds(edge, n, k, m - k);
    }
  }

  /** The walk from one start: stops at the end of the chain, or at a name seen before. */
  method WalkFrom(edge: map<string, string>, start: string) returns (cyclic: bool)
    requires start in edge
    ensures cyclic ==> exists n, k :: DialerLoop(edge, n, k)
    ensures !cyclic ==> exists m :: Walk(edge, start, m) == ""
  {
    var seen: set<string> := {};
    var n := start;
    ghost var steps: nat := 0;
    ghost var at: map<string, nat> := map[];
    while n != ""
      invariant n == Walk(edge, start, steps)
      invariant n != "" ==> n == start || n in edge.Values
      invariant seen == at.Keys && seen <= edge.Keys + edge.Values
      invariant forall x :: x in at ==> x != "" && at[x] < steps && Walk(edge, start, at[x]) == x
      decreases edge.Keys + edge.Values - seen
    {
      if n in seen {
        WalkAdds(edge, start, at[n], steps - at[n]);
        assert DialerLoop(edge, n, steps - at[n]);
        return true;
      }
      seen := seen + {n};
      at := at[n := steps];
      WalkAdds(edge, start, steps, 1);
      n := if n in edge then edge[n] else "";
      steps := steps + 1;
    }
    return false;
  }

  /** Outbound `n` names `d` as its dialer, the last such line counting. */
  ghost predicate Dials(specs: seq<Outbound>, n: string, d: string) {
    exists i :: 0 <= i < |specs| && specs[i] == Outbound(n, d) && d != "" &&
      forall j :: i < j < |specs| && specs[j].name == n ==> specs[j].dialer == ""
  }

  ghost predicate EdgesOf(edge: map<string, string>, specs: seq<Outbound>) {
    forall n, d :: (n in edge && edge[n] == d) <==> Dials(specs, n, d)
  }

  method EdgeMap(specs: seq<Outbound>) returns (edge: map<string, string>)
    ensures EdgesOf(edge, specs)
  {
    edge := map[];
    for i := 0 to |specs|
      invariant EdgesOf(edge, specs[..i])
    {
      var o := specs[i];
      ghost var upTo := specs[..i + 1];
      if o.dialer != "" {
        edge := edge[o.name := o.dialer];
      }
      forall n, d
        ensures (n in edge && edge[n] == d) <==> Dials(upTo, n, d)
      {
        assert upTo == specs[..i] + [o];
        DialsSnoc(specs[..i], o, n, d);
      }
    }
    assert specs[..|specs|] == specs;
  }

  lemma DialsSnoc(specs: seq<Outbound>, o: Outbound, n: string, d: string)
    ensures Dials(specs + [o], n, d) <==>
              if o.name == n && o.dialer != "" then d == o.dialer else Dials(specs, n, d)
  {
    var all := specs + [o];
    if Dials(specs, n, d) && !(o.name == n && o.dialer != "") {
      var i :| 0 <= i < |specs| && specs[i] == Outbound(n, d) && d != "" &&
        forall j :: i < j < |specs| && specs[j].name == n ==> specs[j].dialer == "";
      assert all[i] == Outbound(n, d);
    }
    if o.name == n && o.dialer != "" {
      assert all[|specs|] == o;
    } else if Dials(all, n, d) {
      var i :| 0 <= i < |all| && all[i] == Outbound(n, d) && d != "" &&
        forall j :: i < j < |all| && all[j].name == n ==> all[j].dialer == "";
      assert specs[i] == Outbound(n, d);
      assert forall j :: i < j < |specs| ==> all[j] == specs[j];
    }
  }

  /** A non-empty chain of dialers that comes back to where it began. */
  ghost predicate DialersCyclic(specs: seq<Outbound>) {
    exists p :: DialerCycle(specs, p)
  }

  ghost predicate DialerCycle(specs: seq<Outbound>, p: seq<string>) {
    |p| >= 2 && p[0] == p[|p| - 1] && p[0] != "" && DialerPath(specs, p)
  }

  ghost predicate DialerPath(specs: seq<Outbound>, p: seq<string>) {
    |p| >= 2 ==> Dials(specs, p[0], p[1]) && DialerPath(specs, p[1..])
  }

  lemma {:induction false} PathIsWalk(edge: map<string, string>, specs: seq<Outbound>, p: seq<string>)
    requires EdgesOf(edge, specs) && |p| >= 1 && DialerPath(specs, p) && p[0] != ""
    ensures Walk(edge, p[0], |p| - 1) == p[|p| - 1]
  {
    if |p| >= 2 {
      assert Dials(specs, p[0], p[1]);
      hide Dials;
      PathIsWalk(edge, specs, p[1..]);
    }
  }

  lemma {:induction false} WalkIsPath(edge: map<string, string>, specs: seq<Outbound>, n: string, k: nat)
    returns (p: seq<string>)
    requires EdgesOf(edge, specs) && Walk(edge, n, k) != ""
    ensures |p| == k + 1 && p[0] == n && p[k] == Walk(edge, n, k) && DialerPath(specs, p)
    decreases k
  {
    hide Dials;
    p := [n];
    if k > 0 {
      var q := WalkIsPath(edge, specs, edge[n], k - 1);
      p := [n] + q;
      assert p[1..] == q;
    }
  }

  /** The walk rejects exactly the configurations whose dialers form a cycle. */
  method RejectsDialers(specs: seq<Outbound>) returns (rejected: bool)
    ensures rejected <==> DialersCyclic(specs)
  {
    var edge := EdgeMap(specs);
    hide EdgesOf;
    hide Dials;
    var starts := edge.Keys;
    while starts != {}
      invariant starts <= edge.Keys
      invariant forall n :: n in edge && n !in starts ==> exists m :: Walk(edge, n, m) == ""
      decreases starts
    {
      var start :| start in starts;
      var cyclic := WalkFrom(edge, start);
      if cyclic {
        LoopIsCycle(edge, specs);
        return true;
      }
      starts := starts - {start};
    }
    NoLoop(edge, specs);
    return false;
  }

  lemma LoopIsCycle(edge: map<string, string>, specs: seq<Outbound>)
    requires EdgesOf(edge, specs) && exists n, k :: DialerLoop(edge, n, k)
    ensures DialersCyclic(specs)
  {
    hide EdgesOf;
    hide Dials;
    var n, k :| DialerLoop(edge, n, k);
    var p := WalkIsPath(edge, specs, n, k);
    hide DialerPath;
    assert DialerCycle(specs, p);
  }

  lemma NoLoop(edge: map<string, string>, specs: seq<Outbound>)
    requires EdgesOf(edge, specs)
    requires forall n :: n in edge ==> exists m :: Walk(edge, n, m) == ""
    ensures !DialersCyclic(specs)
  {
    forall p
      ensures !DialerCycle(specs, p)
    {
      if DialerCycle(specs, p) {
        PathIsWalk(edge, specs, p);
        hide EdgesOf;
        hide Dials;
        hide DialerPath;
        var n := p[0];
        assert DialerLoop(edge, n, |p| - 1);
        assert n in edge;
        var m :| Walk(edge, n, m) == "";
        LoopNeverEnds(edge, n, |p| - 1, m);
      }
    }
  }
}
