/**
 The 0-RTT ticket store of VLESS encryption: tickets in issue order, a session per ticket, and
 for each minute the last ticket that expires in it. A sweeper that wakes up about once a minute,
 possibly skipping minutes, drops everything up to the ticket named for the current minute.
 */
module Tickets {

  /** A ticket; 0 is the zero value that a missing map entry reads as. */
  type Ticket = nat

  datatype Book = Book(lasts: map<int, Ticket>, tickets: seq<Ticket>, sessions: map<Ticket, nat>)

  /** Issue times of all tickets ever issued, the time of the last operation, the minute of the
      last sweep, and the longest configured lifetime. */
  datatype Hist = Hist(issued: map<Ticket, nat>, clock: nat, swept: int, lifetime: nat) {
    /** The minute whose sweep drops a ticket issued at `t`. */
    function Minute(t: nat): int {
      (t + lifetime) / 60 + 2
    }
  }

  // ---- Operations ----

  function Issue(b: Book, minute: int, ticket: Ticket, key: nat): Book {
    Book(b.lasts[minute := ticket], b.tickets + [ticket], b.sessions[ticket := key])
  }

  function IndexOf(s: seq<Ticket>, t: Ticket): (p: nat)
    ensures p <= |s|
    ensures p < |s| ==> s[p] == t
    ensures t !in s[..p]
  {
    if s == [] || s[0] == t then 0
    else
      var p := IndexOf(s[1..], t) + 1;
      assert s[..p] == [s[0]] + s[1..][..p - 1];
      p
  }

  function ToSet(s: seq<Ticket>): set<Ticket> {
    set t | t in s
  }

  /** One round of the sweeper. When the named ticket is not listed, the loop runs to the end and
      leaves the list as it is. */
  function Sweep(b: Book, minute: int): Book {
    var last := if minute in b.lasts then b.lasts[minute] else 0;
    var lasts := b.lasts - {minute, minute - 1};
    if last == 0 then b.(lasts := lasts)
    else
      var p := IndexOf(b.tickets, last);
      if p < |b.tickets| then Book(lasts, b.tickets[p + 1..], b.sessions - ToSet(b.tickets[..p + 1]))
      else Book(lasts, b.tickets, b.sessions - ToSet(b.tickets))
  }

  // ---- Invariant ----

  /** Tickets are distinct, in issue order, and exactly the ones with a session. */
  ghost predicate InOrder(b: Book, h: Hist) {
    && (forall t :: t in b.sessions <==> t in b.tickets)
    && (forall i, j :: 0 <= i < j < |b.tickets| ==> b.tickets[i] != b.tickets[j])
    && (forall t :: t in b.tickets ==> t in h.issued)
    && (forall i, j :: 0 <= i <= j < |b.tickets| ==> h.issued[b.tickets[i]] <= h.issued[b.tickets[j]])
    && (forall t :: t in h.issued ==> h.issued[t] <= h.clock)
  }

  /** The minute in which the ticket at `i` expires. */
  ghost function Expiry(b: Book, h: Hist, i: nat): int
    requires InOrder(b, h) && i < |b.tickets|
  {
    h.Minute(h.issued[b.tickets[i]])
  }

  /** The ticket at `p` is the last one that expires in minute `m`. */
  ghost predicate LastOf(b: Book, h: Hist, m: int, p: nat)
    requires InOrder(b, h)
  {
    && p < |b.tickets|
    && Expiry(b, h, p) == m
    && forall i: nat :: p < i < |b.tickets| ==> Expiry(b, h, i) > m
  }

  /** A minute still to be swept names the last ticket that expires in it, which is still listed. */
  ghost predicate Named(b: Book, h: Hist)
    requires InOrder(b, h)
  {
    && (forall m :: m in b.lasts && m > h.swept ==> exists p: nat :: LastOf(b, h, m, p) && b.tickets[p] == b.lasts[m])
    && (forall i: nat :: i < |b.tickets| && Expiry(b, h, i) > h.swept ==> Expiry(b, h, i) in b.lasts)
    && h.swept !in b.lasts && h.swept <= h.clock / 60
  }

  /** A ticket is gone only well after its longest lifetime is over. */
  ghost predicate KeptLongEnough(b: Book, h: Hist) {
    forall t :: t in h.issued ==> t in b.sessions || h.issued[t] + h.lifetime + 60 < h.clock
  }

  ghost predicate Inv(b: Book, h: Hist) {
    InOrder(b, h) && Named(b, h) && KeptLongEnough(b, h)
  }

  lemma MinuteMonotone(h: Hist, s: nat, t: nat)
    requires s <= t
    ensures h.Minute(s) <= h.Minute(t) && h.Minute(t) > t / 60 + 1
  {
  }

  lemma ExpiryMonotone(b: Book, h: Hist, i: nat, j: nat)
    requires InOrder(b, h) && i <= j < |b.tickets|
    ensures Expiry(b, h, i) <= Expiry(b, h, j)
  {
    hide Hist.Minute;
    MinuteMonotone(h, h.issued[b.tickets[i]], h.issued[b.tickets[j]]);
  }

  // ---- Issuing ----

  function Issued(h: Hist, ticket: Ticket, now: nat): Hist {
    h.(issued := h.issued[ticket := now], clock := now)
  }

  lemma IssueExpiry(b: Book, h: Hist, ticket: Ticket, key: nat, now: nat, i: nat)
    requires InOrder(b, h) && h.clock <= now && ticket !in h.issued && i <= |b.tickets|
    requires InOrder(Issue(b, h.Minute(now), ticket, key), Issued(h, ticket, now))
    ensures Expiry(Issue(b, h.Minute(now), ticket, key), Issued(h, ticket, now), i) ==
            if i < |b.tickets| then Expiry(b, h, i) else h.Minute(now)
    ensures i < |b.tickets| ==> Expiry(b, h, i) <= h.Minute(now)
  {
    if i < |b.tickets| {
      MinuteMonotone(h, h.issued[b.tickets[i]], now);
    }
  }

  lemma IssueKeepsNamed(b: Book, h: Hist, ticket: Ticket, key: nat, now: nat)
    requires InOrder(b, h) && Named(b, h) && h.clock <= now && ticket !in h.issued
    requires InOrder(Issue(b, h.Minute(now), ticket, key), Issued(h, ticket, now))
    ensures Named(Issue(b, h.Minute(now), ticket, key), Issued(h, ticket, now))
  {
    hide Hist.Minute;
    hide Expiry;
    hide InOrder;
    var b', h', n := Issue(b, h.Minute(now), ticket, key), Issued(h, ticket, now), |b.tickets|;
    forall i: nat | i <= n
      ensures Expiry(b', h', i) == if i < n then Expiry(b, h, i) else h.Minute(now)
      ensures i < n ==> Expiry(b, h, i) <= h.Minute(now)
    {
      IssueExpiry(b, h, ticket, key, now, i);
    }
    MinuteMonotone(h, now, now);
    forall m | m in b'.lasts && m > h.swept
      ensures exists p: nat :: LastOf(b', h', m, p) && b'.tickets[p] == b'.lasts[m]
    {
      if m == h.Minute(now) {
        assert LastOf(b', h', m, n);
      } else {
        var p: nat :| LastOf(b, h, m, p) && b.tickets[p] == b.lasts[m];
        assert LastOf(b', h', m, p);
      }
    }
  }

  lemma IssueKeepsInv(b: Book, h: Hist, ticket: Ticket, key: nat, now: nat)
    requires Inv(b, h) && h.clock <= now && ticket !in h.issued
    ensures Inv(Issue(b, h.Minute(now), ticket, key), Issued(h, ticket, now))
  {
    hide Hist.Minute;
    IssueKeepsNamed(b, h, ticket, key, now);
    hide InOrder;
    hide Named;
  }

  // ---- Sweeping ----

  lemma {:induction false} IndexOfUnique(s: seq<Ticket>, p: nat)
    requires p < |s| && forall i, j :: 0 <= i < j < |s| ==> s[i] != s[j]
    ensures IndexOf(s, s[p]) == p
  {
    if p != 0 {
      IndexOfUnique(s[1..], p - 1);
    }
  }

  /** The ticket named for minute `m` ends the tickets that expire by minute `m`. */
  lemma SweepPoint(b: Book, h: Hist, m: int) returns (p: nat)
    requires InOrder(b, h) && Named(b, h) && m >= h.swept && m in b.lasts
    ensures p < |b.tickets| && IndexOf(b.tickets, b.lasts[m]) == p
    ensures forall i: nat :: i < |b.tickets| ==> (i <= p <==> Expiry(b, h, i) <= m)
  {
    hide Expiry;
    p :| LastOf(b, h, m, p) && b.tickets[p] == b.lasts[m];
    IndexOfUnique(b.tickets, p);
    forall i: nat | i <= p
      ensures Expiry(b, h, i) <= m
    {
      ExpiryMonotone(b, h, i, p);
    }
  }

  lemma ExpiryOver(b: Book, h: Hist, i: nat, now: nat)
    requires InOrder(b, h) && i < |b.tickets| && Expiry(b, h, i) <= now / 60
    ensures h.issued[b.tickets[i]] + h.lifetime + 60 < now
  {
  }

  function Swept(h: Hist, now: nat): Hist {
    h.(clock := now, swept := now / 60)
  }

  lemma SuffixKeepsOrder(b: Book, h: Hist, now: nat, k: nat, lasts: map<int, Ticket>)
    requires InOrder(b, h) && h.clock <= now && k <= |b.tickets|
    ensures InOrder(Book(lasts, b.tickets[k..], b.sessions - ToSet(b.tickets[..k])), Swept(h, now))
  {
    var b' := Book(lasts, b.tickets[k..], b.sessions - ToSet(b.tickets[..k]));
    assert b.tickets == b.tickets[..k] + b.tickets[k..];
    assert forall t :: t in b'.sessions <==> t in b.tickets && t !in b.tickets[..k];
  }

  lemma SuffixExpiry(b: Book, h: Hist, b': Book, h': Hist, k: nat)
    requires InOrder(b, h) && InOrder(b', h') && k <= |b.tickets| && b'.tickets == b.tickets[k..]
    requires h'.issued == h.issued && h'.lifetime == h.lifetime
    ensures forall i: nat :: i < |b'.tickets| ==> Expiry(b', h', i) == Expiry(b, h, i + k)
  {
    hide InOrder;
    forall i: nat | i < |b'.tickets|
      ensures Expiry(b', h', i) == Expiry(b, h, i + k)
    {
      assert b'.tickets[i] == b.tickets[i + k];
    }
  }

  /** Minutes after `m` keep their last ticket when everything up to `k` is dropped. */
  lemma SuffixKeepsNamed(b: Book, h: Hist, b': Book, now: nat, k: nat)
    requires InOrder(b, h) && Named(b, h) && h.clock <= now && h.swept <= now / 60
    requires InOrder(b', Swept(h, now)) && k <= |b.tickets| && b'.tickets == b.tickets[k..]
    requires b'.lasts == b.lasts - {now / 60, now / 60 - 1}
    requires forall i: nat :: i < k ==> Expiry(b, h, i) <= now / 60
    ensures Named(b', Swept(h, now))
  {
    hide Expiry;
    hide InOrder;
    var h' := Swept(h, now);
    SuffixExpiry(b, h, b', h', k);
    forall m | m in b'.lasts && m > h'.swept
      ensures exists p: nat :: LastOf(b', h', m, p) && b'.tickets[p] == b'.lasts[m]
    {
      var p: nat :| LastOf(b, h, m, p) && b.tickets[p] == b.lasts[m];
      assert LastOf(b', h', m, p - k);
    }
  }

  /** A sweep keeps the invariant; what it drops are the tickets that expire by this minute, and
      none whose longest lifetime is not over. */
  lemma SweepKeepsInv(b: Book, h: Hist, now: nat)
    requires Inv(b, h) && h.clock <= now
    ensures Inv(Sweep(b, now / 60), Swept(h, now))
    ensures forall t :: t in b.sessions && t !in Sweep(b, now / 60).sessions ==>
              t in h.issued && h.issued[t] + h.lifetime + 60 < now
    ensures now / 60 in b.lasts && b.lasts[now / 60] != 0 ==>
              forall i: nat :: i < |b.tickets| ==>
                (b.tickets[i] in Sweep(b, now / 60).tickets <==> Expiry(b, h, i) > now / 60)
  {
    hide InOrder;
    hide Expiry;
    hide IndexOf;
    hide KeptLongEnough;
    var m, b' := now / 60, Sweep(b, now / 60);
    var k := 0;
    if m in b.lasts && b.lasts[m] != 0 {
      var p := SweepPoint(b, h, m);
      k := p + 1;
    } else {
    }
    assert b'.tickets == b.tickets[k..] && b'.sessions == b.sessions - ToSet(b.tickets[..k]);
    SuffixKeepsOrder(b, h, now, k, b'.lasts);
    SuffixKeepsNamed(b, h, b', now, k);
    SweepEffect(b, h, b', now, k);
  }

  lemma SweepEffect(b: Book, h: Hist, b': Book, now: nat, k: nat)
    requires InOrder(b, h) && KeptLongEnough(b, h) && h.clock <= now && k <= |b.tickets|
    requires b'.tickets == b.tickets[k..] && b'.sessions == b.sessions - ToSet(b.tickets[..k])
    requires forall i: nat :: i < k ==> Expiry(b, h, i) <= now / 60
    ensures KeptLongEnough(b', Swept(h, now))
    ensures forall t :: t in b.sessions && t !in b'.sessions ==> t in h.issued && h.issued[t] + h.lifetime + 60 < now
    ensures forall i: nat :: i < |b.tickets| ==> (b.tickets[i] in b'.tickets <==> i >= k)
  {
    hide Expiry;
    forall i: nat | i < k
      ensures h.issued[b.tickets[i]] + h.lifetime + 60 < now
    {
      ExpiryOver(b, h, i, now);
    }
    forall i: nat | i < |b.tickets|
      ensures b.tickets[i] in b'.tickets <==> i >= k
    {
      if i >= k {
        assert b'.tickets[i - k] == b.tickets[i];
      }
    }
  }

  // ---- Nothing expired is left ----

  /** No listed ticket has expired by the minute of the last sweep. */
  ghost predicate Alive(b: Book, h: Hist)
    requires InOrder(b, h)
  {
    forall i: nat :: i < |b.tickets| ==> Expiry(b, h, i) > h.swept
  }

  lemma IssueKeepsAlive(b: Book, h: Hist, ticket: Ticket, key: nat, now: nat)
    requires Inv(b, h) && Alive(b, h) && h.clock <= now && ticket !in h.issued
    ensures InOrder(Issue(b, h.Minute(now), ticket, key), Issued(h, ticket, now))
    ensures Alive(Issue(b, h.Minute(now), ticket, key), Issued(h, ticket, now))
  {
    IssueKeepsInv(b, h, ticket, key, now);
    hide InOrder;
    hide Expiry;
    hide Hist.Minute;
    MinuteMonotone(h, now, now);
    var b', h' := Issue(b, h.Minute(now), ticket, key), Issued(h, ticket, now);
    forall i: nat | i < |b'.tickets|
      ensures Expiry(b', h', i) > h'.swept
    {
      IssueExpiry(b, h, ticket, key, now, i);
    }
  }

  /** A ticket is named for the minute. */
  predicate Names(b: Book, minute: int) {
    minute in b.lasts && b.lasts[minute] != 0
  }

  lemma NamedSweepClears(b: Book, h: Hist, b': Book, h': Hist, m: int)
    requires InOrder(b, h) && Named(b, h) && InOrder(b', h') && m >= h.swept && Names(b, m)
    requires b' == Sweep(b, m) && h' == h.(clock := h'.clock, swept := m)
    ensures Alive(b', h')
  {
    hide InOrder;
    hide Expiry;
    hide Named;
    hide IndexOf;
    var p := SweepPoint(b, h, m);
    SuffixExpiry(b, h, b', h', p + 1);
  }

  /** A minute that still has to come is named exactly when some ticket expires in it. */
  lemma NamedIffExpires(b: Book, h: Hist, m: int)
    requires InOrder(b, h) && Named(b, h) && m > h.swept
    ensures m in b.lasts <==> exists i: nat :: i < |b.tickets| && Expiry(b, h, i) == m
    ensures m in b.lasts ==> b.lasts[m] in b.tickets
  {
    hide InOrder;
    hide Expiry;
    if m in b.lasts {
      var p: nat :| LastOf(b, h, m, p) && b.tickets[p] == b.lasts[m];
    }
  }

  lemma UnnamedSweepClears(b: Book, h: Hist, b': Book, h': Hist, m: int)
    requires InOrder(b, h) && Named(b, h) && Alive(b, h) && InOrder(b', h') && !Names(b, m)
    requires b'.tickets == b.tickets && h' == h.(clock := h'.clock, swept := m)
    ensures Alive(b', h') <==> forall j :: h.swept < j <= m ==> j !in b.lasts
  {
    hide InOrder;
    hide Expiry;
    hide Named;
    assert b.tickets == b.tickets[0..];
    SuffixExpiry(b, h, b', h', 0);
    assert forall i: nat :: i < |b.tickets| ==> Expiry(b, h, i) == Expiry(b', h', i);
    forall j | j > h.swept && j in b.lasts
      ensures exists i: nat :: i < |b.tickets| && Expiry(b, h, i) == j
    {
      NamedIffExpires(b, h, j);
    }
    forall i: nat | i < |b.tickets|
      ensures Expiry(b, h, i) in b.lasts
    {
      NamedIffExpires(b, h, Expiry(b, h, i));
    }
  }

  /** Right after a sweep that leaves no expired ticket every session is at most two minutes over its
      longest lifetime. */
  lemma AliveIsRecent(b: Book, h: Hist, now: nat)
    requires InOrder(b, h) && Alive(b, h) && h.swept == now / 60
    ensures forall t :: t in b.sessions ==> t in h.issued && now < h.issued[t] + h.lifetime + 120
  {
    forall t | t in b.sessions
      ensures t in h.issued && now < h.issued[t] + h.lifetime + 120
    {
      var i :| 0 <= i < |b.tickets| && b.tickets[i] == t;
      assert Expiry(b, h, i) > now / 60;
    }
  }

  /** A sweep leaves no expired ticket if and only if its minute is named or no minute from the last
      sweep up to it is; a sweeper that skips no minute therefore never leaves one, and then no session
      is two minutes over its longest lifetime. */
  lemma SweepClears(b: Book, h: Hist, now: nat)
    requires Inv(b, h) && Alive(b, h) && h.clock <= now
    ensures InOrder(Sweep(b, now / 60), Swept(h, now))
    ensures Alive(Sweep(b, now / 60), Swept(h, now)) <==>
              Names(b, now / 60) || forall m :: h.swept < m <= now / 60 ==> m !in b.lasts
    ensures now / 60 <= h.swept + 1 && 0 !in b.tickets ==> Alive(Sweep(b, now / 60), Swept(h, now))
    ensures now / 60 <= h.swept + 1 && 0 !in b.tickets ==>
              forall t :: t in Sweep(b, now / 60).sessions ==> t in h.issued && now < h.issued[t] + h.lifetime + 120
  {
    SweepKeepsInv(b, h, now);
    hide InOrder;
    hide Expiry;
    hide IndexOf;
    hide KeptLongEnough;
    var m, b', h' := now / 60, Sweep(b, now / 60), Swept(h, now);
    assert m >= h.swept;
    if m > h.swept {
      NamedIffExpires(b, h, m);
    }
    hide Named;
    if Names(b, m) {
      NamedSweepClears(b, h, b', h', m);
    } else {
      UnnamedSweepClears(b, h, b', h', m);
    }
    if Alive(b', h') {
      AliveIsRecent(b', h', now);
    }
  }

  // ---- The store as an object ----

  class Store {
    const lifetime: nat
    var lasts: map<int, Ticket>
    var tickets: seq<Ticket>
    var sessions: map<Ticket, nat>
    ghost var hist: Hist

    function View(): Book
      reads this
    {
      Book(lasts, tickets, sessions)
    }

    ghost predicate Valid()
      reads this
    {
      hist.lifetime == lifetime && Inv(View(), hist)
    }

    constructor (secondsFrom: nat, secondsTo: nat, now: nat)
      ensures Valid() && View() == Book(map[], [], map[]) && hist.issued == map[] && hist.clock == now
      ensures lifetime == if secondsFrom < secondsTo then secondsTo else secondsFrom
    {
      lifetime := if secondsFrom < secondsTo then secondsTo else secondsFrom;
      lasts, tickets, sessions := map[], [], map[];
      hist := Hist(map[], now, -1, if secondsFrom < secondsTo then secondsTo else secondsFrom);
    }

    /** The end of a 1-RTT handshake at time `now`, with a ticket never issued before. */
    method IssueTicket(ticket: Ticket, key: nat, seconds: int, now: nat)
      requires Valid() && hist.clock <= now && ticket !in hist.issued
      modifies this
      ensures Valid()
      ensures if seconds > 0
              then View() == Issue(old(View()), (now + lifetime) / 60 + 2, ticket, key)
                && hist == Issued(old(hist), ticket, now)
              else View() == old(View()) && hist == old(hist)
      ensures seconds > 0 ==>
                && sessions == old(sessions)[ticket := key] && tickets == old(tickets) + [ticket]
                && lasts == old(lasts)[(now + lifetime) / 60 + 2 := ticket]
    {
      hide Inv;
      if seconds > 0 {
        IssueKeepsInv(View(), hist, ticket, key, now);
        lasts := lasts[(now + lifetime) / 60 + 2 := ticket];
        tickets := tickets + [ticket];
        sessions := sessions[ticket := key];
        hist := Issued(hist, ticket, now);
      }
    }

    /** One round of the sweeper goroutine at time `now`. */
    method SweepOnce(now: nat)
      requires Valid() && hist.clock <= now
      modifies this
      ensures Valid() && View() == Sweep(old(View()), now / 60) && hist == Swept(old(hist), now)
      ensures forall t :: t in old(sessions) && t !in sessions ==> hist.issued[t] + lifetime + 60 < now
    {
      hide Inv;
      hide IndexOf;
      hide Expiry;
      hide ToSet;
      SweepKeepsInv(View(), hist, now);
      var minute := now / 60;
      var last := if minute in lasts then lasts[minute] else 0;
      lasts := lasts - {minute, minute - 1};
      if last != 0 {
        DropThrough(last);
      }
      hist := Swept(hist, now);
    }

    /** The sweeper's loop: delete sessions in issue order up to the ticket `last`. */
    method DropThrough(last: Ticket)
      modifies this`tickets, this`sessions
      ensures var p := IndexOf(old(tickets), last);
              if p < |old(tickets)|
              then tickets == old(tickets)[p + 1..] && sessions == old(sessions) - ToSet(old(tickets)[..p + 1])
              else tickets == old(tickets) && sessions == old(sessions) - ToSet(old(tickets))
    {
      hide IndexOf;
      assert sessions == sessions - ToSet(tickets[..0]);
      for j := 0 to |tickets|
        invariant tickets == old(tickets)
        invariant last !in tickets[..j]
        invariant sessions == old(sessions) - ToSet(tickets[..j])
      {
        assert tickets[..j + 1] == tickets[..j] + [tickets[j]];
        sessions := sessions - {tickets[j]};
        if tickets[j] == last {
          FirstIndex(tickets, last, j);
          tickets := tickets[j + 1..];
          return;
        }
      }
      assert tickets[..|tickets|] == tickets;
    }
  }

  lemma {:induction false} FirstIndex(s: seq<Ticket>, t: Ticket, j: nat)
    requires j < |s| && s[j] == t && t !in s[..j]
    ensures IndexOf(s, t) == j
  {
    if j != 0 {
      assert s[..j] == [s[0]] + s[1..][..j - 1];
      FirstIndex(s[1..], t, j - 1);
    }
  }
}
