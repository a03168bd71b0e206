/** One direction of a connection: `CommonConn.Write` on one side, `CommonConn.Read` on the other. */
module RecordChannel {
  import opened Words
  import opened Basics
  import opened Nonces
  import opened RecordHeader
  import opened Records

  /** What `Read` returns: bytes, nothing yet because the link has not delivered enough, or an
      error. */
  datatype ReadResult = Got(bytes: seq<byte>) | Stall | Fail

  /** The writer's AEAD and bytes to send first; the bytes sent and not yet read; the reader's
      AEAD, sealed padding to skip, and bytes decrypted but not handed out. `dead` once the link
      has failed. */
  datatype Link = Link(
    tx: Aead, preWrite: seq<byte>, dead: bool,
    flight: seq<byte>,
    rx: Option<Aead>, padding: nat, input: seq<byte>)

  /** History: the bytes that precede the first record, the reader's AEAD at the next record,
      the records not yet read, everything written and everything read. */
  datatype Hist = Hist(
    lead: seq<byte>, base: Aead, pending: seq<seq<byte>>, written: seq<byte>, delivered: seq<byte>)

  /** The reader is ready for the lead: the 16 random bytes it derives its key from, a sealed
      padding, or nothing. */
  ghost predicate Ready(s: Suite, l: Link, h: Hist) {
    match l.rx
    case None => |h.lead| == 16 && l.padding == 0 && l.input == [] && h.base == NewAead(s, h.lead)
    case Some(a) =>
      && a.Valid()
      && |h.lead| == l.padding
      && if l.padding == 0 then h.base == a
         else l.input == [] && h.base == Aead(a.key, Increase(a.nonce)) && IsSealed(s, a, h.lead)
  }

  ghost predicate IsSealed(s: Suite, a: Aead, bytes: seq<byte>) {
    exists p :: bytes == s.seal(a.key, Increase(a.nonce), p, [])
  }

  ghost predicate Carries(s: Suite, l: Link, h: Hist)
    requires h.base.Valid() && Chunks(h.pending)
  {
    if l.preWrite != [] then l.flight == [] && h.pending == [] && l.preWrite == h.lead
    else
      && l.flight <= h.lead + Wire(s, h.base, h.pending)
      && (!l.dead ==> l.flight == h.lead + Wire(s, h.base, h.pending))
  }

  /** The two AEADs are in step and nothing is lost: with the records on the link the reader
      reaches the writer's key and nonce, and the bytes read, kept and on the link are the bytes
      written. After the link has failed the bytes are still a prefix. */
  ghost predicate InStep(s: Suite, l: Link, h: Hist) {
    && h.base.Valid() && Chunks(h.pending)
    && Ready(s, l, h)
    && Carries(s, l, h)
    && (!l.dead ==> l.tx == Advance(s, h.base, h.pending))
    && h.delivered + l.input + Flatten(h.pending) <= h.written
    && (!l.dead ==> h.delivered + l.input + Flatten(h.pending) == h.written)
  }

  /** Both sides hold the same AEAD. */
  lemma StartShared(s: Suite, a: Aead)
    requires a.Valid()
    ensures InStep(s, Link(a, [], false, [], Some(a), 0, []), Hist([], a, [], [], []))
  {
    assert [] + Wire(s, a, []) == [];
  }

  /** A server accepting 0-RTT: 16 random bytes will precede its first record, and the client
      derives the key from them. */
  lemma StartZeroRtt(s: Suite, random: seq<byte>)
    requires |random| == 16
    ensures var a := NewAead(s, random);
            InStep(s, Link(a, random, false, [], None, 0, []), Hist(random, a, [], [], []))
  {
  }

  /** A server that has sent sealed padding at the end of a 1-RTT handshake. */
  lemma StartOneRtt(s: Suite, a: Aead, pad: seq<byte>)
    requires Lawful(s) && a.Valid()
    ensures var sealed, b := s.seal(a.key, Increase(a.nonce), pad, []), Aead(a.key, Increase(a.nonce));
            InStep(s, Link(b, [], false, sealed, Some(a), |sealed|, []), Hist(sealed, b, [], [], []))
  {
    var sealed, b := s.seal(a.key, Increase(a.nonce), pad, []), Aead(a.key, Increase(a.nonce));
    assert sealed + Wire(s, b, []) == sealed;
    assert IsSealed(s, a, sealed);
  }

  // ---- Write ----

  /** One record; with `cut` the link takes only that many bytes and fails. A link that has failed
      takes nothing more, but sealing goes on. */
  function Send(s: Suite, l: Link, chunk: seq<byte>, cut: Option<nat>): Link
    requires l.tx.Valid() && |chunk| <= MAX_CHUNK
  {
    var record := Record(s, l.tx, chunk);
    var out := l.preWrite + record;
    l.(tx := AfterRecord(s, l.tx, record), preWrite := [], dead := l.dead || cut.Some?,
       flight := l.flight + if l.dead then [] else Cut(out, cut))
  }

  function Cut(out: seq<byte>, cut: Option<nat>): seq<byte> {
    if cut.Some? && cut.value < |out| then out[..cut.value] else out
  }

  function SendHist(l: Link, h: Hist, chunk: seq<byte>): Hist {
    if l.dead then h else h.(pending := h.pending + [chunk], written := h.written + chunk)
  }

  lemma SendKeepsStep(s: Suite, l: Link, h: Hist, chunk: seq<byte>, cut: Option<nat>)
    requires Lawful(s) && InStep(s, l, h) && l.tx.Valid() && 1 <= |chunk| <= MAX_CHUNK
    ensures InStep(s, Send(s, l, chunk, cut), SendHist(l, h, chunk))
  {
    if l.dead {
      return;
    }
    Append(s, h.base, h.pending, chunk);
    assert h.delivered + l.input + (Flatten(h.pending) + chunk) == (h.delivered + l.input + Flatten(h.pending)) + chunk;
    SendCarries(s, l, h, chunk, cut);
  }

  lemma SendCarries(s: Suite, l: Link, h: Hist, chunk: seq<byte>, cut: Option<nat>)
    requires h.base.Valid() && Chunks(h.pending) && Chunks(h.pending + [chunk]) && l.tx.Valid() && |chunk| <= MAX_CHUNK
    requires Carries(s, l, h) && !l.dead
    requires Wire(s, h.base, h.pending + [chunk]) == Wire(s, h.base, h.pending) + Record(s, l.tx, chunk)
    ensures Carries(s, Send(s, l, chunk, cut), SendHist(l, h, chunk))
  {
    var out := l.preWrite + Record(s, l.tx, chunk);
    var all := h.lead + Wire(s, h.base, h.pending + [chunk]);
    assert l.flight + out == all;
    var l' := Send(s, l, chunk, cut);
    assert l'.flight <= l.flight + out;
  }

  // ---- Read ----

  /** A step of `Read` that consumes the lead: the next link state, or no progress. */
  datatype Lead = Ahead(l: Link) | Wait | Reject

  predicate SameWriter(l: Link, l': Link) {
    l'.tx == l.tx && l'.preWrite == l.preWrite && l'.dead == l.dead
  }

  /** The client's 0-RTT: the server's 16 random bytes give the peer key. */
  function TakeRandom(s: Suite, l: Link, avail: nat): (r: Lead)
    requires avail <= |l.flight|
    ensures !r.Reject?
    ensures r.Ahead? ==> SameWriter(l, r.l) && r.l.rx.Some? && |l.flight| - avail <= |r.l.flight| <= |l.flight|
    ensures r.Ahead? && (l.rx.Some? ==> l.rx.value.Valid()) ==> r.l.rx.value.Valid()
  {
    if l.rx.Some? then Ahead(l)
    else if avail < 16 then Wait
    else Ahead(l.(rx := Some(NewAead(s, l.flight[..16])), flight := l.flight[16..]))
  }

  /** The client's 1-RTT: the server's padding is opened, which uses one nonce. */
  function TakePadding(s: Suite, l: Link, avail: nat): (r: Lead)
    requires avail <= |l.flight| && l.rx.Some?
    ensures r.Ahead? ==> SameWriter(l, r.l) && r.l.rx.Some? && |l.flight| - avail <= |r.l.flight| <= |l.flight|
    ensures r.Ahead? && l.rx.value.Valid() ==> r.l.rx.value.Valid()
  {
    var a := l.rx.value;
    if l.padding == 0 then Ahead(l)
    else if avail < l.padding then Wait
    else if s.open(a.key, Increase(a.nonce), l.flight[..l.padding], []).None? then Reject
    else Ahead(l.(rx := Some(Aead(a.key, Increase(a.nonce))), padding := 0, flight := l.flight[l.padding..]))
  }

  /** Bytes left over from the last record go first. */
  function TakeInput(l: Link, n: nat): (ReadResult, Link) {
    var k := if n < |l.input| then n else |l.input|;
    (Got(l.input[..k]), l.(input := l.input[k..]))
  }

  /** The next record: header, body, open, new key when the nonce wraps, split if too long. */
  function TakeRecord(s: Suite, l: Link, n: nat, avail: nat): (r: (ReadResult, Link))
    requires avail <= |l.flight| && l.rx.Some? && l.rx.value.Valid()
    ensures SameWriter(l, r.1) && |r.1.flight| <= |l.flight| && r.1.rx.Some?
  {
    if avail < HEADER_LEN then (Stall, l)
    else
      var h := l.flight[..HEADER_LEN];
      match DecodeHeader(h)
      case None => (Fail, l)
      case Some(len) =>
        if avail < HEADER_LEN + len then (Stall, l)
        else
          var a, body := l.rx.value, l.flight[HEADER_LEN..HEADER_LEN + len];
          var l' := l.(rx := Some(AfterRecord(s, a, h + body)), flight := l.flight[HEADER_LEN + len..]);
          match s.open(a.key, Increase(a.nonce), body, h)
          case None => (Fail, l')
          case Some(plain) =>
            if |plain| <= n then (Got(plain), l')
            else (Got(plain[..n]), l'.(input := plain[n..]))
  }

  /** The link is over: what it had let through of an unfinished read is lost. */
  function Broken(l: Link): Link {
    l.(flight := [], dead := true)
  }

  /** `Read` into a buffer of `n` bytes while the link has let `avail` bytes through; with `broken`
      nothing more will come. */
  function Receive(s: Suite, l: Link, n: nat, avail: nat, broken: bool): (r: (ReadResult, Link))
    requires avail <= |l.flight| && (l.rx.Some? ==> l.rx.value.Valid())
    ensures r.1.tx == l.tx && r.1.preWrite == l.preWrite && |r.1.flight| <= |l.flight|
  {
    hide Arrived;
    var (r, l') := Arrived(s, l, n, avail);
    if r.Stall? && broken then (Fail, Broken(l')) else (r, l')
  }

  /** `Read` with what has arrived. */
  function Arrived(s: Suite, l: Link, n: nat, avail: nat): (r: (ReadResult, Link))
    requires avail <= |l.flight| && (l.rx.Some? ==> l.rx.value.Valid())
    ensures SameWriter(l, r.1) && |r.1.flight| <= |l.flight|
  {
    hide TakeRandom;
    hide AfterRandom;
    if n == 0 then (Got([]), l)
    else
      match TakeRandom(s, l, avail)
      case Wait => (Stall, l)
      case Reject => (Fail, l)
      case Ahead(l1) => AfterRandom(s, l1, n, avail - (|l.flight| - |l1.flight|))
  }

  function AfterRandom(s: Suite, l: Link, n: nat, avail: nat): (r: (ReadResult, Link))
    requires avail <= |l.flight| && l.rx.Some? && l.rx.value.Valid()
    ensures SameWriter(l, r.1) && |r.1.flight| <= |l.flight| && r.1.rx.Some?
  {
    hide TakePadding;
    hide AfterLead;
    match TakePadding(s, l, avail)
    case Wait => (Stall, l)
    case Reject => (Fail, l)
    case Ahead(l1) => AfterLead(s, l1, n, avail - (|l.flight| - |l1.flight|))
  }

  function AfterLead(s: Suite, l: Link, n: nat, avail: nat): (r: (ReadResult, Link))
    requires avail <= |l.flight| && l.rx.Some? && l.rx.value.Valid()
    ensures SameWriter(l, r.1) && |r.1.flight| <= |l.flight| && r.1.rx.Some?
  {
    hide TakeRecord;
    if |l.input| > 0 then TakeInput(l, n) else TakeRecord(s, l, n, avail)
  }

  function Deliver(h: Hist, out: seq<byte>): Hist {
    h.(delivered := h.delivered + out)
  }

  lemma RandomKeepsStep(s: Suite, l: Link, h: Hist, avail: nat)
    requires Lawful(s) && InStep(s, l, h) && avail <= |l.flight|
    requires TakeRandom(s, l, avail).Ahead?
    ensures var l' := TakeRandom(s, l, avail).l;
            l'.rx.Some? && InStep(s, l', if l.rx.Some? then h else h.(lead := []))
  {
    if l.rx.None? {
      DropLead(s, l, h);
    }
  }

  lemma PaddingKeepsStep(s: Suite, l: Link, h: Hist, avail: nat)
    requires Lawful(s) && InStep(s, l, h) && avail <= |l.flight| && l.rx.Some?
    ensures !TakePadding(s, l, avail).Reject?
    ensures TakePadding(s, l, avail).Ahead? ==>
              var l' := TakePadding(s, l, avail).l;
              && l'.rx.Some? && l'.padding == 0
              && InStep(s, l', if l.padding == 0 then h else h.(lead := []))
  {
    if l.padding > 0 && avail >= l.padding {
      DropLead(s, l, h);
      assert IsSealed(s, l.rx.value, h.lead);
    }
  }

  /** Once the whole lead has arrived the link starts with it. */
  lemma DropLead(s: Suite, l: Link, h: Hist)
    requires InStep(s, l, h) && 0 < |h.lead| <= |l.flight|
    ensures l.preWrite == [] && l.flight[..|h.lead|] == h.lead
    ensures l.flight[|h.lead|..] <= Wire(s, h.base, h.pending)
    ensures !l.dead ==> l.flight[|h.lead|..] == Wire(s, h.base, h.pending)
  {
    var all := h.lead + Wire(s, h.base, h.pending);
    assert l.flight <= all;
    assert all[|h.lead|..] == Wire(s, h.base, h.pending);
  }

  lemma InputKeepsStep(s: Suite, l: Link, h: Hist, n: nat)
    requires InStep(s, l, h)
    ensures var (r, l') := TakeInput(l, n); r.Got? && InStep(s, l', Deliver(h, r.bytes))
  {
    var k := if n < |l.input| then n else |l.input|;
    assert h.delivered + l.input == (h.delivered + l.input[..k]) + l.input[k..];
  }

  lemma RecordKeepsStep(s: Suite, l: Link, h: Hist, n: nat, avail: nat)
    requires Lawful(s) && InStep(s, l, h) && avail <= |l.flight|
    requires l.rx.Some? && l.padding == 0 && l.input == []
    ensures var (r, l') := TakeRecord(s, l, n, avail);
            && !r.Fail?
            && (r.Stall? ==> l' == l)
            && (r.Got? ==>
                  && h.pending != []
                  && var base' := AfterRecord(s, h.base, Record(s, h.base, h.pending[0]));
                     InStep(s, l', Deliver(h.(base := base', pending := h.pending[1..]), r.bytes)))
  {
    if avail < HEADER_LEN {
    } else {
      PendingHeader(s, l, h);
      if avail >= HEADER_LEN + |h.pending[0]| + 16 {
        RecordArrives(s, l, h, n, avail);
      }
    }
  }

  lemma PendingHeader(s: Suite, l: Link, h: Hist)
    requires Lawful(s) && InStep(s, l, h) && l.rx.Some? && l.padding == 0 && |l.flight| >= HEADER_LEN
    ensures l.preWrite == [] && h.base == l.rx.value && l.flight <= Wire(s, h.base, h.pending)
    ensures !l.dead ==> l.flight == Wire(s, h.base, h.pending)
    ensures h.base.Valid() && Chunks(h.pending)
    ensures h.pending != [] && DecodeHeader(l.flight[..HEADER_LEN]) == Some(|h.pending[0]| + 16)
  {
    hide Lawful;
    hide Wire;
    hide Advance;
    hide Flatten;
    hide DecodeHeader;
    hide EncodeHeader;
    assert h.lead == [] && h.lead + Wire(s, h.base, h.pending) == Wire(s, h.base, h.pending);
    FirstHeader(s, h.base, h.pending, l.flight);
  }

  lemma RecordArrives(s: Suite, l: Link, h: Hist, n: nat, avail: nat)
    requires Lawful(s) && InStep(s, l, h) && avail <= |l.flight|
    requires l.rx.Some? && l.padding == 0 && l.input == []
    requires h.pending != [] && avail >= HEADER_LEN + |h.pending[0]| + 16
    ensures var (r, l') := TakeRecord(s, l, n, avail);
            var base' := AfterRecord(s, h.base, Record(s, h.base, h.pending[0]));
            && r.Got? && InStep(s, l', Deliver(h.(base := base', pending := h.pending[1..]), r.bytes))
            && |r.bytes| == if |h.pending[0]| <= n then |h.pending[0]| else n
  {
    hide Lawful;
    hide InStep;
    hide Record;
    hide AfterRecord;
    hide Wire;
    hide DecodeHeader;
    PendingHeader(s, l, h);
    FirstRecord(s, h.base, h.pending, l.flight);
    TakeRecordIs(s, l, n, avail, h.pending[0]);
    ConsumeRecord(s, l, h, n, l.flight[HEADER_LEN + |h.pending[0]| + 16..]);
  }

  lemma TakeRecordIs(s: Suite, l: Link, n: nat, avail: nat, c: seq<byte>)
    requires HEADER_LEN + |c| + 16 <= avail <= |l.flight| && l.rx.Some? && l.rx.value.Valid() && l.input == []
    requires DecodeHeader(l.flight[..HEADER_LEN]) == Some(|c| + 16)
    requires var h, body := l.flight[..HEADER_LEN], l.flight[HEADER_LEN..HEADER_LEN + |c| + 16];
             s.open(l.rx.value.key, Increase(l.rx.value.nonce), body, h) == Some(c)
    ensures var h, body := l.flight[..HEADER_LEN], l.flight[HEADER_LEN..HEADER_LEN + |c| + 16];
            var k := if |c| <= n then |c| else n;
            TakeRecord(s, l, n, avail) ==
            (Got(c[..k]), l.(rx := Some(AfterRecord(s, l.rx.value, h + body)),
                             flight := l.flight[HEADER_LEN + |c| + 16..], input := c[k..]))
  {
    assert |c| <= n ==> c[..|c|] == c && c[|c|..] == [];
  }

  /** The first pending record moves from the link to the reader. */
  lemma ConsumeRecord(s: Suite, l: Link, h: Hist, n: nat, rest: seq<byte>)
    requires InStep(s, l, h) && l.rx.Some? && l.padding == 0 && l.input == [] && h.pending != []
    requires var a := AfterRecord(s, h.base, Record(s, h.base, h.pending[0]));
             && rest <= Wire(s, a, h.pending[1..])
             && (!l.dead ==> rest == Wire(s, a, h.pending[1..]))
    requires l.preWrite == []
    ensures var c := h.pending[0];
            var a := AfterRecord(s, h.base, Record(s, h.base, c));
            var k := if |c| <= n then |c| else n;
            InStep(s, l.(rx := Some(a), flight := rest, input := c[k..]),
                   Deliver(h.(base := a, pending := h.pending[1..]), c[..k]))
  {
    var c := h.pending[0];
    var k := if |c| <= n then |c| else n;
    var rests := Flatten(h.pending[1..]);
    assert h.delivered + [] + (c + rests) == (h.delivered + c[..k]) + c[k..] + rests;
  }

  lemma BrokenKeepsStep(s: Suite, l: Link, h: Hist)
    requires InStep(s, l, h)
    ensures InStep(s, Broken(l), h)
  {
    hide Wire;
    hide Advance;
  }

  /** `Read` fails on a link in step only when the link is over, keeps it in step, and hands out the
      next bytes. */
  lemma ReceiveKeepsStep(s: Suite, l: Link, h: Hist, n: nat, avail: nat, broken: bool) returns (h': Hist)
    requires Lawful(s) && InStep(s, l, h) && avail <= |l.flight|
    ensures var (r, l') := Receive(s, l, n, avail, broken);
            && (r.Fail? ==> broken)
            && InStep(s, l', h')
            && h'.written == h.written
            && h'.delivered == h.delivered + if r.Got? then r.bytes else []
  {
    assert l.rx.Some? ==> l.rx.value.Valid();
    hide InStep;
    hide Lawful;
    ArrivedKeepsStep(s, l, h, n, avail);
    hide Arrived;
    hide HistAfter;
    h' := HistAfter(s, l, h, n, avail);
    BrokenKeepsStep(s, Arrived(s, l, n, avail).1, h');
  }

  /** The history after a read: the lead used up, a record taken off, bytes delivered. */
  ghost function HistAfter(s: Suite, l: Link, h: Hist, n: nat, avail: nat): Hist
    requires avail <= |l.flight| && (l.rx.Some? ==> l.rx.value.Valid()) && h.base.Valid() && Chunks(h.pending)
  {
    hide TakeRandom;
    hide RandomHist;
    var t := TakeRandom(s, l, avail);
    if n == 0 || !t.Ahead? then h
    else RandomHist(s, t.l, if l.rx.Some? then h else h.(lead := []), n, avail - (|l.flight| - |t.l.flight|))
  }

  ghost function RandomHist(s: Suite, l: Link, h: Hist, n: nat, avail: nat): Hist
    requires avail <= |l.flight| && l.rx.Some? && l.rx.value.Valid() && h.base.Valid() && Chunks(h.pending)
  {
    hide TakePadding;
    hide LeadHist;
    var t := TakePadding(s, l, avail);
    if !t.Ahead? then h
    else LeadHist(s, t.l, if l.padding == 0 then h else h.(lead := []), n, avail - (|l.flight| - |t.l.flight|))
  }

  ghost function LeadHist(s: Suite, l: Link, h: Hist, n: nat, avail: nat): Hist
    requires avail <= |l.flight| && l.rx.Some? && l.rx.value.Valid() && h.base.Valid() && Chunks(h.pending)
  {
    hide TakeRecord;
    if |l.input| > 0 then Deliver(h, TakeInput(l, n).0.bytes)
    else
      var r := TakeRecord(s, l, n, avail).0;
      if !r.Got? || h.pending == [] then h
      else
        var base' := AfterRecord(s, h.base, Record(s, h.base, h.pending[0]));
        Deliver(h.(base := base', pending := h.pending[1..]), r.bytes)
  }

  /** A read in step: what it returns and the link and history after it. */
  ghost predicate Follows(s: Suite, h: Hist, r: ReadResult, l': Link, h': Hist) {
    && !r.Fail? && InStep(s, l', h') && h'.written == h.written
    && h'.delivered == h.delivered + if r.Got? then r.bytes else []
  }

  lemma StepValid(s: Suite, l: Link, h: Hist)
    requires InStep(s, l, h)
    ensures h.base.Valid() && Chunks(h.pending) && (l.rx.Some? ==> l.rx.value.Valid())
  {
  }

  lemma ArrivedKeepsStep(s: Suite, l: Link, h: Hist, n: nat, avail: nat)
    requires Lawful(s) && InStep(s, l, h) && avail <= |l.flight|
    ensures h.base.Valid() && Chunks(h.pending) && (l.rx.Some? ==> l.rx.value.Valid())
    ensures var (r, l') := Arrived(s, l, n, avail); Follows(s, h, r, l', HistAfter(s, l, h, n, avail))
  {
    hide InStep;
    hide Lawful;
    StepValid(s, l, h);
    hide TakeRandom;
    hide AfterRandom;
    hide RandomHist;
    if n != 0 && TakeRandom(s, l, avail).Ahead? {
      RandomKeepsStep(s, l, h, avail);
      var l1 := TakeRandom(s, l, avail).l;
      var h1 := if l.rx.Some? then h else h.(lead := []);
      RandomStep(s, l1, h1, n, avail - (|l.flight| - |l1.flight|));
    }
  }

  lemma RandomStep(s: Suite, l: Link, h: Hist, n: nat, avail: nat)
    requires Lawful(s) && InStep(s, l, h) && avail <= |l.flight| && l.rx.Some?
    ensures h.base.Valid() && Chunks(h.pending) && l.rx.value.Valid()
    ensures var (r, l') := AfterRandom(s, l, n, avail); Follows(s, h, r, l', RandomHist(s, l, h, n, avail))
  {
    hide InStep;
    hide Lawful;
    StepValid(s, l, h);
    hide TakePadding;
    hide AfterLead;
    hide LeadHist;
    PaddingKeepsStep(s, l, h, avail);
    if TakePadding(s, l, avail).Ahead? {
      var l1 := TakePadding(s, l, avail).l;
      var h1 := if l.padding == 0 then h else h.(lead := []);
      LeadStep(s, l1, h1, n, avail - (|l.flight| - |l1.flight|));
    }
  }

  lemma LeadStep(s: Suite, l: Link, h: Hist, n: nat, avail: nat)
    requires Lawful(s) && InStep(s, l, h) && avail <= |l.flight| && l.rx.Some? && l.padding == 0
    ensures h.base.Valid() && Chunks(h.pending) && l.rx.value.Valid()
    ensures var (r, l') := AfterLead(s, l, n, avail); Follows(s, h, r, l', LeadHist(s, l, h, n, avail))
  {
    hide InStep;
    hide Lawful;
    StepValid(s, l, h);
    hide TakeRecord;
    if |l.input| > 0 {
      InputKeepsStep(s, l, h, n);
    } else {
      RecordKeepsStep(s, l, h, n, avail);
    }
  }

  // ---- The connection as an object ----

  /** Nonces used so far, counted from a fresh key, and the keys they were used under. */
  datatype Log = Log(start: nat, epoch: nat, uses: seq<Use>, keys: seq<Key>)

  ghost predicate Logged(a: Aead, g: Log) {
    && a.Valid()
    && |g.keys| == g.epoch + 1 && g.keys[g.epoch] == a.key
    && g.start + |g.uses| == g.epoch * PERIOD + Value(a.nonce)
    && forall i :: 0 <= i < |g.uses| ==> IsUse(g.uses[i], g.start + i)
  }

  /** One record `r` sealed: the use goes down, and after the last nonce of a key comes the key derived
      from the record. */
  ghost function LogSeal(s: Suite, a: Aead, g: Log, r: seq<byte>): Log {
    var over := a.nonce == [255, 255, 255, 255, 255, 255, 255, 255, 255, 255, 255, 255];
    g.(epoch := if over then g.epoch + 1 else g.epoch,
       uses := g.uses + [Use(g.epoch, Increase(a.nonce))],
       keys := if over then g.keys + [s.derive(r)] else g.keys)
  }

  lemma SealKeepsLog(s: Suite, a: Aead, g: Log, r: seq<byte>)
    requires Logged(a, g)
    ensures Logged(AfterRecord(s, a, r), LogSeal(s, a, g, r))
  {
    assert MAX_NONCE == [255, 255, 255, 255, 255, 255, 255, 255, 255, 255, 255, 255];
    hide Increase;
    hide Value;
    hide IsUse;
    NextUse(a.nonce, g.start + |g.uses|, g.epoch);
    ZeroValue(NONCE_LEN);
  }

  /** No nonce is used twice under one key. */
  lemma NoNonceReuse(a: Aead, g: Log, i: nat, j: nat)
    requires Logged(a, g) && i < j < |g.uses|
    ensures g.uses[i] != g.uses[j]
  {
    assert IsUse(g.uses[i], g.start + i) && IsUse(g.uses[j], g.start + j);
  }

  /** The records a write is cut into. */
  ghost function Split(b: seq<byte>): (chunks: seq<seq<byte>>)
    requires b != []
    ensures Chunks(chunks)
    decreases |b|
  {
    if |b| <= 8192 then [b] else [b[..8192]] + Split(b[8192..])
  }

  lemma SplitNext(b: seq<byte>)
    requires b != []
    ensures if |b| <= 8192 then Split(b) == [b] else Split(b) == [b[..8192]] + Split(b[8192..])
  {
  }

  /** From `l` on, a live link has taken what was to go first and the records of `chunks`. */
  ghost predicate Sent(s: Suite, l: Link, l': Link, chunks: seq<seq<byte>>) {
    && Chunks(chunks) && l.tx.Valid() && l'.preWrite == []
    && l'.tx == Advance(s, l.tx, chunks) && l'.flight == l.flight + l.preWrite + Wire(s, l.tx, chunks)
  }

  lemma SentMore(s: Suite, l: Link, m: Link, done: seq<seq<byte>>, chunk: seq<byte>)
    requires Sent(s, l, m, done) && m.tx.Valid() && 1 <= |chunk| <= MAX_CHUNK && !m.dead
    ensures Sent(s, l, Send(s, m, chunk, None), done + [chunk])
  {
    hide Record;
    hide AfterRecord;
    Append(s, l.tx, done, chunk);
    hide Wire;
    hide Advance;
    var r := Record(s, m.tx, chunk);
    assert [] + r == r;
    assert (l.flight + l.preWrite + Wire(s, l.tx, done)) + r == l.flight + l.preWrite + (Wire(s, l.tx, done) + r);
  }

  lemma SentFirst(s: Suite, l: Link, m: Link, chunk: seq<byte>)
    requires l.tx.Valid() && m.flight == l.flight && m.preWrite == l.preWrite && m.tx == l.tx
    requires 1 <= |chunk| <= MAX_CHUNK && !m.dead
    ensures Sent(s, l, Send(s, m, chunk, None), [chunk])
  {
    hide Record;
    hide AfterRecord;
    Append(s, l.tx, [], chunk);
    assert [] + [chunk] == [chunk];
    var r := Record(s, m.tx, chunk);
    assert l.flight + (l.preWrite + r) == l.flight + l.preWrite + ([] + r);
  }

  /** The first `k` bytes of a write have gone out as the records `done`. */
  ghost predicate Wrote(s: Suite, l: Link, m: Link, b: seq<byte>, k: nat, done: seq<seq<byte>>) {
    && b != [] && k <= |b|
    && Split(b) == (if k < |b| then done + Split(b[k..]) else done)
    && if k == 0 then done == [] && m.flight == l.flight && m.preWrite == l.preWrite && m.tx == l.tx
       else Sent(s, l, m, done)
  }

  lemma SplitMore(b: seq<byte>, k: nat, done: seq<seq<byte>>, len: nat)
    requires k < |b| && len == (if |b| - k > MAX_CHUNK then MAX_CHUNK else |b| - k)
    ensures done + Split(b[k..]) ==
            done + [b[k..k + len]] + if k + len < |b| then Split(b[k + len..]) else []
  {
    SplitNext(b[k..]);
    assert b[k..][..len] == b[k..k + len];
    if k + len < |b| {
      assert b[k..][len..] == b[k + len..];
      assert done + ([b[k..k + len]] + Split(b[k + len..])) == done + [b[k..k + len]] + Split(b[k + len..]);
    } else {
      assert b[k..k + len] == b[k..];
      assert done + [b[k..]] == done + [b[k..k + len]] + [];
    }
  }

  lemma WroteMore(s: Suite, l: Link, m: Link, b: seq<byte>, k: nat, done: seq<seq<byte>>, len: nat)
    requires Wrote(s, l, m, b, k, done) && k < |b| && l.tx.Valid() && m.tx.Valid() && !m.dead
    requires len == if |b| - k > MAX_CHUNK then MAX_CHUNK else |b| - k
    ensures Wrote(s, l, Send(s, m, b[k..k + len], None), b, k + len, done + [b[k..k + len]])
  {
    hide Send;
    hide Sent;
    hide Split;
    SplitMore(b, k, done, len);
    var chunk := b[k..k + len];
    assert done + [chunk] + [] == done + [chunk];
    if k == 0 {
      SentFirst(s, l, m, chunk);
      assert done + [chunk] == [chunk];
    } else {
      SentMore(s, l, m, done, chunk);
    }
  }

  lemma WroteNothing(s: Suite, l: Link, b: seq<byte>)
    requires b != []
    ensures Wrote(s, l, l, b, 0, [])
  {
    assert b[0..] == b && [] + Split(b) == Split(b);
  }

  lemma WroteAll(s: Suite, l: Link, m: Link, b: seq<byte>, done: seq<seq<byte>>)
    requires Wrote(s, l, m, b, |b|, done) && l.tx.Valid()
    ensures m.flight == l.flight + l.preWrite + Wire(s, l.tx, Split(b)) && m.preWrite == []
  {
  }

  class Channel {
    const s: Suite
    var tx: Aead
    var preWrite: seq<byte>
    var dead: bool
    var flight: seq<byte>
    var rx: Option<Aead>
    var padding: nat
    var input: seq<byte>
    ghost var hist: Hist
    ghost var log: Log

    function View(): Link
      reads this
    {
      Link(tx, preWrite, dead, flight, rx, padding, input)
    }

    ghost predicate Valid()
      reads this
    {
      Lawful(s) && tx.Valid() && InStep(s, View(), hist) && Logged(tx, log)
    }

    constructor (s: Suite, l: Link, ghost h: Hist, ghost g: Log)
      requires Lawful(s) && InStep(s, l, h) && Logged(l.tx, g)
      ensures Valid() && this.s == s && View() == l && hist == h && log == g
    {
      this.s := s;
      tx, preWrite, dead, flight, rx, padding, input :=
        l.tx, l.preWrite, l.dead, l.flight, l.rx, l.padding, l.input;
      hist, log := h, g;
    }

    method WriteRecord(chunk: seq<byte>, cut: Option<nat>)
      requires Valid() && 1 <= |chunk| <= MAX_CHUNK
      modifies this
      ensures Valid() && View() == Send(s, old(View()), chunk, cut) && dead == (old(dead) || cut.Some?)
      ensures !old(dead) && cut.Some? ==>
                var out := old(preWrite) + Record(s, old(tx), chunk);
                flight == old(flight) + out[..if cut.value < |out| then cut.value else |out|]
      ensures hist.written == (if old(dead) then old(hist.written) else old(hist.written) + chunk)
      ensures hist.delivered == old(hist.delivered)
      ensures log == LogSeal(s, old(tx), old(log), Record(s, old(tx), chunk))
    {
      hide InStep;
      hide Logged;
      hide Lawful;
      hide AfterRecord;
      hide Record;
      SendKeepsStep(s, View(), hist, chunk, cut);
      var record := Record(s, tx, chunk);
      SealKeepsLog(s, tx, log, record);
      var out := preWrite + record;
      hist, log := SendHist(View(), hist, chunk), LogSeal(s, tx, log, record);
      tx, preWrite := AfterRecord(s, tx, record), [];
      assert dead ==> flight + [] == flight;
      if !dead {
        flight, dead := flight + Cut(out, cut), cut.Some?;
      }
    }

    /** Splits `b` into records of at most 8192 bytes, behind the bytes to send first. The link may fail at
        record `failAt`, after `cut` bytes of it; once it has failed, writing goes on failing. */
    method Write(b: seq<byte>, failAt: Option<nat>, cut: nat) returns (n: nat, err: bool)
      requires Valid()
      modifies this
      ensures Valid() && (old(dead) ==> dead)
      ensures err == (dead && b != [])
      ensures !err ==> n == |b| && hist.written == old(hist.written) + b
      ensures err ==> n == 0 && hist.written <= old(hist.written) + b
      ensures hist.delivered == old(hist.delivered)
      ensures b != [] && !dead ==>
                flight == old(flight) + old(preWrite) + Wire(s, old(tx), Split(b)) && preWrite == []
    {
      hide InStep;
      hide Logged;
      hide Lawful;
      hide LogSeal;
      hide Record;
      hide AfterRecord;
      hide Send;
      hide SendHist;
      hide Wire;
      var k, record := 0, 0;
      ghost var done: seq<seq<byte>> := [];
      hide Wrote;
      hide Split;
      if b != [] {
        WroteNothing(s, View(), b);
      }
      while k < |b|
        invariant 0 <= k <= |b| && Valid() && (k > 0 ==> !dead) && dead == old(dead)
        invariant hist.written == old(hist.written) + b[..k]
        invariant hist.delivered == old(hist.delivered)
        invariant b != [] ==> Wrote(s, old(View()), View(), b, k, done)
      {
        var len := if |b| - k > MAX_CHUNK then MAX_CHUNK else |b| - k;
        var fails := failAt == Some(record);
        ghost var before := View();
        WriteRecord(b[k..k + len], if fails then Some(cut) else None);
        assert hist.written == old(hist.written) + b[..k + len] || old(dead) by {
          assert b[..k + len] == b[..k] + b[k..k + len];
        }
        if dead {
          return 0, true;
        }
        WroteMore(s, old(View()), before, b, k, done, len);
        done := done + [b[k..k + len]];
        k, record := k + len, record + 1;
      }
      assert b[..k] == b;
      if b != [] {
        WroteAll(s, old(View()), View(), b, done);
      }
      return |b|, false;
    }

    /** Reads into a buffer of `n` bytes while the link has let `avail` bytes through. Whatever
        the calls before, what has been read is a prefix of what has been written. */
    method Read(n: nat, avail: nat, broken: bool) returns (r: ReadResult)
      requires Valid() && avail <= |flight|
      modifies this
      ensures Valid() && (r.Fail? ==> broken)
      ensures (r, View()) == Receive(s, old(View()), n, avail, broken)
      ensures hist.written == old(hist.written) && log == old(log)
      ensures hist.delivered == old(hist.delivered) + if r.Got? then r.bytes else []
      ensures hist.delivered <= hist.written
    {
      hide Logged;
      hide Lawful;
      hide Receive;
      ghost var h' := ReceiveKeepsStep(s, View(), hist, n, avail, broken);
      var res := Receive(s, View(), n, avail, broken);
      r := res.0;
      var l := res.1;
      rx, padding, input, flight, dead := l.rx, l.padding, l.input, l.flight, l.dead;
      hist := h';
    }
  }
}
