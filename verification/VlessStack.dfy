/**
 The two layers of VLESS encryption on top of each other: `CommonConn` writes and reads records over an
 `XorConn` that masks the record headers. The XOR layer finds the headers by itself, from the lengths
 in them and from a number of bytes to skip at the start; its idea of where a header is coincides with
 the record layer's at every moment.
 */
module VlessStack {
  import opened Words
  import opened Basics
  import opened RecordHeader
  import opened Records
  import opened RecordChannel
  import opened RecordTaking
  import X = XorStream

  /** The XOR layer at the start of a header, `pos` bytes of the key stream used. */
  function AtHeader(pos: nat): X.State {
    X.State(0, [], pos)
  }

  /** One record moves the XOR layer from one header to the next, and only its header is masked. */
  lemma RecordAligned(s: Suite, ks: X.KeyStream, a: Aead, chunk: seq<byte>, pos: nat)
    requires Lawful(s) && 1 <= |chunk| <= MAX_CHUNK
    ensures var r := Record(s, a, chunk);
            && |r| >= HEADER_LEN
            && X.After(AtHeader(pos), r) == AtHeader(pos + HEADER_LEN)
            && X.Encode(ks, AtHeader(pos), r) == X.XorSeq(ks, pos, r[..HEADER_LEN]) + r[HEADER_LEN..]
  {
    var st, r := AtHeader(pos), Record(s, a, chunk);
    var h, body := r[..HEADER_LEN], r[HEADER_LEN..];
    assert r == h + body && h == EncodeHeader(|chunk| + 16);
    assert |body| == |chunk| + 16;
    HeaderRoundTrip(|chunk| + 16);
    hide Lawful;
    hide Record;
    hide EncodeHeader;
    X.HeaderThen(ks, st, h, body);
    assert st.header + h == h;
    X.PassThrough(ks, X.AfterHeader(st, h), body);
  }

  /** The wire with the header of each record masked. */
  ghost function Masked(s: Suite, ks: X.KeyStream, a: Aead, chunks: seq<seq<byte>>, pos: nat): seq<byte>
    requires a.Valid() && Chunks(chunks) && Lawful(s)
    decreases |chunks|
  {
    if chunks == [] then []
    else
      var r := Record(s, a, chunks[0]);
      X.XorSeq(ks, pos, r[..HEADER_LEN]) + r[HEADER_LEN..]
      + Masked(s, ks, AfterRecord(s, a, r), chunks[1..], pos + HEADER_LEN)
  }

  /** For any run of records the XOR layer masks exactly the record headers. */
  lemma {:induction false} HeadersCoincide(s: Suite, ks: X.KeyStream, a: Aead, chunks: seq<seq<byte>>, pos: nat)
    requires a.Valid() && Chunks(chunks) && Lawful(s)
    ensures X.After(AtHeader(pos), Wire(s, a, chunks)) == AtHeader(pos + HEADER_LEN * |chunks|)
    ensures X.Encode(ks, AtHeader(pos), Wire(s, a, chunks)) == Masked(s, ks, a, chunks, pos)
    decreases |chunks|
  {
    if chunks != [] {
      var r := Record(s, a, chunks[0]);
      var a1 := AfterRecord(s, a, r);
      RecordAligned(s, ks, a, chunks[0], pos);
      HeadersCoincide(s, ks, a1, chunks[1..], pos + HEADER_LEN);
      hide Lawful;
      hide Record;
      hide AfterRecord;
      X.EncodeSplit(ks, AtHeader(pos), r, Wire(s, a1, chunks[1..]));
    }
  }

  // ---- The stack ----

  /** One direction: the record layer's link, whose `flight` are the plain bytes sent and not yet read;
      the XOR states of the two ends; and the bytes on the connection underneath. */
  datatype Stack = Stack(l: Link, out: X.State, inn: X.State, phys: seq<byte>)

  /** The bytes underneath are the masked flight, the sender's XOR state is the receiver's after it,
      and between two reads the receiver's XOR layer is before a header, or has the lead to skip. */
  ghost predicate Aligned(ks: X.KeyStream, k: Stack, h: Hist, pos: nat) {
    k.out.Valid() && k.inn.Valid() &&
    if k.l.dead && k.l.flight == [] then k.phys == []
    else
      && k.inn == X.State(|h.lead|, [], pos)
      && k.phys == X.Encode(ks, k.inn, k.l.flight)
      && (!k.l.dead ==> k.out == X.After(k.inn, k.l.flight))
  }

  /** `CommonConn.Write` of one record through `XorConn.Write`. */
  ghost function SendX(s: Suite, ks: X.KeyStream, k: Stack, chunk: seq<byte>, cut: Option<nat>): Stack
    requires k.l.tx.Valid() && |chunk| <= MAX_CHUNK && k.out.Valid()
  {
    var bytes := k.l.preWrite + Record(s, k.l.tx, chunk);
    Stack(Send(s, k.l, chunk, cut), X.After(k.out, bytes), k.inn,
          k.phys + if k.l.dead then [] else Cut(X.Encode(ks, k.out, bytes), cut))
  }

  /** `CommonConn.Read` through `XorConn.Read`: it sees the unmasked bytes, and the XOR layer has moved
      over the ones it took. */
  ghost function ReceiveX(s: Suite, ks: X.KeyStream, k: Stack, n: nat, avail: nat, broken: bool): (ReadResult, Stack)
    requires k.inn.Valid() && avail <= |k.phys| && (k.l.rx.Some? ==> k.l.rx.value.Valid())
  {
    var plain := X.Decode(ks, k.inn, k.phys);
    var (r, l') := Receive(s, k.l.(flight := plain), n, avail, broken);
    if r.Fail? then (r, k.(l := l', phys := []))
    else
      var taken := |plain| - |l'.flight|;
      (r, k.(l := l', inn := X.After(k.inn, plain[..taken]), phys := k.phys[taken..]))
  }

  // ---- Writing ----

  lemma EncodeCut(ks: X.KeyStream, st: X.State, b: seq<byte>, cut: Option<nat>)
    requires st.Valid()
    ensures Cut(X.Encode(ks, st, b), cut) == X.Encode(ks, st, Cut(b, cut))
  {
    if cut.Some? && cut.value < |b| {
      assert b == b[..cut.value] + b[cut.value..];
      X.EncodeSplit(ks, st, b[..cut.value], b[cut.value..]);
    }
  }

  lemma SendAligned(s: Suite, ks: X.KeyStream, k: Stack, h: Hist, pos: nat, chunk: seq<byte>, cut: Option<nat>)
    requires Aligned(ks, k, h, pos) && k.l.tx.Valid() && |chunk| <= MAX_CHUNK
    ensures Aligned(ks, SendX(s, ks, k, chunk, cut), SendHist(k.l, h, chunk), pos)
  {
    hide Record;
    hide AfterRecord;
    var bytes := k.l.preWrite + Record(s, k.l.tx, chunk);
    if k.l.dead {
      assert k.l.flight + [] == k.l.flight && k.phys + [] == k.phys;
    } else {
      EncodeCut(ks, k.out, bytes, cut);
      X.EncodeSplit(ks, k.inn, k.l.flight, Cut(bytes, cut));
      assert cut.None? ==> Cut(bytes, cut) == bytes;
    }
  }

  // ---- Reading ----

  /** What a read takes moves the XOR layer over the lead and over one header at most. */
  lemma TookAligned(s: Suite, ks: X.KeyStream, l: Link, h: Hist, l': Link, h': Hist, pos: nat)
    requires Lawful(s) && h.base.Valid() && Chunks(h.pending) && Took(s, l, h, l', h')
    ensures var taken := LeadPart(h, h') + RecordPart(s, h, h');
            var st := X.State(|h.lead|, [], pos);
            X.After(st, taken) ==
            X.State(|h'.lead|, [], if RecordPart(s, h, h') == [] then pos else pos + HEADER_LEN)
  {
    var st, lead, rec := X.State(|h.lead|, [], pos), LeadPart(h, h'), RecordPart(s, h, h');
    X.EncodeSplit(ks, st, lead, rec);
    X.PassThrough(ks, st, lead);
    if rec != [] {
      RecordAligned(s, ks, h.base, h.pending[0], pos);
    }
  }

  /** The XOR layer shows the record layer exactly the plain bytes. */
  lemma Unmasked(ks: X.KeyStream, k: Stack, h: Hist, pos: nat)
    requires Aligned(ks, k, h, pos) && X.Involutive(ks)
    ensures k.inn.Valid() && X.Decode(ks, k.inn, k.phys) == k.l.flight && |k.phys| == |k.l.flight|
  {
    X.RoundTrip(ks, k.inn, k.l.flight);
  }

  lemma ArrivedAligned(s: Suite, ks: X.KeyStream, k: Stack, k': Stack, h: Hist, h': Hist, pos: nat, taken: nat)
    requires Lawful(s) && h.base.Valid() && Chunks(h.pending) && Aligned(ks, k, h, pos)
    requires Took(s, k.l, h, k'.l, h') && taken == |k.l.flight| - |k'.l.flight| && k'.l.dead == k.l.dead
    requires taken <= |k.phys| && k'.out == k.out && k'.phys == k.phys[taken..]
    requires k'.inn == X.After(k.inn, k.l.flight[..taken])
    ensures Aligned(ks, k', h', if RecordPart(s, h, h') == [] then pos else pos + HEADER_LEN)
  {
    var got, rest := LeadPart(h, h') + RecordPart(s, h, h'), k'.l.flight;
    assert k.l.flight == got + rest;
    assert k.l.flight[..taken] == got;
    TookAligned(s, ks, k.l, h, k'.l, h', pos);
    if !(k.l.dead && k.l.flight == []) {
      X.EncodeSplit(ks, k.inn, got, rest);
      assert k.phys[taken..] == X.Encode(ks, k'.inn, rest);
    }
  }

  lemma OverAligned(ks: X.KeyStream, k: Stack, k': Stack, h: Hist, h': Hist, pos: nat)
    requires Aligned(ks, k, h, pos) && k'.l.dead && k'.l.flight == [] && k' == k.(l := k'.l, phys := [])
    ensures Aligned(ks, k', h', pos)
  {
  }

  /** A read through the XOR layer, however the bytes arrive: it fails only when the link is over,
      returns the next bytes, and leaves the layers aligned. */
  lemma ReceiveAligned(s: Suite, ks: X.KeyStream, k: Stack, h: Hist, pos: nat, n: nat, avail: nat, broken: bool)
    returns (h': Hist, pos': nat)
    requires Lawful(s) && X.Involutive(ks) && InStep(s, k.l, h) && Aligned(ks, k, h, pos) && avail <= |k.phys|
    ensures k.l.rx.Some? ==> k.l.rx.value.Valid()
    ensures var (r, k') := ReceiveX(s, ks, k, n, avail, broken);
            && (r.Fail? ==> broken)
            && InStep(s, k'.l, h') && Aligned(ks, k', h', pos')
            && h'.written == h.written
            && h'.delivered == h.delivered + (if r.Got? then r.bytes else [])
            && k'.l.tx == k.l.tx && (k'.l.rx.None? ==> k.l.rx.None? && h'.lead == h.lead)
  {
    hide InStep;
    hide Lawful;
    hide Aligned;
    hide Arrived;
    hide HistAfter;
    hide Took;
    hide X.Involutive;
    hide X.Decode;
    hide X.After;
    StepValid(s, k.l, h);
    Unmasked(ks, k, h, pos);
    assert k.l.(flight := k.l.flight) == k.l;
    ArrivedKeepsStep(s, k.l, h, n, avail);
    ArrivedTakes(s, k.l, h, n, avail);
    RandomPending(s, k.l, h, n, avail);
    h', pos' := HistAfter(s, k.l, h, n, avail), pos;
    var (r, k') := ReceiveX(s, ks, k, n, avail, broken);
    if r.Fail? {
      BrokenKeepsStep(s, Arrived(s, k.l, n, avail).1, h');
      OverAligned(ks, k, k', h, h', pos);
    } else {
      ArrivedAligned(s, ks, k, k', h, h', pos, |k.l.flight| - |k'.l.flight|);
      pos' := if RecordPart(s, h, h') == [] then pos else pos + HEADER_LEN;
    }
  }

  // ---- The handshakes ----

  /** The reader's first bytes while it has no key yet: passed on as they are whatever the key stream,
      which is not moved, so that a client without one never needs it; and they are the server's
      random bytes, from which the client then derives the key stream. */
  lemma NilStreamUnused(s: Suite, ks: X.KeyStream, any: X.KeyStream, k: Stack, h: Hist, pos: nat, m: nat)
    requires InStep(s, k.l, h) && Aligned(ks, k, h, pos) && k.l.rx.None? && m <= 16 && m <= |k.phys|
    ensures |h.lead| == 16 && X.Decode(any, k.inn, k.phys[..m]) == k.phys[..m] == h.lead[..m]
    ensures X.After(k.inn, k.phys[..m]).pos == k.inn.pos
  {
    var first, rest := k.l.flight[..m], k.l.flight[m..];
    assert k.l.flight == first + rest;
    FlightLead(s, k.l, h, m);
    if k.phys != [] {
      X.EncodeSplit(ks, k.inn, first, rest);
      X.PassThrough(ks, k.inn, first);
      X.PassThrough(any, k.inn, first);
      assert k.phys[..m] == first;
    } else {
      assert k.phys[..m] == [] == h.lead[..m];
    }
  }

  lemma FlightLead(s: Suite, l: Link, h: Hist, m: nat)
    requires InStep(s, l, h) && l.rx.None? && m <= 16 && m <= |l.flight|
    ensures |h.lead| == 16 && l.flight[..m] == h.lead[..m]
  {
    hide Wire;
    hide Advance;
    assert l.flight != [] ==> l.flight <= h.lead + Wire(s, h.base, h.pending);
  }

  datatype Start = Shared | ZeroRtt(random: seq<byte>) | OneRtt(pad: seq<byte>)

  /** How a direction starts: both ends hold the same key (client to server, after the hello); a server
      accepting 0-RTT, with skips of 16 on both sides; or a server at the end of a 1-RTT handshake, the
      sealed padding sent past its XOR layer and skipped by the client's. */
  ghost function Begin(s: Suite, a: Aead, how: Start): Stack {
    match how
    case Shared => Stack(Link(a, [], false, [], Some(a), 0, []), AtHeader(0), AtHeader(0), [])
    case ZeroRtt(random) =>
      Stack(Link(NewAead(s, random), random, false, [], None, 0, []), X.State(16, [], 0), X.State(16, [], 0), [])
    case OneRtt(pad) =>
      var sealed := s.seal(a.key, Nonces.Increase(a.nonce), pad, []);
      Stack(Link(Aead(a.key, Nonces.Increase(a.nonce)), [], false, sealed, Some(a), |sealed|, []),
            AtHeader(0), X.State(|sealed|, [], 0), sealed)
  }

  lemma BeginAligned(s: Suite, ks: X.KeyStream, a: Aead, how: Start) returns (h: Hist)
    requires Lawful(s) && a.Valid() && (how.ZeroRtt? ==> |how.random| == 16)
    ensures var k := Begin(s, a, how);
            && InStep(s, k.l, h) && Aligned(ks, k, h, 0)
            && h.written == [] && h.delivered == [] && (how.ZeroRtt? ==> h.lead == how.random)
  {
    match how
    case Shared =>
      StartShared(s, a);
      h := Hist([], a, [], [], []);
    case ZeroRtt(random) =>
      StartZeroRtt(s, random);
      h := Hist(random, NewAead(s, random), [], [], []);
    case OneRtt(pad) =>
      StartOneRtt(s, a, pad);
      var sealed := s.seal(a.key, Nonces.Increase(a.nonce), pad, []);
      h := Hist(sealed, Aead(a.key, Nonces.Increase(a.nonce)), [], [], []);
      hide InStep;
      X.PassThrough(ks, X.State(|sealed|, [], 0), sealed);
  }

  /** A 0-RTT client's hello goes out in front of its first record, past the masking: its XOR layer
      skips exactly the hello, and what follows is masked as from the start. */
  lemma HelloSkipped(ks: X.KeyStream, hello: seq<byte>, rest: seq<byte>)
    ensures X.Encode(ks, X.State(|hello|, [], 0), hello + rest) == hello + X.Encode(ks, AtHeader(0), rest)
    ensures X.After(X.State(|hello|, [], 0), hello + rest) == X.After(AtHeader(0), rest)
  {
    X.PassThen(ks, X.State(|hello|, [], 0), hello, rest);
  }

  // ---- Whole runs ----

  /** One direction in time, with everything written and everything read. */
  datatype Side = Side(k: Stack, written: seq<byte>, got: seq<byte>)

  datatype Action = Write(chunk: seq<byte>, cut: Option<nat>) | Read(n: nat, avail: nat, broken: bool)

  /** In step, aligned, and before the random bytes have been read, still owing them. */
  ghost predicate Good(s: Suite, ks: X.KeyStream, how: Start, d: Side) {
    exists h: Hist, pos: nat :: GoodWith(s, ks, how, d, h, pos)
  }

  ghost predicate GoodWith(s: Suite, ks: X.KeyStream, how: Start, d: Side, h: Hist, pos: nat) {
    && InStep(s, d.k.l, h) && Aligned(ks, d.k, h, pos) && d.k.l.tx.Valid()
    && h.written == d.written && h.delivered == d.got
    && (how.ZeroRtt? && d.k.l.rx.None? ==> h.lead == how.random)
  }

  ghost predicate Enabled(d: Side, a: Action) {
    match a
    case Write(chunk, _) => 1 <= |chunk| <= MAX_CHUNK && d.k.l.tx.Valid() && d.k.out.Valid()
    case Read(_, avail, _) => avail <= |d.k.phys| && d.k.inn.Valid() && (d.k.l.rx.Some? ==> d.k.l.rx.value.Valid())
  }

  ghost function Step(s: Suite, ks: X.KeyStream, d: Side, a: Action): Side
    requires Enabled(d, a)
  {
    match a
    case Write(chunk, cut) =>
      Side(SendX(s, ks, d.k, chunk, cut), if d.k.l.dead then d.written else d.written + chunk, d.got)
    case Read(n, avail, broken) =>
      var (r, k') := ReceiveX(s, ks, d.k, n, avail, broken);
      Side(k', d.written, if r.Got? then d.got + r.bytes else d.got)
  }

  lemma StepKeepsGood(s: Suite, ks: X.KeyStream, how: Start, d: Side, a: Action)
    requires Lawful(s) && X.Involutive(ks) && Good(s, ks, how, d) && Enabled(d, a)
    ensures Good(s, ks, how, Step(s, ks, d, a))
  {
    hide InStep;
    hide Lawful;
    hide Aligned;
    hide X.Involutive;
    var h: Hist, pos: nat :| GoodWith(s, ks, how, d, h, pos);
    var d' := Step(s, ks, d, a);
    match a
    case Write(chunk, cut) =>
      SendKeepsStep(s, d.k.l, h, chunk, cut);
      SendAligned(s, ks, d.k, h, pos, chunk, cut);
      hide SendX;
      assert GoodWith(s, ks, how, d', SendHist(d.k.l, h, chunk), pos);
    case Read(n, avail, broken) =>
      var h', pos' := ReceiveAligned(s, ks, d.k, h, pos, n, avail, broken);
      hide ReceiveX;
      assert GoodWith(s, ks, how, d', h', pos');
  }

  ghost predicate IsRun(s: Suite, ks: X.KeyStream, a: Aead, how: Start, sides: seq<Side>, acts: seq<Action>) {
    && |sides| == |acts| + 1 && sides[0] == Side(Begin(s, a, how), [], [])
    && forall i :: 0 <= i < |acts| ==> Enabled(sides[i], acts[i]) && sides[i + 1] == Step(s, ks, sides[i], acts[i])
  }

  lemma {:induction false} RunGood(
    s: Suite, ks: X.KeyStream, a: Aead, how: Start, sides: seq<Side>, acts: seq<Action>, n: nat)
    requires Lawful(s) && X.Involutive(ks) && a.Valid() && (how.ZeroRtt? ==> |how.random| == 16)
    requires IsRun(s, ks, a, how, sides, acts) && n < |sides|
    ensures Good(s, ks, how, sides[n])
  {
    hide InStep;
    hide Lawful;
    hide Aligned;
    hide X.Involutive;
    hide Step;
    if n == 0 {
      var h := BeginAligned(s, ks, a, how);
      assert GoodWith(s, ks, how, sides[0], h, 0);
    } else {
      RunGood(s, ks, a, how, sides, acts, n - 1);
      hide Good;
      StepKeepsGood(s, ks, how, sides[n - 1], acts[n - 1]);
    }
  }

  /** At every moment of every run any record can be written and any part of what is underneath read. */
  lemma RunGoesOn(
    s: Suite, key: nat -> byte, a: Aead, how: Start, sides: seq<Side>, acts: seq<Action>, n: nat, act: Action)
    requires Lawful(s) && a.Valid() && (how.ZeroRtt? ==> |how.random| == 16)
    requires IsRun(s, X.XorWith(key), a, how, sides, acts) && n < |sides|
    ensures Enabled(sides[n], act) <==>
              match act
              case Write(chunk, _) => 1 <= |chunk| <= 8192
              case Read(_, avail, _) => avail <= |sides[n].k.phys|
  {
    hide InStep;
    hide Lawful;
    hide Step;
    hide X.XorWith;
    X.XorWithInvolutive(key);
    hide X.Involutive;
    RunGood(s, X.XorWith(key), a, how, sides, acts, n);
    var h: Hist, pos: nat :| GoodWith(s, X.XorWith(key), how, sides[n], h, pos);
    StepValid(s, sides[n].k.l, h);
  }

  /** From every start, through the XOR layer with any key stream, under any writes, cuts, arrivals and
      buffer sizes: what has been read is a prefix of what has been written, and reading fails only on a
      link that is over. A 0-RTT client without a key stream reads the server's random bytes as sent. */
  lemma StackFaithful(
    s: Suite, key: nat -> byte, a: Aead, how: Start, sides: seq<Side>, acts: seq<Action>, n: nat)
    requires Lawful(s) && a.Valid() && (how.ZeroRtt? ==> |how.random| == 16)
    requires IsRun(s, X.XorWith(key), a, how, sides, acts) && n < |sides|
    ensures sides[n].got <= sides[n].written
    ensures n < |acts| && acts[n].Read? && !acts[n].broken ==>
              !ReceiveX(s, X.XorWith(key), sides[n].k, acts[n].n, acts[n].avail, false).0.Fail?
    ensures how.ZeroRtt? && sides[n].k.l.rx.None? ==>
              forall any: X.KeyStream, m: nat :: m <= 16 && m <= |sides[n].k.phys| && sides[n].k.inn.Valid() ==>
                X.Decode(any, sides[n].k.inn, sides[n].k.phys[..m]) == how.random[..m]
  {
    hide InStep;
    hide Lawful;
    hide Aligned;
    hide Step;
    hide ReceiveX;
    hide X.Decode;
    hide X.XorWith;
    X.XorWithInvolutive(key);
    hide X.Involutive;
    var ks, d := X.XorWith(key), sides[n];
    RunGood(s, ks, a, how, sides, acts, n);
    var h: Hist, pos: nat :| GoodWith(s, ks, how, d, h, pos);
    DeliveredPrefix(s, d.k.l, h);
    if n < |acts| && acts[n].Read? && !acts[n].broken {
      var h', pos' := ReceiveAligned(s, ks, d.k, h, pos, acts[n].n, acts[n].avail, false);
    }
    if how.ZeroRtt? && d.k.l.rx.None? {
      forall any: X.KeyStream, m: nat | m <= 16 && m <= |d.k.phys| && d.k.inn.Valid()
        ensures X.Decode(any, d.k.inn, d.k.phys[..m]) == how.random[..m]
      {
        NilStreamUnused(s, ks, any, d.k, h, pos, m);
      }
    }
  }

  /** At every moment of every run on a live link with something left to read: once all bytes underneath
      have arrived, a read with a buffer returns at least one byte, whatever the start. */
  lemma StackDelivers(
    s: Suite, key: nat -> byte, a: Aead, how: Start, sides: seq<Side>, acts: seq<Action>, i: nat, n: nat, broken: bool)
    requires Lawful(s) && a.Valid() && (how.ZeroRtt? ==> |how.random| == 16)
    requires IsRun(s, X.XorWith(key), a, how, sides, acts) && i < |sides|
    requires !sides[i].k.l.dead && sides[i].got != sides[i].written && n > 0
    ensures sides[i].k.inn.Valid() && (sides[i].k.l.rx.Some? ==> sides[i].k.l.rx.value.Valid())
    ensures var r := ReceiveX(s, X.XorWith(key), sides[i].k, n, |sides[i].k.phys|, broken).0;
            r.Got? && |r.bytes| >= 1
  {
    hide InStep;
    hide Lawful;
    hide Aligned;
    hide Step;
    hide HasNews;
    hide Receive;
    hide X.Decode;
    hide X.XorWith;
    X.XorWithInvolutive(key);
    hide X.Involutive;
    var ks, d := X.XorWith(key), sides[i];
    RunGood(s, ks, a, how, sides, acts, i);
    var h: Hist, pos: nat :| GoodWith(s, ks, how, d, h, pos);
    StepValid(s, d.k.l, h);
    Unmasked(ks, d.k, h, pos);
    assert d.k.l.(flight := d.k.l.flight) == d.k.l;
    NewsIffUnread(s, d.k.l, h);
    ReceiveDelivers(s, d.k.l, h, n, broken);
  }

  lemma DeliveredPrefix(s: Suite, l: Link, h: Hist)
    requires InStep(s, l, h)
    ensures h.delivered <= h.written
  {
  }
}
