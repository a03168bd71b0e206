/**
 Naive's padding: the first eight writes travel as frames, a length, a padding size, the data and the
 padding; after that the stream is raw. The reader undoes this whatever the sizes of its buffers and
 however short the reads underneath are.
 */
module NaivePadding {
  import opened Words
  import opened Basics

  const PADDING_COUNT := 8
  const MAX_CHUNK := 65535

  /** The reader: padded frames begun, data and padding left of the current one. */
  datatype Reader = Reader(frames: nat, data: nat, pad: nat)

  // ---- What a wire means ----

  function Frame(data: seq<byte>, pad: nat): (f: seq<byte>)
    requires |data| <= MAX_CHUNK && pad < 256
    ensures |f| == 3 + |data| + pad
  {
    [(|data| / 256) as byte, (|data| % 256) as byte, pad as byte] + data + seq(pad, _ => 0 as byte)
  }

  function DataSize(header: seq<byte>): nat
    requires |header| >= 3
  {
    header[0] as nat * 256 + header[1] as nat
  }

  /** The data a reader in this state would get out of these bytes and no more. */
  ghost function Payload(r: Reader, wire: seq<byte>): seq<byte>
    decreases |wire|
  {
    if r.data > 0 then
      if |wire| <= r.data then wire else wire[..r.data] + Payload(r.(data := 0), wire[r.data..])
    else if r.pad > 0 then
      if |wire| < r.pad then [] else Payload(r.(pad := 0), wire[r.pad..])
    else if r.frames < PADDING_COUNT then
      if |wire| < 3 then [] else Payload(Reader(r.frames + 1, DataSize(wire), wire[2] as nat), wire[3..])
    else wire
  }

  /** The bytes end between two frames, `sent` of them begun so far, or the stream is raw by now. */
  ghost predicate Whole(r: Reader, wire: seq<byte>, sent: nat)
    decreases |wire|
  {
    if r.data > 0 then
      |wire| >= r.data && Whole(r.(data := 0), wire[r.data..], sent)
    else if r.pad > 0 then
      |wire| >= r.pad && Whole(r.(pad := 0), wire[r.pad..], sent)
    else if r.frames < PADDING_COUNT then
      if wire == [] then sent == r.frames
      else |wire| >= 3 && Whole(Reader(r.frames + 1, DataSize(wire), wire[2] as nat), wire[3..], sent)
    else sent == PADDING_COUNT
  }

  // ---- Reading ----

  /** One call of a reader: `out` is the next part of the payload. */
  ghost predicate HandsOut(r: Reader, wire: seq<byte>, out: seq<byte>, r': Reader, wire': seq<byte>) {
    Payload(r, wire) == out + Payload(r', wire')
  }

  /** And the rest stays in step with the writer. */
  ghost predicate Receives(r: Reader, wire: seq<byte>, out: seq<byte>, r': Reader, wire': seq<byte>) {
    && HandsOut(r, wire, out, r', wire')
    && forall q :: Whole(r, wire, q) ==> Whole(r', wire', q)
  }

  /** `n` bytes of the current frame's data. */
  lemma ReceiveData(r: Reader, wire: seq<byte>, n: nat)
    requires n <= r.data && n <= |wire|
    ensures Receives(r, wire, wire[..n], r.(data := r.data - n), wire[n..])
  {
    var r', rest := r.(data := r.data - n), wire[n..];
    if r.data > n {
      assert |wire| > r.data ==>
               rest[r.data - n..] == wire[r.data..] && wire[..n] + rest[..r.data - n] == wire[..r.data];
      assert |wire| == r.data ==> rest[r.data - n..] == wire[r.data..];
    } else if n == 0 {
      assert rest == wire;
    } else if |wire| == n {
      PayloadEmpty(r');
      assert wire[..n] + [] == wire;
    }
  }

  /** The last bytes of a stream, inside a frame's data: they are all the payload there is. */
  lemma ReceiveLast(r: Reader, wire: seq<byte>)
    requires |wire| <= r.data
    ensures Payload(r, wire) == wire
  {
    if r.data == 0 {
      PayloadEmpty(r);
    }
  }

  lemma PayloadEmpty(r: Reader)
    ensures Payload(r, []) == []
  {
  }

  /** The padding behind the data, or a stream that ends inside it. */
  lemma ReceivePad(r: Reader, wire: seq<byte>)
    requires r.data == 0
    ensures if |wire| >= r.pad then Receives(r, wire, [], r.(pad := 0), wire[r.pad..]) else Receives(r, wire, [], r, [])
  {
    if r.pad == 0 {
      assert wire[0..] == wire && r.(pad := 0) == r;
    } else if |wire| < r.pad {
      PayloadEmpty(r);
    }
  }

  /** The header of the next frame, a stream that ends inside it or one that ends right behind it. */
  lemma ReceiveHeader(r: Reader, wire: seq<byte>)
    requires r.data == 0 && r.pad == 0 && r.frames < PADDING_COUNT
    ensures |wire| >= 3 ==>
              Receives(r, wire, [], Reader(r.frames + 1, DataSize(wire), wire[2] as nat), wire[3..])
    ensures |wire| < 3 || (|wire| == 3 && DataSize(wire) > 0) ==> Receives(r, wire, [], r, [])
  {
    PayloadEmpty(r);
    if |wire| >= 3 {
      PayloadEmpty(Reader(r.frames + 1, DataSize(wire), wire[2] as nat));
      assert |wire| == 3 ==> wire[3..] == [];
    }
  }

  /** `n` bytes of the raw stream. */
  lemma ReceiveRaw(r: Reader, wire: seq<byte>, n: nat)
    requires r.data == 0 && r.pad == 0 && r.frames >= PADDING_COUNT && n <= |wire|
    ensures Receives(r, wire, wire[..n], r, wire[n..])
  {
  }

  // ---- Writing ----

  lemma OneFrame(k: nat, data: seq<byte>, pad: nat)
    requires |data| <= MAX_CHUNK && pad < 256 && k < PADDING_COUNT
    ensures Payload(Reader(k, 0, 0), Frame(data, pad)) == data
    ensures Whole(Reader(k, 0, 0), Frame(data, pad), k + 1)
  {
    var f := Frame(data, pad);
    var r1 := Reader(k + 1, |data|, pad);
    var tail := f[3..];
    assert DataSize(f) == |data|;
    assert tail == data + f[3 + |data|..];
    ReceiveData(r1, tail, |data|);
    assert tail[|data|..] == f[3 + |data|..];
    var rest, r2 := f[3 + |data|..], Reader(k + 1, 0, pad);
    if pad > 0 {
      assert rest[pad..] == [];
    } else {
      assert rest == [];
    }
    PayloadEmpty(Reader(k + 1, 0, 0));
    assert Whole(Reader(k + 1, 0, 0), [], k + 1);
    assert Whole(r2, rest, k + 1);
    assert Payload(r2, rest) == [];
    if |data| > 0 {
      assert tail[|data|..] == rest;
    } else {
      assert tail == rest;
    }
  }

  /** One more piece behind a wire leaves the parse of the wire as it was. */
  lemma BehindData(r: Reader, wire: seq<byte>, more: seq<byte>, sent: nat)
    requires r.data > 0 && |wire| >= r.data
    ensures Payload(r, wire + more) == wire[..r.data] + Payload(r.(data := 0), wire[r.data..] + more)
    ensures Whole(r, wire + more, sent) <==> Whole(r.(data := 0), wire[r.data..] + more, sent)
  {
    assert (wire + more)[..r.data] == wire[..r.data] && (wire + more)[r.data..] == wire[r.data..] + more;
    if |wire + more| == r.data {
      PayloadEmpty(r.(data := 0));
      assert wire[r.data..] + more == [] && wire + more == wire[..r.data] + [];
    }
  }

  lemma BehindPad(r: Reader, wire: seq<byte>, more: seq<byte>, sent: nat)
    requires r.data == 0 && r.pad > 0 && |wire| >= r.pad
    ensures Payload(r, wire + more) == Payload(r.(pad := 0), wire[r.pad..] + more)
    ensures Whole(r, wire + more, sent) <==> Whole(r.(pad := 0), wire[r.pad..] + more, sent)
  {
    assert (wire + more)[r.pad..] == wire[r.pad..] + more;
  }

  lemma BehindHeader(r: Reader, wire: seq<byte>, more: seq<byte>, sent: nat)
    requires r.data == 0 && r.pad == 0 && r.frames < PADDING_COUNT && |wire| >= 3
    ensures var r' := Reader(r.frames + 1, DataSize(wire), wire[2] as nat);
            && Payload(r, wire + more) == Payload(r', wire[3..] + more)
            && (Whole(r, wire + more, sent) <==> Whole(r', wire[3..] + more, sent))
  {
    assert (wire + more)[3..] == wire[3..] + more;
    assert DataSize(wire + more) == DataSize(wire);
  }

  /** `more` adds `data` to the payload and moves the writer from `sent` to `sent'` in every state a
      reader can be in between two frames. */
  ghost predicate Adds(more: seq<byte>, data: seq<byte>, sent: nat, sent': nat) {
    forall r: Reader {:trigger Payload(r, more)} :: r.data == 0 && r.pad == 0 ==>
      && (r.frames == sent < PADDING_COUNT ==> Payload(r, more) == data && Whole(r, more, sent'))
      && (r.frames >= PADDING_COUNT && sent == PADDING_COUNT ==> more == data && sent' == PADDING_COUNT)
  }

  /** A piece sent behind whole frames adds its data to what the reader gets. */
  lemma {:induction false} SendBehind(r: Reader, wire: seq<byte>, more: seq<byte>, data: seq<byte>, sent: nat,
                                      sent': nat)
    requires Adds(more, data, sent, sent') && Whole(r, wire, sent)
    ensures Payload(r, wire + more) == Payload(r, wire) + data
    ensures Whole(r, wire + more, sent')
    decreases |wire|
  {
    hide Adds;
    if r.data > 0 {
      AlsoAlone(wire, r.data);
      BehindData(r, wire, more, sent');
      BehindData(r, wire, [], sent);
      hide Payload;
      hide Whole;
      SendBehind(r.(data := 0), wire[r.data..], more, data, sent, sent');
    } else if r.pad > 0 {
      AlsoAlone(wire, r.pad);
      BehindPad(r, wire, more, sent');
      BehindPad(r, wire, [], sent);
      hide Payload;
      hide Whole;
      SendBehind(r.(pad := 0), wire[r.pad..], more, data, sent, sent');
    } else if r.frames < PADDING_COUNT && wire != [] {
      AlsoAlone(wire, 3);
      BehindHeader(r, wire, more, sent');
      BehindHeader(r, wire, [], sent);
      hide Payload;
      hide Whole;
      SendBehind(Reader(r.frames + 1, DataSize(wire), wire[2] as nat), wire[3..], more, data, sent, sent');
    } else {
      SendAtEnd(r, wire, more, data, sent, sent');
      hide Payload;
      hide Whole;
    }
  }

  /** The wire ends between two frames, or is in its raw part. */
  lemma SendAtEnd(r: Reader, wire: seq<byte>, more: seq<byte>, data: seq<byte>, sent: nat, sent': nat)
    requires Adds(more, data, sent, sent') && Whole(r, wire, sent)
    requires r.data == 0 && r.pad == 0 && (r.frames < PADDING_COUNT ==> wire == [])
    ensures Payload(r, wire + more) == Payload(r, wire) + data
    ensures Whole(r, wire + more, sent')
  {
    if r.frames < PADDING_COUNT {
      assert wire + more == more;
    } else {
      assert Payload(r, more) == more;
    }
  }

  lemma FrameAdds(k: nat, data: seq<byte>, pad: nat)
    requires |data| <= MAX_CHUNK && pad < 256 && k < PADDING_COUNT
    ensures Adds(Frame(data, pad), data, k, k + 1)
  {
    OneFrame(k, data, pad);
    assert forall r: Reader :: r.data == 0 && r.pad == 0 && r.frames == k ==> r == Reader(k, 0, 0);
  }

  lemma RawAdds(data: seq<byte>)
    ensures Adds(data, data, PADDING_COUNT, PADDING_COUNT)
  {
  }

  /** Fewer bytes mean a prefix of the payload. */
  lemma {:induction false} PayloadPrefix(r: Reader, wire: seq<byte>, more: seq<byte>)
    ensures Payload(r, wire) <= Payload(r, wire + more)
    decreases |wire|
  {
    if r.data > 0 && |wire| >= r.data {
      hide Payload;
      hide Whole;
      PayloadPrefix(r.(data := 0), wire[r.data..], more);
      AlsoAlone(wire, r.data);
      BehindData(r, wire, more, 0);
      BehindData(r, wire, [], 0);
    } else if r.data == 0 && r.pad > 0 && |wire| >= r.pad {
      hide Payload;
      hide Whole;
      PayloadPrefix(r.(pad := 0), wire[r.pad..], more);
      AlsoAlone(wire, r.pad);
      BehindPad(r, wire, more, 0);
      BehindPad(r, wire, [], 0);
    } else if r.data == 0 && r.pad == 0 && r.frames < PADDING_COUNT && |wire| >= 3 {
      hide Payload;
      hide Whole;
      PayloadPrefix(Reader(r.frames + 1, DataSize(wire), wire[2] as nat), wire[3..], more);
      AlsoAlone(wire, 3);
      BehindHeader(r, wire, more, 0);
      BehindHeader(r, wire, [], 0);
    } else {
      PrefixInside(r, wire, more);
      hide Payload;
    }
  }

  lemma AlsoAlone(wire: seq<byte>, k: nat)
    requires k <= |wire|
    ensures wire + [] == wire && wire[k..] + [] == wire[k..]
  {
  }

  /** The cut is inside what the reader is at, or in the raw stream. */
  lemma PrefixInside(r: Reader, wire: seq<byte>, more: seq<byte>)
    requires r.data > 0 ==> |wire| < r.data
    requires r.data == 0 && r.pad > 0 ==> |wire| < r.pad
    requires r.data == 0 && r.pad == 0 && r.frames < PADDING_COUNT ==> |wire| < 3
    ensures Payload(r, wire) <= Payload(r, wire + more)
  {
    if r.data > 0 && |wire + more| > r.data {
      assert wire <= (wire + more)[..r.data];
    }
  }

  // ---- The two ends ----

  /** One call of a writer: some bytes behind the wire that add `data`. */
  ghost predicate Sends(wire: seq<byte>, q: nat, data: seq<byte>, wire': seq<byte>, q': nat) {
    && wire <= wire'
    && forall r :: Whole(r, wire, q) ==> Payload(r, wire') == Payload(r, wire) + data && Whole(r, wire', q')
  }

  /** A call that fails half-way: it adds at least `done` and at most `data`. */
  ghost predicate SendsPart(wire: seq<byte>, q: nat, done: seq<byte>, data: seq<byte>, wire': seq<byte>) {
    && wire <= wire'
    && forall r :: Whole(r, wire, q) ==> Payload(r, wire) + done <= Payload(r, wire') <= Payload(r, wire) + data
  }

  lemma PieceSends(wire: seq<byte>, q: nat, data: seq<byte>, more: seq<byte>, q': nat)
    requires Adds(more, data, q, q')
    ensures Sends(wire, q, data, wire + more, q')
  {
    hide Adds;
    hide Payload;
    hide Whole;
    forall r | Whole(r, wire, q)
      ensures Payload(r, wire + more) == Payload(r, wire) + data && Whole(r, wire + more, q')
    {
      SendBehind(r, wire, more, data, q, q');
    }
  }

  /** A piece of which only the first `k` bytes go out. */
  lemma PieceCut(wire: seq<byte>, q: nat, data: seq<byte>, more: seq<byte>, q': nat, k: nat)
    requires Adds(more, data, q, q') && k <= |more|
    ensures SendsPart(wire, q, [], data, wire + more[..k])
  {
    hide Adds;
    hide Payload;
    hide Whole;
    forall r | Whole(r, wire, q)
      ensures Payload(r, wire) + [] <= Payload(r, wire + more[..k]) <= Payload(r, wire) + data
    {
      SendBehind(r, wire, more, data, q, q');
      PayloadPrefix(r, wire, more[..k]);
      PayloadPrefix(r, wire + more[..k], more[k..]);
      assert wire + more[..k] + more[k..] == wire + more;
      assert Payload(r, wire) + [] == Payload(r, wire);
    }
  }

  lemma RawCut(wire: seq<byte>, data: seq<byte>, k: nat)
    requires k <= |data|
    ensures SendsPart(wire, PADDING_COUNT, data[..k], data, wire + data[..k])
  {
    RawAdds(data[..k]);
    hide Adds;
    hide Payload;
    hide Whole;
    forall r | Whole(r, wire, PADDING_COUNT)
      ensures Payload(r, wire) + data[..k] <= Payload(r, wire + data[..k]) <= Payload(r, wire) + data
    {
      SendBehind(r, wire, data[..k], data[..k], PADDING_COUNT, PADDING_COUNT);
    }
  }

  lemma SendsThen(w0: seq<byte>, q0: nat, a: seq<byte>, w1: seq<byte>, q1: nat, b: seq<byte>, w2: seq<byte>, q2: nat)
    requires Sends(w0, q0, a, w1, q1) && Sends(w1, q1, b, w2, q2)
    ensures Sends(w0, q0, a + b, w2, q2)
  {
    hide Payload;
    hide Whole;
    forall r | Whole(r, w0, q0)
      ensures Payload(r, w2) == Payload(r, w0) + (a + b) && Whole(r, w2, q2)
    {
      assert Payload(r, w0) + a + b == Payload(r, w0) + (a + b);
    }
  }

  lemma SendsThenPart(w0: seq<byte>, q0: nat, a: seq<byte>, w1: seq<byte>, q1: nat, done: seq<byte>, b: seq<byte>,
                      w2: seq<byte>)
    requires Sends(w0, q0, a, w1, q1) && SendsPart(w1, q1, done, b, w2)
    ensures SendsPart(w0, q0, a + done, a + b, w2)
  {
    hide Payload;
    hide Whole;
    forall r | Whole(r, w0, q0)
      ensures Payload(r, w0) + (a + done) <= Payload(r, w2) <= Payload(r, w0) + (a + b)
    {
      assert Payload(r, w0) + a + done == Payload(r, w0) + (a + done);
      assert Payload(r, w0) + a + b == Payload(r, w0) + (a + b);
    }
  }

  /** The transport: what was written and not yet read. A read may return fewer bytes than asked for;
      an error means the end of the stream, and may come with the last bytes or after them. A write
      may fail after some of its bytes. */
  class Wire {
    var rest: seq<byte>
    ghost var stalls: nat  // reads that returned nothing without an error

    constructor ()
      ensures rest == []
    {
      rest, stalls := [], 0;
    }

    method Read(buffer: array<byte>, limit: nat) returns (n: nat, err: bool)
      requires limit <= buffer.Length
      modifies this, buffer
      ensures n <= limit && n <= |old(rest)| && buffer[..n] == old(rest)[..n] && rest == old(rest)[n..]
      ensures err ==> rest == [] && limit > 0
      ensures limit > 0 && old(rest) == [] ==> err
      ensures limit > 0 && n == 0 && !err ==> stalls > old(stalls)
    {
      if limit > 0 && rest == [] {
        return 0, true;
      }
      n :| 0 <= n <= limit && n <= |rest|;
      err :| err ==> n == |rest| && limit > 0;
      forall i | 0 <= i < n {
        buffer[i] := rest[i];
      }
      rest := rest[n..];
      if n == 0 && limit > 0 {
        stalls := stalls + 1;
      }
    }

    /** `io.ReadFull` and `io.CopyN`: exactly `k` bytes, or the end of the stream. */
    method ReadFull(k: nat) returns (b: seq<byte>, err: bool)
      modifies this
      ensures err <==> |old(rest)| < k
      ensures stalls == old(stalls)
      ensures if err then rest == [] else b == old(rest)[..k] && rest == old(rest)[k..]
    {
      if |rest| < k {
        rest := [];
        return [], true;
      }
      b, rest, err := rest[..k], rest[k..], false;
    }

    method Write(b: seq<byte>) returns (k: nat, err: bool)
      modifies this
      ensures k <= |b| && rest == old(rest) + b[..k] && (!err ==> k == |b|)
    {
      k :| k <= |b|;
      err := k < |b|;
      rest := rest + b[..k];
    }
  }

  /** The bytes of write number `q`: one of the first eight is its length, high byte first, a padding
      size, the data and as many zeros; any later one is the data alone. */
  ghost predicate Spelled(q: nat, data: seq<byte>, bytes: seq<byte>) {
    if q < 8 then exists pad: nat :: pad < 256 && Padded(data, pad, bytes) else bytes == data
  }

  ghost predicate Padded(data: seq<byte>, pad: nat, bytes: seq<byte>) {
    && |bytes| == 3 + |data| + pad
    && 256 * (bytes[0] as int) + bytes[1] as int == |data| && bytes[2] as int == pad
    && bytes[3..3 + |data|] == data && forall i :: 3 + |data| <= i < |bytes| ==> bytes[i] == 0
  }

  lemma FramePadded(data: seq<byte>, pad: nat)
    requires |data| <= MAX_CHUNK && pad < 256
    ensures Padded(data, pad, Frame(data, pad))
  {
  }

  /** Piece `i` of what is written: 65535 bytes, and the rest at the end. */
  ghost function Part(data: seq<byte>, i: nat): seq<byte> {
    if 65535 * i >= |data| then []
    else if 65535 * (i + 1) >= |data| then data[65535 * i..]
    else data[65535 * i..65535 * (i + 1)]
  }

  /** `pieces` spell the first writes of `data`, the first of them being number `q`. */
  ghost predicate SpelledAll(q: nat, data: seq<byte>, pieces: seq<seq<byte>>) {
    forall i :: 0 <= i < |pieces| ==> Spelled(q + i, Part(data, i), pieces[i])
  }

  lemma {:induction false} FlattenMore(pieces: seq<seq<byte>>, piece: seq<byte>)
    ensures Flatten(pieces + [piece]) == Flatten(pieces) + piece
  {
    if pieces == [] {
      assert pieces + [piece] == [piece];
    } else {
      assert (pieces + [piece])[1..] == pieces[1..] + [piece];
      FlattenMore(pieces[1..], piece);
    }
  }

  class PaddingConn {
    var readPadding: nat
    var writePadding: nat
    var readRemaining: nat
    var paddingRemaining: nat

    constructor ()
      ensures Side() == Reader(0, 0, 0) && writePadding == 0
    {
      readPadding, writePadding, readRemaining, paddingRemaining := 0, 0, 0, 0;
    }

    ghost function Side(): Reader
      reads this
    {
      Reader(readPadding, readRemaining, paddingRemaining)
    }

    /** Whatever the buffer and however short the reads, the reader returns the next part of what the
        wire means to it. An error comes at the end of the stream only, perhaps with its last bytes,
        whose count the reader then does not keep. */
    method Read(w: Wire, buffer: array<byte>) returns (n: nat, err: bool)
      modifies this, w, buffer
      ensures n <= buffer.Length && writePadding == old(writePadding)
      ensures HandsOut(old(Side()), old(w.rest), buffer[..n], Side(), w.rest)
      ensures !err || n == 0 ==> Receives(old(Side()), old(w.rest), buffer[..n], Side(), w.rest)
      ensures err ==> w.rest == []
      ensures !err && buffer.Length > 0 && w.stalls == old(w.stalls) ==> |w.rest| < |old(w.rest)|
    {
      hide Payload;
      hide Whole;
      ghost var r0, wire0 := Side(), w.rest;
      if readRemaining > 0 {
        var limit := if buffer.Length > readRemaining then readRemaining else buffer.Length;
        n, err := w.Read(buffer, limit);
        ReceiveData(r0, wire0, n);
        if err {
          LastBytes(r0, wire0, n);
          return;
        }
        readRemaining := readRemaining - n;
        return;
      }
      ReceivePad(r0, wire0);
      if paddingRemaining > 0 {
        var _, short := w.ReadFull(paddingRemaining);
        if short {
          return 0, true;
        }
        paddingRemaining := 0;
      }
      n, err := ReadFrame(w, buffer);
      HandsOutThen(r0, wire0, r0.(pad := 0), wire0[r0.pad..], buffer[..n], Side(), w.rest);
    }

    /** The part of `read` behind the padding of the last frame. */
    method ReadFrame(w: Wire, buffer: array<byte>) returns (n: nat, err: bool)
      requires readRemaining == 0 && paddingRemaining == 0
      modifies this, w, buffer
      ensures n <= buffer.Length && writePadding == old(writePadding)
      ensures HandsOut(old(Side()), old(w.rest), buffer[..n], Side(), w.rest)
      ensures !err || n == 0 ==> Receives(old(Side()), old(w.rest), buffer[..n], Side(), w.rest)
      ensures err ==> w.rest == []
      ensures !err && buffer.Length > 0 && w.stalls == old(w.stalls) ==> |w.rest| < |old(w.rest)|
    {
      hide Payload;
      hide Whole;
      ghost var r0, wire0 := Side(), w.rest;
      if readPadding < PADDING_COUNT {
        ReceiveHeader(r0, wire0);
        var header, short := w.ReadFull(3);
        if short {
          return 0, true;
        }
        var dataSize := DataSize(header);
        var padSize := header[2];
        ghost var r1, wire1 := Reader(readPadding + 1, dataSize, padSize), w.rest;
        var limit := if buffer.Length > dataSize then dataSize else buffer.Length;
        n, err := w.Read(buffer, limit);
        ReceiveData(r1, wire1, n);
        HandsOutThen(r0, wire0, r1, wire1, buffer[..n], r1.(data := dataSize - n), w.rest);
        if err {
          LastOfFrame(r0, wire0, r1, wire1, n);
          return;
        }
        readPadding := readPadding + 1;
        readRemaining := dataSize - n;
        paddingRemaining := padSize;
        return;
      }
      n, err := w.Read(buffer, buffer.Length);
      ReceiveRaw(r0, wire0, n);
    }

    /** One chunk; when the transport fails the frame is not counted. */
    method WriteOne(w: Wire, data: seq<byte>) returns (n: nat, err: bool, ghost piece: seq<byte>)
      requires |data| <= MAX_CHUNK && writePadding <= PADDING_COUNT
      modifies this`writePadding, w
      ensures writePadding <= PADDING_COUNT && n <= |data|
      ensures !err ==> n == |data| && Sends(old(w.rest), old(writePadding), data, w.rest, writePadding)
      ensures err ==> SendsPart(old(w.rest), old(writePadding), data[..n], data, w.rest)
      ensures !err ==> w.rest == old(w.rest) + piece && Spelled(old(writePadding), data, piece)
      ensures !err ==> writePadding == if old(writePadding) < 8 then old(writePadding) + 1 else 8
    {
      hide Sends;
      hide SendsPart;
      hide Adds;
      piece := data;
      ghost var wire0 := w.rest;
      if writePadding < PADDING_COUNT {
        var padSize: nat :| padSize < 256;
        var frame := Frame(data, padSize);
        FrameAdds(writePadding, data, padSize);
        PieceSends(wire0, writePadding, data, frame, writePadding + 1);
        var k;
        k, err := w.Write(frame);
        if err {
          PieceCut(wire0, writePadding, data, frame, writePadding + 1, k);
          assert data[..0] == [];
          return 0, true, frame;
        }
        assert frame[..k] == frame;
        FramePadded(data, padSize);
        piece := frame;
        writePadding := writePadding + 1;
        n := |data|;
      } else {
        RawAdds(data);
        PieceSends(wire0, writePadding, data, data, PADDING_COUNT);
        n, err := w.Write(data);
        RawCut(wire0, data, n);
        assert !err ==> data[..n] == data;
      }
    }

    /** Any amount of data, in pieces of 65535 bytes, each spelled out on the wire. The count returned is
        never more than what a reader can get. */
    method Write(w: Wire, data: seq<byte>) returns (n: nat, err: bool, ghost pieces: seq<seq<byte>>)
      requires writePadding <= PADDING_COUNT
      modifies this`writePadding, w
      ensures writePadding <= PADDING_COUNT && n <= |data|
      ensures !err ==> n == |data| && Sends(old(w.rest), old(writePadding), data, w.rest, writePadding)
      ensures err ==> SendsPart(old(w.rest), old(writePadding), data[..n], data, w.rest)
      ensures !err ==>
                && w.rest == old(w.rest) + Flatten(pieces) && SpelledAll(old(writePadding), data, pieces)
                && 65535 * |pieces| >= |data| && (pieces != [] ==> 65535 * (|pieces| - 1) < |data|)
    {
      var left := data;
      n := 0;
      pieces := [];
      WroteNothing(w.rest, writePadding, data);
      hide Sends;
      hide SendsPart;
      hide WroteOut;
      hide SpelledAll;
      hide Flatten;
      while |left| > 0
        invariant writePadding <= PADDING_COUNT && n <= |data| && left == data[n..]
        invariant Sends(old(w.rest), old(writePadding), data[..n], w.rest, writePadding)
        invariant WroteOut(old(w.rest), old(writePadding), data, pieces, n, w.rest, writePadding)
        decreases |left|
      {
        var chunk := if |left| > MAX_CHUNK then left[..MAX_CHUNK] else left;
        ghost var wire1, q1, done := w.rest, writePadding, data[..n];
        left := left[|chunk|..];
        var written;
        ghost var piece;
        written, err, piece := WriteOne(w, chunk);
        Cutting(data, n, chunk, written);
        if err {
          SendsThenPart(old(w.rest), old(writePadding), done, wire1, q1, chunk[..written], chunk, w.rest);
          PartOf(old(w.rest), old(writePadding), done + chunk[..written], done + chunk, data, w.rest);
          n := n + written;
          return;
        }
        SendsThen(old(w.rest), old(writePadding), done, wire1, q1, chunk, w.rest, writePadding);
        WroteMore(old(w.rest), old(writePadding), data, pieces, n, wire1, q1, chunk, piece, writePadding);
        pieces := pieces + [piece];
        n := n + written;
      }
      assert data[..n] == data;
      WroteAll(old(w.rest), old(writePadding), data, pieces, w.rest, writePadding);
      err := false;
    }
  }

  lemma Cutting(data: seq<byte>, n: nat, chunk: seq<byte>, k: nat)
    requires n <= |data| && chunk <= data[n..] && k <= |chunk|
    ensures data[..n] + chunk <= data && data[..n] + chunk[..k] == data[..n + k]
    ensures data[n..][|chunk|..] == data[n + |chunk|..] && (k == |chunk| ==> chunk[..k] == chunk)
  {
    assert data == data[..n] + data[n..];
  }

  lemma PartOf(w0: seq<byte>, q0: nat, done: seq<byte>, a: seq<byte>, data: seq<byte>, w1: seq<byte>)
    requires SendsPart(w0, q0, done, a, w1) && a <= data
    ensures SendsPart(w0, q0, done, data, w1)
  {
    hide Payload;
    hide Whole;
  }

  lemma WroteNothing(wire: seq<byte>, q: nat, data: seq<byte>)
    requires q <= 8
    ensures WroteOut(wire, q, data, [], 0, wire, q) && Sends(wire, q, data[..0], wire, q)
  {
    assert wire + [] == wire;
  }

  lemma WroteAll(wire0: seq<byte>, q0: nat, data: seq<byte>, pieces: seq<seq<byte>>, wire: seq<byte>, q: nat)
    requires WroteOut(wire0, q0, data, pieces, |data|, wire, q)
    ensures wire == wire0 + Flatten(pieces) && SpelledAll(q0, data, pieces)
    ensures 65535 * |pieces| >= |data| && (pieces != [] ==> 65535 * (|pieces| - 1) < |data|)
  {
  }

  /** `n` bytes of `data` have gone out as `pieces`, full ones except perhaps the last. */
  ghost predicate WroteOut(
    wire0: seq<byte>, q0: nat, data: seq<byte>, pieces: seq<seq<byte>>, n: nat, wire: seq<byte>, q: nat)
  {
    && wire == wire0 + Flatten(pieces) && SpelledAll(q0, data, pieces)
    && n == (if 65535 * |pieces| < |data| then 65535 * |pieces| else |data|)
    && (pieces != [] ==> 65535 * (|pieces| - 1) < |data|)
    && q == if q0 + |pieces| < 8 then q0 + |pieces| else 8
  }

  lemma WroteMore(
    wire0: seq<byte>, q0: nat, data: seq<byte>, pieces: seq<seq<byte>>, n: nat, wire: seq<byte>, q: nat,
    chunk: seq<byte>, piece: seq<byte>, q': nat)
    requires WroteOut(wire0, q0, data, pieces, n, wire, q) && n < |data| && Spelled(q, chunk, piece)
    requires chunk == if |data| - n > 65535 then data[n..][..65535] else data[n..]
    requires q' == if q < 8 then q + 1 else 8
    ensures WroteOut(wire0, q0, data, pieces + [piece], n + |chunk|, wire + piece, q')
  {
    hide Spelled;
    NextPart(data, |pieces|, n, chunk);
    hide Part;
    SpelledNext(q0, data, pieces, q, piece);
    hide SpelledAll;
    FlattenMore(pieces, piece);
    hide Flatten;
    assert wire0 + Flatten(pieces) + piece == wire0 + (Flatten(pieces) + piece);
  }

  lemma NextPart(data: seq<byte>, i: nat, n: nat, chunk: seq<byte>)
    requires n == (if 65535 * i < |data| then 65535 * i else |data|) && n < |data|
    requires chunk == if |data| - n > 65535 then data[n..][..65535] else data[n..]
    ensures chunk == Part(data, i)
  {
    assert 65535 * (i + 1) == n + 65535;
  }

  lemma SpelledNext(q: nat, data: seq<byte>, pieces: seq<seq<byte>>, q1: nat, piece: seq<byte>)
    requires SpelledAll(q, data, pieces) && Spelled(q1, Part(data, |pieces|), piece)
    requires q1 == if q + |pieces| < 8 then q + |pieces| else 8
    ensures SpelledAll(q, data, pieces + [piece])
  {
    assert Spelled(q + |pieces|, Part(data, |pieces|), piece);
    hide Spelled;
    hide Part;
  }

  lemma HandsOutThen(r0: Reader, w0: seq<byte>, r1: Reader, w1: seq<byte>, out: seq<byte>, r2: Reader, w2: seq<byte>)
    requires Receives(r0, w0, [], r1, w1) && HandsOut(r1, w1, out, r2, w2)
    ensures HandsOut(r0, w0, out, r2, w2)
    ensures Receives(r1, w1, out, r2, w2) ==> Receives(r0, w0, out, r2, w2)
  {
    hide Payload;
    hide Whole;
    assert Payload(r0, w0) == Payload(r1, w1);
  }

  /** The end of the stream comes with `n` bytes, or alone, inside the data of a frame. */
  lemma LastBytes(r: Reader, wire: seq<byte>, n: nat)
    requires n == |wire| <= r.data
    ensures HandsOut(r, wire, wire[..n], r, [])
    ensures n == 0 ==> Receives(r, wire, wire[..n], r, [])
  {
    ReceiveLast(r, wire);
    PayloadEmpty(r);
    assert wire[..n] == wire && wire + [] == wire;
  }

  /** The same right behind a header, which the reader then has not counted. */
  lemma LastOfFrame(r0: Reader, w0: seq<byte>, r1: Reader, w1: seq<byte>, n: nat)
    requires Receives(r0, w0, [], r1, w1) && n == |w1| <= r1.data && r1.data > 0
    ensures HandsOut(r0, w0, w1[..n], r0, [])
    ensures n == 0 ==> Receives(r0, w0, w1[..n], r0, [])
  {
    ReceiveLast(r1, w1);
    PayloadEmpty(r0);
    assert w1[..n] == w1 && w1 + [] == w1;
    assert Payload(r0, w0) == Payload(r1, w1);
  }

  // ---- Whole runs ----

  /** Bytes written and bytes read so far, the reader, the wire between and the writer's frame count;
      whether a write has failed, and whether the reader has seen the end of the stream. */
  datatype Link = Link(
    sent: seq<byte>, got: seq<byte>, r: Reader, wire: seq<byte>, q: nat, failed: bool, ended: bool)

  const Fresh := Link([], [], Reader(0, 0, 0), [], 0, false, false)

  /** A write, or with `fail` one that the transport cuts short; nothing is written after that or
      after the end of the stream. */
  ghost predicate WriteStep(l: Link, data: seq<byte>, fail: bool, l': Link) {
    && !l.failed && !l.ended
    && l' == l.(sent := l.sent + data, wire := l'.wire, q := l'.q, failed := fail)
    && if fail then exists done :: SendsPart(l.wire, l.q, done, data, l'.wire)
       else Sends(l.wire, l.q, data, l'.wire, l'.q)
  }

  /** A read, or with `end` one that saw the end of the stream. */
  ghost predicate ReadStep(l: Link, out: seq<byte>, end: bool, l': Link) {
    && l' == l.(got := l.got + out, r := l'.r, wire := l'.wire, ended := l.ended || end)
    && HandsOut(l.r, l.wire, out, l'.r, l'.wire)
    && (!end ==> Receives(l.r, l.wire, out, l'.r, l'.wire))
  }

  ghost predicate InStep(l: Link) {
    && l.got + Payload(l.r, l.wire) <= l.sent
    && (!l.failed ==> l.got + Payload(l.r, l.wire) == l.sent)
    && (!l.failed && !l.ended ==> Whole(l.r, l.wire, l.q))
  }

  datatype Move = Move(bytes: seq<byte>, last: bool)

  ghost predicate IsRun(links: seq<Link>, moves: seq<Move>) {
    && |links| == |moves| + 1 && links[0] == Fresh
    && forall i :: 0 <= i < |moves| ==>
         || WriteStep(links[i], moves[i].bytes, moves[i].last, links[i + 1])
         || ReadStep(links[i], moves[i].bytes, moves[i].last, links[i + 1])
  }

  lemma StepKeeps(l: Link, bytes: seq<byte>, last: bool, l': Link)
    requires InStep(l) && (WriteStep(l, bytes, last, l') || ReadStep(l, bytes, last, l'))
    ensures InStep(l')
  {
    hide Payload;
    hide Whole;
    if WriteStep(l, bytes, last, l') {
      assert l'.sent == l.got + (Payload(l.r, l.wire) + bytes);
    } else {
      assert l.got + (bytes + Payload(l'.r, l'.wire)) == l'.got + Payload(l'.r, l'.wire);
    }
  }

  lemma {:induction false} RunInStep(links: seq<Link>, moves: seq<Move>, n: nat)
    requires IsRun(links, moves) && n < |links|
    ensures InStep(links[n])
  {
    hide WriteStep;
    hide ReadStep;
    if n > 0 {
      RunInStep(links, moves, n - 1);
      hide InStep;
      StepKeeps(links[n - 1], moves[n - 1].bytes, moves[n - 1].last, links[n]);
    }
  }

  /** In every interleaving of writes and reads, also with a write that fails half-way and an end of
      stream that comes with bytes, the bytes read are a prefix of the bytes written, and all of them
      once the wire is empty and no write has failed. */
  lemma ReadsPrefix(links: seq<Link>, moves: seq<Move>, n: nat)
    requires IsRun(links, moves) && n < |links|
    ensures links[n].got <= links[n].sent
    ensures links[n].wire == [] && !links[n].failed ==> links[n].got == links[n].sent
  {
    hide IsRun;
    RunInStep(links, moves, n);
    if links[n].wire == [] {
      PayloadEmpty(links[n].r);
    }
  }

  // ---- The two ends as objects ----

  datatype Call = WriteCall(data: seq<byte>) | ReadCall(size: nat)

  /** The link that two connections and the wire between them stand for. */
  ghost predicate Shows(l: Link, sender: PaddingConn, w: Wire, receiver: PaddingConn)
    reads sender, w, receiver
  {
    l.wire == w.rest && l.q == sender.writePadding <= PADDING_COUNT && l.r == receiver.Side()
  }

  lemma RunGrows(links: seq<Link>, moves: seq<Move>, move: Move, l: Link)
    requires IsRun(links, moves)
    requires WriteStep(links[|moves|], move.bytes, move.last, l) || ReadStep(links[|moves|], move.bytes, move.last, l)
    ensures IsRun(links + [l], moves + [move])
  {
    hide WriteStep;
    hide ReadStep;
  }

  /** A call of `Write` is a step of the link. */
  method CallWrite(sender: PaddingConn, w: Wire, receiver: PaddingConn, data: seq<byte>, ghost l: Link)
    returns (err: bool, ghost l': Link)
    requires sender != receiver && Shows(l, sender, w, receiver) && !l.failed && !l.ended
    modifies sender, w
    ensures Shows(l', sender, w, receiver) && WriteStep(l, data, err, l')
    ensures l'.sent == l.sent + data && l'.got == l.got && l'.failed == err && !l'.ended
  {
    hide Sends;
    hide SendsPart;
    var n;
    ghost var pieces;
    n, err, pieces := sender.Write(w, data);
    l' := l.(sent := l.sent + data, wire := w.rest, q := sender.writePadding, failed := err);
  }

  /** A call of `Read` is a step of the link. */
  method CallRead(sender: PaddingConn, w: Wire, receiver: PaddingConn, buffer: array<byte>, ghost l: Link)
    returns (n: nat, err: bool, ghost l': Link)
    requires sender != receiver && Shows(l, sender, w, receiver)
    modifies w, receiver, buffer
    ensures n <= buffer.Length
    ensures Shows(l', sender, w, receiver) && ReadStep(l, buffer[..n], err, l')
    ensures l'.sent == l.sent && l'.got == l.got + buffer[..n] && l'.failed == l.failed
    ensures l'.ended == (l.ended || err)
  {
    hide HandsOut;
    hide Receives;
    n, err := receiver.Read(w, buffer);
    l' := l.(got := l.got + buffer[..n], r := receiver.Side(), wire := w.rest, ended := l.ended || err);
  }

  /** Any calls on two connected ends are a run; nothing is written after a failed write or after the
      end of the stream has been seen. `all`: no write has failed and the wire is empty. */
  method Drive(calls: seq<Call>)
    returns (sent: seq<byte>, got: seq<byte>, all: bool, ghost links: seq<Link>, ghost moves: seq<Move>)
    ensures IsRun(links, moves) && links[|moves|].sent == sent && links[|moves|].got == got
    ensures got <= sent && (all ==> got == sent)
  {
    hide WriteStep;
    hide ReadStep;
    var sender := new PaddingConn();
    var w := new Wire();
    var receiver := new PaddingConn();
    var failed, ended := false, false;
    sent, got, links, moves := [], [], [Fresh], [];
    for i := 0 to |calls|
      invariant fresh(sender) && fresh(w) && fresh(receiver) && sender != receiver
      invariant IsRun(links, moves)
      invariant var l := links[|moves|];
                && Shows(l, sender, w, receiver)
                && l.sent == sent && l.got == got && l.failed == failed && l.ended == ended
    {
      ghost var l := links[|moves|];
      match calls[i] {
        case WriteCall(data) =>
          if failed || ended {
            continue;
          }
          ghost var l';
          failed, l' := CallWrite(sender, w, receiver, data, l);
          RunGrows(links, moves, Move(data, failed), l');
          sent, links, moves := sent + data, links + [l'], moves + [Move(data, failed)];
        case ReadCall(size) =>
          var buffer := new byte[size](_ => 0);
          var n, end;
          ghost var l';
          n, end, l' := CallRead(sender, w, receiver, buffer, l);
          RunGrows(links, moves, Move(buffer[..n], end), l');
          got, ended := got + buffer[..n], ended || end;
          links, moves := links + [l'], moves + [Move(buffer[..n], end)];
      }
    }
    all := !failed && w.rest == [];
    ReadsPrefix(links, moves, |moves|);
  }
}
