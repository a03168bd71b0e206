/**
 The header-only XOR transform of VLESS encryption. Of each record only the five header bytes
 are XORed with a key stream; the body is passed through, its length taken from the plain
 header. Writer and reader transform buffers in place.
 */
module XorStream {
  import opened Words
  import opened Basics
  import opened RecordHeader

  /** What the key stream does to a byte at a given position. */
  type KeyStream = (nat, byte) -> byte

  /** XOR with the CTR output `k`, an arbitrary sequence of bytes. */
  function XorWith(k: nat -> byte): KeyStream {
    (pos, x) => Xor(x, k(pos))
  }

  ghost predicate Involutive(ks: KeyStream) {
    forall pos, x :: ks(pos, ks(pos, x)) == x
  }

  lemma XorWithInvolutive(k: nat -> byte)
    ensures Involutive(XorWith(k))
  {
    forall pos: nat, x: byte
      ensures XorWith(k)(pos, XorWith(k)(pos, x)) == x
    {
      XorTwice(x, k(pos));
    }
  }

  /** Position in the record structure: bytes still to pass through, plain header bytes seen,
      key stream bytes used. */
  datatype State = State(skip: nat, header: seq<byte>, pos: nat) {
    ghost predicate Valid() {
      |header| < HEADER_LEN
    }
  }

  // ---- Byte by byte ----

  /** The state after one byte whose plain value is `x`. */
  function Next(st: State, x: byte): (st': State)
    requires st.Valid()
    ensures st'.Valid()
  {
    if st.skip > 0 then st.(skip := st.skip - 1)
    else
      var h := st.header + [x];
      if |h| == HEADER_LEN then State(HeaderLength(h), [], st.pos + 1)
      else State(0, h, st.pos + 1)
  }

  /** One byte through the transform; the same in both directions. */
  function Mask(ks: KeyStream, st: State, x: byte): byte {
    if st.skip > 0 then x else ks(st.pos, x)
  }

  function After(st: State, plain: seq<byte>): (st': State)
    requires st.Valid()
    ensures st'.Valid()
    decreases |plain|
  {
    if plain == [] then st else After(Next(st, plain[0]), plain[1..])
  }

  function Encode(ks: KeyStream, st: State, plain: seq<byte>): (cipher: seq<byte>)
    requires st.Valid()
    ensures |cipher| == |plain|
    decreases |plain|
  {
    if plain == [] then [] else [Mask(ks, st, plain[0])] + Encode(ks, Next(st, plain[0]), plain[1..])
  }

  function Decode(ks: KeyStream, st: State, cipher: seq<byte>): (plain: seq<byte>)
    requires st.Valid()
    ensures |plain| == |cipher|
    decreases |cipher|
  {
    if cipher == [] then []
    else
      var x := Mask(ks, st, cipher[0]);
      [x] + Decode(ks, Next(st, x), cipher[1..])
  }

  lemma {:induction false} EncodeSplit(ks: KeyStream, st: State, a: seq<byte>, b: seq<byte>)
    requires st.Valid()
    ensures After(st, a + b) == After(After(st, a), b)
    ensures Encode(ks, st, a + b) == Encode(ks, st, a) + Encode(ks, After(st, a), b)
    decreases |a|
  {
    if a == [] {
      assert a + b == b;
    } else {
      assert (a + b)[1..] == a[1..] + b;
      EncodeSplit(ks, Next(st, a[0]), a[1..], b);
    }
  }

  lemma {:induction false} DecodeSplit(ks: KeyStream, st: State, a: seq<byte>, b: seq<byte>)
    requires st.Valid()
    ensures var p := Decode(ks, st, a);
            Decode(ks, st, a + b) == p + Decode(ks, After(st, p), b)
    decreases |a|
  {
    if a == [] {
      assert a + b == b;
    } else {
      assert (a + b)[1..] == a[1..] + b;
      var x := Mask(ks, st, a[0]);
      DecodeSplit(ks, Next(st, x), a[1..], b);
      var p := Decode(ks, st, a);
      assert p[1..] == Decode(ks, Next(st, x), a[1..]);
    }
  }

  /** Decoding undoes encoding, from any common state. */
  lemma {:induction false} RoundTrip(ks: KeyStream, st: State, plain: seq<byte>)
    requires st.Valid() && Involutive(ks)
    ensures Decode(ks, st, Encode(ks, st, plain)) == plain
    decreases |plain|
  {
    if plain != [] {
      var c := Encode(ks, st, plain);
      assert c[1..] == Encode(ks, Next(st, plain[0]), plain[1..]);
      RoundTrip(ks, Next(st, plain[0]), plain[1..]);
    }
  }

  // ---- Any splitting into calls ----

  /** What a run of Write calls puts on the wire, call by call. */
  function WriteRun(ks: KeyStream, st: State, writes: seq<seq<byte>>): (wire: seq<seq<byte>>)
    requires st.Valid()
    decreases |writes|
  {
    if writes == [] then []
    else [Encode(ks, st, writes[0])] + WriteRun(ks, After(st, writes[0]), writes[1..])
  }

  /** What a run of Read calls hands out, given the wire bytes each call received. */
  function ReadRun(ks: KeyStream, st: State, recvs: seq<seq<byte>>): (out: seq<seq<byte>>)
    requires st.Valid()
    decreases |recvs|
  {
    if recvs == [] then []
    else
      var p := Decode(ks, st, recvs[0]);
      [p] + ReadRun(ks, After(st, p), recvs[1..])
  }

  lemma {:induction false} WriteRunFlat(ks: KeyStream, st: State, writes: seq<seq<byte>>)
    requires st.Valid()
    ensures Flatten(WriteRun(ks, st, writes)) == Encode(ks, st, Flatten(writes))
    decreases |writes|
  {
    if writes != [] {
      WriteRunFlat(ks, After(st, writes[0]), writes[1..]);
      EncodeSplit(ks, st, writes[0], Flatten(writes[1..]));
      assert WriteRun(ks, st, writes)[1..] == WriteRun(ks, After(st, writes[0]), writes[1..]);
    }
  }

  lemma {:induction false} ReadRunFlat(ks: KeyStream, st: State, recvs: seq<seq<byte>>)
    requires st.Valid()
    ensures Flatten(ReadRun(ks, st, recvs)) == Decode(ks, st, Flatten(recvs))
    decreases |recvs|
  {
    if recvs != [] {
      var p := Decode(ks, st, recvs[0]);
      ReadRunFlat(ks, After(st, p), recvs[1..]);
      DecodeSplit(ks, st, recvs[0], Flatten(recvs[1..]));
      assert ReadRun(ks, st, recvs)[1..] == ReadRun(ks, After(st, p), recvs[1..]);
    }
  }

  /** However the writes and the reads are cut, what has been read is a prefix of what was
      written, and all of it once the whole wire has been read. */
  lemma Faithful(ks: KeyStream, st: State, writes: seq<seq<byte>>, recvs: seq<seq<byte>>)
    requires st.Valid() && Involutive(ks)
    requires Flatten(recvs) <= Flatten(WriteRun(ks, st, writes))
    ensures Flatten(ReadRun(ks, st, recvs)) <= Flatten(writes)
    ensures Flatten(recvs) == Flatten(WriteRun(ks, st, writes)) ==> Flatten(ReadRun(ks, st, recvs)) == Flatten(writes)
  {
    WriteRunFlat(ks, st, writes);
    ReadRunFlat(ks, st, recvs);
    DecodePrefix(ks, st, Flatten(recvs), Flatten(writes));
  }

  lemma DecodePrefix(ks: KeyStream, st: State, got: seq<byte>, data: seq<byte>)
    requires st.Valid() && Involutive(ks)
    requires got <= Encode(ks, st, data)
    ensures Decode(ks, st, got) == data[..|got|]
  {
    var wire := Encode(ks, st, data);
    RoundTrip(ks, st, data);
    assert wire == got + wire[|got|..];
    DecodeSplit(ks, st, got, wire[|got|..]);
  }

  // ---- The connection ----

  /** Passing bytes through while `skip` lasts. */
  lemma {:induction false} PassThrough(ks: KeyStream, st: State, seg: seq<byte>)
    requires st.Valid() && |seg| <= st.skip
    ensures Encode(ks, st, seg) == seg && Decode(ks, st, seg) == seg
    ensures After(st, seg) == st.(skip := st.skip - |seg|)
    decreases |seg|
  {
    if seg != [] {
      PassThrough(ks, Next(st, seg[0]), seg[1..]);
    }
  }

  function XorSeq(ks: KeyStream, pos: nat, seg: seq<byte>): (r: seq<byte>)
    ensures |r| == |seg|
  {
    seq(|seg|, i requires 0 <= i < |seg| => ks(pos + i, seg[i]))
  }

  lemma Snoc(ks: KeyStream, st: State, init: seq<byte>, x: byte)
    requires st.Valid()
    ensures After(st, init + [x]) == Next(After(st, init), x)
    ensures Encode(ks, st, init + [x]) == Encode(ks, st, init) + [Mask(ks, After(st, init), x)]
  {
    EncodeSplit(ks, st, init, [x]);
  }

  function AfterHeader(st: State, seg: seq<byte>): State
    requires |st.header| + |seg| <= HEADER_LEN
  {
    var h := st.header + seg;
    if |h| == HEADER_LEN then State(HeaderLength(h), [], st.pos + |seg|) else State(0, h, st.pos + |seg|)
  }

  /** A run of header bytes, up to the fifth. */
  lemma {:induction false} HeaderRun(ks: KeyStream, st: State, seg: seq<byte>)
    requires st.Valid() && st.skip == 0 && |st.header| + |seg| <= HEADER_LEN
    ensures Encode(ks, st, seg) == XorSeq(ks, st.pos, seg)
    ensures After(st, seg) == AfterHeader(st, seg)
    decreases |seg|
  {
    if seg == [] {
      assert st.header + seg == st.header;
    } else {
      var init, last := seg[..|seg| - 1], seg[|seg| - 1];
      HeaderRun(ks, st, init);
      Snoc(ks, st, init, last);
      assert seg == init + [last];
      AfterHeaderSnoc(st, init, last);
      XorSeqSnoc(ks, st.pos, init, last);
    }
  }

  lemma AfterHeaderSnoc(st: State, init: seq<byte>, x: byte)
    requires st.Valid() && st.skip == 0 && |st.header| + |init| < HEADER_LEN
    ensures AfterHeader(st, init) == State(0, st.header + init, st.pos + |init|)
    ensures AfterHeader(st, init + [x]) == Next(AfterHeader(st, init), x)
  {
    assert st.header + (init + [x]) == (st.header + init) + [x];
  }

  lemma XorSeqSnoc(ks: KeyStream, pos: nat, init: seq<byte>, x: byte)
    ensures XorSeq(ks, pos, init + [x]) == XorSeq(ks, pos, init) + [ks(pos + |init|, x)]
  {
  }

  lemma {:induction false} HeaderRunDecode(ks: KeyStream, st: State, c: seq<byte>)
    requires st.Valid() && st.skip == 0 && |st.header| + |c| <= HEADER_LEN
    ensures Decode(ks, st, c) == XorSeq(ks, st.pos, c)
    decreases |c|
  {
    if c != [] {
      var init, last := c[..|c| - 1], c[|c| - 1];
      HeaderRunDecode(ks, st, init);
      HeaderRun(ks, st, Decode(ks, st, init));
      DecodeSplit(ks, st, init, [last]);
      assert c == init + [last];
      XorSeqSnoc(ks, st.pos, init, last);
    }
  }

  method XorKeyStream(ks: KeyStream, pos: nat, b: array<byte>, lo: nat, hi: nat)
    requires lo <= hi <= b.Length
    modifies b
    ensures b[lo..hi] == XorSeq(ks, pos, old(b[lo..hi]))
    ensures b[..lo] == old(b[..lo]) && b[hi..] == old(b[hi..])
  {
    for i := lo to hi
      invariant forall j :: 0 <= j < b.Length && !(lo <= j < i) ==> b[j] == old(b[j])
      invariant forall j :: lo <= j < i ==> b[j] == ks(pos + j - lo, old(b[j]))
    {
      b[i] := ks(pos + i - lo, b[i]);
    }
  }

  /** Passing the bytes still to skip. */
  lemma PassThen(ks: KeyStream, st: State, a: seq<byte>, rest: seq<byte>)
    requires st.Valid() && |a| == st.skip
    ensures After(st, a + rest) == After(st.(skip := 0), rest)
    ensures Encode(ks, st, a + rest) == a + Encode(ks, st.(skip := 0), rest)
  {
    PassThrough(ks, st, a);
    EncodeSplit(ks, st, a, rest);
  }

  lemma PassThenDecode(ks: KeyStream, st: State, a: seq<byte>, rest: seq<byte>)
    requires st.Valid() && |a| == st.skip
    ensures After(st, a) == st.(skip := 0)
    ensures Decode(ks, st, a + rest) == a + Decode(ks, st.(skip := 0), rest)
  {
    PassThrough(ks, st, a);
    DecodeSplit(ks, st, a, rest);
  }

  /** Running header bytes, up to the fifth. */
  lemma HeaderThen(ks: KeyStream, st: State, h: seq<byte>, rest: seq<byte>)
    requires st.Valid() && st.skip == 0 && |st.header| + |h| <= HEADER_LEN
    ensures AfterHeader(st, h).Valid() && After(st, h + rest) == After(AfterHeader(st, h), rest)
    ensures Encode(ks, st, h + rest) == XorSeq(ks, st.pos, h) + Encode(ks, AfterHeader(st, h), rest)
  {
    HeaderRun(ks, st, h);
    EncodeSplit(ks, st, h, rest);
  }

  lemma HeaderThenDecode(ks: KeyStream, st: State, c: seq<byte>, h: seq<byte>, rest: seq<byte>)
    requires st.Valid() && st.skip == 0 && |st.header| + |c| <= HEADER_LEN
    requires h == XorSeq(ks, st.pos, c)
    ensures AfterHeader(st, h).Valid()
    ensures Decode(ks, st, c + rest) == h + Decode(ks, AfterHeader(st, h), rest)
  {
    HeaderRunDecode(ks, st, c);
    HeaderRun(ks, st, h);
    DecodeSplit(ks, st, c, rest);
  }

  /** What is done, followed by the encoding of what is left, is the encoding of the whole. */
  ghost predicate Encoding(ks: KeyStream, st: State, done: seq<byte>, left: seq<byte>, final: State,
                           target: seq<byte>) {
    st.Valid() && After(st, left) == final && done + Encode(ks, st, left) == target
  }

  lemma EncodingPass(ks: KeyStream, st: State, done: seq<byte>, a: seq<byte>, left: seq<byte>, final: State,
                     target: seq<byte>)
    requires Encoding(ks, st, done, a + left, final, target) && |a| == st.skip
    ensures Encoding(ks, st.(skip := 0), done + a, left, final, target)
  {
    PassThen(ks, st, a, left);
  }

  lemma EncodingHeader(ks: KeyStream, st: State, done: seq<byte>, h: seq<byte>, left: seq<byte>, final: State,
                       target: seq<byte>)
    requires Encoding(ks, st, done, h + left, final, target)
    requires st.skip == 0 && |st.header| + |h| <= HEADER_LEN
    ensures Encoding(ks, AfterHeader(st, h), done + XorSeq(ks, st.pos, h), left, final, target)
  {
    HeaderThen(ks, st, h, left);
  }

  lemma EncodingTurn(ks: KeyStream, st: State, done: seq<byte>, a: seq<byte>, h: seq<byte>, left: seq<byte>,
                     final: State, target: seq<byte>)
    requires Encoding(ks, st, done, a + (h + left), final, target)
    requires |a| == st.skip && |st.header| + |h| <= HEADER_LEN
    ensures Encoding(ks, AfterHeader(st.(skip := 0), h), done + a + XorSeq(ks, st.pos, h), left, final, target)
  {
    EncodingPass(ks, st, done, a, h + left, final, target);
    EncodingHeader(ks, st.(skip := 0), done + a, h, left, final, target);
  }

  lemma EncodingRest(ks: KeyStream, st: State, done: seq<byte>, left: seq<byte>, final: State, target: seq<byte>)
    requires Encoding(ks, st, done, left, final, target) && |left| <= st.skip
    ensures final == st.(skip := st.skip - |left|) && target == done + left
  {
    PassThrough(ks, st, left);
  }

  /** `done` has been decoded from `st0` on; the decoding of what is left completes the whole. */
  ghost predicate Decoding(ks: KeyStream, st0: State, st: State, done: seq<byte>, left: seq<byte>, target: seq<byte>) {
    && st0.Valid() && st.Valid()
    && st == After(st0, done)
    && done + Decode(ks, st, left) == target
  }

  lemma DecodingStart(ks: KeyStream, st: State, cipher: seq<byte>)
    requires st.Valid()
    ensures Decoding(ks, st, st, [], cipher, Decode(ks, st, cipher))
  {
  }

  lemma DecodingPass(ks: KeyStream, st0: State, st: State, done: seq<byte>, a: seq<byte>, left: seq<byte>,
                     target: seq<byte>)
    requires Decoding(ks, st0, st, done, a + left, target) && |a| == st.skip
    ensures Decoding(ks, st0, st.(skip := 0), done + a, left, target)
  {
    PassThenDecode(ks, st, a, left);
    EncodeSplit(ks, st0, done, a);
  }

  lemma DecodingHeader(ks: KeyStream, st0: State, st: State, done: seq<byte>, c: seq<byte>, left: seq<byte>,
                       target: seq<byte>)
    requires Decoding(ks, st0, st, done, c + left, target)
    requires st.skip == 0 && |st.header| + |c| <= HEADER_LEN
    ensures var h := XorSeq(ks, st.pos, c);
            Decoding(ks, st0, AfterHeader(st, h), done + h, left, target)
  {
    var h := XorSeq(ks, st.pos, c);
    HeaderThenDecode(ks, st, c, h, left);
    HeaderRun(ks, st, h);
    EncodeSplit(ks, st0, done, h);
  }

  lemma DecodingTurn(ks: KeyStream, st0: State, st: State, done: seq<byte>, a: seq<byte>, c: seq<byte>, left: seq<byte>,
                     target: seq<byte>)
    requires Decoding(ks, st0, st, done, a + (c + left), target)
    requires |a| == st.skip && |st.header| + |c| <= HEADER_LEN
    ensures var h := XorSeq(ks, st.pos, c);
            Decoding(ks, st0, AfterHeader(st.(skip := 0), h), done + a + h, left, target)
  {
    DecodingPass(ks, st0, st, done, a, c + left, target);
    DecodingHeader(ks, st0, st.(skip := 0), done + a, c, left, target);
  }

  lemma DecodingRest(ks: KeyStream, st0: State, st: State, done: seq<byte>, left: seq<byte>, target: seq<byte>)
    requires Decoding(ks, st0, st, done, left, target) && |left| <= st.skip
    ensures target == done + left && After(st0, target) == st.(skip := st.skip - |left|)
  {
    PassThrough(ks, st, left);
    EncodeSplit(ks, st0, done, left);
  }

  /** `XorConn`: the two directions, each with its key stream, skip count and partial header. */
  class XorConn {
    const outKey: KeyStream
    const inKey: KeyStream
    var outSkip: nat
    var outHeader: seq<byte>
    var outPos: nat
    var inSkip: nat
    var inHeader: seq<byte>
    var inPos: nat
    var sent: seq<byte>

    constructor (outKey: KeyStream, inKey: KeyStream, outSkip: nat, inSkip: nat)
      ensures this.outKey == outKey && this.inKey == inKey && sent == []
      ensures Out() == State(outSkip, [], 0) && In() == State(inSkip, [], 0)
    {
      this.outKey, this.inKey := outKey, inKey;
      this.outSkip, outHeader, outPos := outSkip, [], 0;
      this.inSkip, inHeader, inPos := inSkip, [], 0;
      sent := [];
    }

    function Out(): State
      reads this
    {
      State(outSkip, outHeader, outPos)
    }

    function In(): State
      reads this
    {
      State(inSkip, inHeader, inPos)
    }

    /** Encodes the caller's buffer in place and sends it; with `cut` the link takes at most that
        many bytes of it and fails. */
    method Write(b: array<byte>, cut: Option<nat>) returns (n: nat, err: bool)
      requires Out().Valid()
      modifies this`outSkip, this`outHeader, this`outPos, this`sent, b
      ensures Out() == After(old(Out()), old(b[..])) && Out().Valid()
      ensures b[..] == Encode(outKey, old(Out()), old(b[..]))
      ensures err == (cut.Some? && b.Length > 0)
      ensures if !err then n == b.Length && sent == old(sent) + b[..]
              else n == 0 && sent == old(sent) + if cut.value < b.Length then b[..cut.value] else b[..]
    {
      if b.Length == 0 {
        assert b[..] == [];
        return 0, false;
      }
      EncodeInPlace(b);
      if cut.Some? {
        sent := sent + if cut.value < b.Length then b[..cut.value] else b[..];
        return 0, true;
      }
      sent := sent + b[..];
      return b.Length, false;
    }

    method EncodeInPlace(b: array<byte>)
      requires Out().Valid()
      modifies this`outSkip, this`outHeader, this`outPos, b
      ensures Out() == After(old(Out()), old(b[..])) && Out().Valid()
      ensures b[..] == Encode(outKey, old(Out()), old(b[..]))
    {
      hide After;
      hide Encode;
      ghost var final, target := After(Out(), b[..]), Encode(outKey, Out(), b[..]);
      var p := 0;
      assert b[..p] == [] && b[p..] == b[..];
      while true
        invariant 0 <= p <= b.Length
        invariant Encoding(outKey, Out(), b[..p], b[p..], final, target)
        decreases b.Length - p
      {
        if b.Length - p <= outSkip {
          EncodingRest(outKey, Out(), b[..p], b[p..], final, target);
          assert b[..] == b[..p] + b[p..];
          outSkip := outSkip - (b.Length - p);
          break;
        }
        p := TurnOut(b, p, final, target);
        if |outHeader| > 0 {
          assert b[p..] == [] && b[..p] == b[..];
          EncodingRest(outKey, Out(), b[..p], b[p..], final, target);
          break;
        }
      }
    }

    /** One turn of the loop: pass the bytes to skip, then take header bytes. */
    method TurnOut(b: array<byte>, p: nat, ghost final: State, ghost target: seq<byte>) returns (end: nat)
      requires p + outSkip < b.Length && Out().Valid()
      requires Encoding(outKey, Out(), b[..p], b[p..], final, target)
      modifies this`outSkip, this`outHeader, this`outPos, b
      ensures p < end <= b.Length && (|outHeader| > 0 ==> end == b.Length)
      ensures Encoding(outKey, Out(), b[..end], b[end..], final, target)
    {
      hide Encoding;
      var q := p + outSkip;
      var need := HEADER_LEN - |outHeader|;
      end := if b.Length - q < need then b.Length else q + need;
      assert b[p..] == b[p..q] + (b[q..end] + b[end..]) && b[..q] == b[..p] + b[p..q];
      EncodingTurn(outKey, Out(), b[..p], b[p..q], b[q..end], b[end..], final, target);
      outSkip := 0;
      HeaderOut(b, q, end);
    }

    /** Record the plain header bytes, then mask them. */
    method HeaderOut(b: array<byte>, q: nat, end: nat)
      requires Out().Valid() && outSkip == 0 && |outHeader| + (end - q) <= HEADER_LEN
      requires q <= end <= b.Length
      modifies this`outSkip, this`outHeader, this`outPos, b
      ensures Out() == AfterHeader(old(Out()), old(b[q..end]))
      ensures b[..end] == old(b[..q]) + XorSeq(outKey, old(outPos), old(b[q..end]))
      ensures b[end..] == old(b[end..])
    {
      var h := b[q..end];
      if |outHeader| + |h| < HEADER_LEN {
        outHeader := outHeader + h;
      } else {
        outSkip, outHeader := HeaderLength(outHeader + h), [];
      }
      XorKeyStream(outKey, outPos, b, q, end);
      outPos := outPos + (end - q);
      assert b[..end] == b[..q] + b[q..end];
    }

    /** Decodes in place what the link delivered; `b` is the part of the caller's buffer that
        it filled. */
    method Read(b: array<byte>)
      requires In().Valid()
      modifies this`inSkip, this`inHeader, this`inPos, b
      ensures b[..] == Decode(inKey, old(In()), old(b[..]))
      ensures In() == After(old(In()), b[..]) && In().Valid()
    {
      hide After;
      hide Decode;
      ghost var st0, target := In(), Decode(inKey, In(), b[..]);
      var p := 0;
      assert b[..p] == [] && b[p..] == b[..];
      DecodingStart(inKey, In(), b[..]);
      while true
        invariant 0 <= p <= b.Length
        invariant Decoding(inKey, st0, In(), b[..p], b[p..], target)
        decreases b.Length - p
      {
        if b.Length - p <= inSkip {
          DecodingRest(inKey, st0, In(), b[..p], b[p..], target);
          assert b[..] == b[..p] + b[p..];
          inSkip := inSkip - (b.Length - p);
          break;
        }
        p := TurnIn(b, p, st0, target);
        if |inHeader| > 0 {
          assert b[p..] == [] && b[..p] == b[..];
          DecodingRest(inKey, st0, In(), b[..p], b[p..], target);
          break;
        }
      }
    }

    method TurnIn(b: array<byte>, p: nat, ghost st0: State, ghost target: seq<byte>) returns (end: nat)
      requires p + inSkip < b.Length && In().Valid()
      requires Decoding(inKey, st0, In(), b[..p], b[p..], target)
      modifies this`inSkip, this`inHeader, this`inPos, b
      ensures p < end <= b.Length && (|inHeader| > 0 ==> end == b.Length)
      ensures Decoding(inKey, st0, In(), b[..end], b[end..], target)
    {
      hide Decoding;
      var q := p + inSkip;
      var need := HEADER_LEN - |inHeader|;
      end := if b.Length - q < need then b.Length else q + need;
      assert b[p..] == b[p..q] + (b[q..end] + b[end..]) && b[..q] == b[..p] + b[p..q];
      DecodingTurn(inKey, st0, In(), b[..p], b[p..q], b[q..end], b[end..], target);
      inSkip := 0;
      HeaderIn(b, q, end);
    }

    /** Unmask header bytes, then record them. */
    method HeaderIn(b: array<byte>, q: nat, end: nat)
      requires In().Valid() && inSkip == 0 && |inHeader| + (end - q) <= HEADER_LEN
      requires q <= end <= b.Length
      modifies this`inSkip, this`inHeader, this`inPos, b
      ensures In() == AfterHeader(old(In()), XorSeq(inKey, old(inPos), old(b[q..end])))
      ensures b[..end] == old(b[..q]) + XorSeq(inKey, old(inPos), old(b[q..end]))
      ensures b[end..] == old(b[end..])
    {
      XorKeyStream(inKey, inPos, b, q, end);
      var h := b[q..end];
      if |inHeader| + |h| < HEADER_LEN {
        inHeader := inHeader + h;
      } else {
        inSkip, inHeader := HeaderLength(inHeader + h), [];
      }
      inPos := inPos + (end - q);
      assert b[..end] == b[..q] + b[q..end];
    }
  }
}
