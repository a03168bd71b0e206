/**
 What VLESS encryption puts on the wire, byte by byte: where each record stands, its five header bytes,
 under which key and nonce its body is sealed, and which bytes the XOR layer masks with which byte of
 the key stream. And what a reader does with bytes that no writer has sent.
 */
module VlessWire {
  import opened Words
  import opened Basics
  import opened Nonces
  import opened RecordHeader
  import opened Records
  import opened RecordChannel
  import V = VlessStack
  import X = XorStream

  // ---- Records ----

  /** Where record `k` begins: five bytes of header and sixteen of tag for each one before it. */
  ghost function StartOf(chunks: seq<seq<byte>>, k: nat): nat
    requires k <= |chunks|
  {
    if k == 0 then 0 else StartOf(chunks, k - 1) + |chunks[k - 1]| + 21
  }

  /** Records behind records. */
  lemma {:induction false} WireConcat(s: Suite, a: Aead, xs: seq<seq<byte>>, ys: seq<seq<byte>>)
    requires a.Valid() && Chunks(xs) && Chunks(ys)
    ensures Chunks(xs + ys) && Wire(s, a, xs + ys) == Wire(s, a, xs) + Wire(s, Advance(s, a, xs), ys)
    decreases |xs|
  {
    if xs == [] {
      assert xs + ys == ys;
    } else {
      hide Record;
      hide AfterRecord;
      assert (xs + ys)[1..] == xs[1..] + ys;
      WireConcat(s, AfterRecord(s, a, Record(s, a, xs[0])), xs[1..], ys);
    }
  }

  lemma {:induction false} WireLength(s: Suite, a: Aead, chunks: seq<seq<byte>>, k: nat)
    requires Lawful(s) && a.Valid() && Chunks(chunks) && k <= |chunks|
    ensures |Wire(s, a, chunks[..k])| == StartOf(chunks, k)
  {
    if k > 0 {
      WireLength(s, a, chunks, k - 1);
      Append(s, a, chunks[..k - 1], chunks[k - 1]);
      assert chunks[..k] == chunks[..k - 1] + [chunks[k - 1]];
      RecordSpelled(s, Advance(s, a, chunks[..k - 1]), chunks[k - 1]);
      hide Record;
    }
  }

  lemma RecordSpelled(s: Suite, a: Aead, chunk: seq<byte>)
    requires Lawful(s) && a.Valid() && 1 <= |chunk| <= MAX_CHUNK
    ensures var n := |chunk| + 16;
            var h := [23, 3, 3, n / 256, n % 256];
            Record(s, a, chunk) == h + s.seal(a.key, Increase(a.nonce), chunk, h) && |Record(s, a, chunk)| == n + 5
  {
    HeaderBytes(|chunk| + 16);
  }

  lemma WireFirst(s: Suite, a: Aead, chunks: seq<seq<byte>>) returns (rest: seq<byte>)
    requires a.Valid() && Chunks(chunks) && chunks != []
    ensures Wire(s, a, chunks) == Record(s, a, chunks[0]) + rest
  {
    hide Record;
    hide AfterRecord;
    rest := Wire(s, AfterRecord(s, a, Record(s, a, chunks[0])), chunks[1..]);
  }

  /** The wire of a run of records is what comes before record `k`, the record, and the rest. */
  lemma AroundRecord(s: Suite, a: Aead, chunks: seq<seq<byte>>, k: nat) returns (rest: seq<byte>)
    requires Lawful(s) && a.Valid() && Chunks(chunks) && k < |chunks|
    ensures var before, r := Wire(s, a, chunks[..k]), Record(s, Advance(s, a, chunks[..k]), chunks[k]);
            && Wire(s, a, chunks) == before + r + rest
            && |before| == StartOf(chunks, k) && |before + r| == StartOf(chunks, k + 1)
            && |r| == |chunks[k]| + 21
  {
    hide Lawful;
    hide Record;
    hide AfterRecord;
    hide Advance;
    hide Wire;
    var b := Advance(s, a, chunks[..k]);
    WireLength(s, a, chunks, k);
    RecordSpelled(s, b, chunks[k]);
    WireConcat(s, a, chunks[..k], chunks[k..]);
    assert chunks[..k] + chunks[k..] == chunks;
    rest := WireFirst(s, b, chunks[k..]);
  }

  /** Record `k` of a run stands at its place, with the header `23 3 3` and the length of its body, and
      the body is the chunk sealed under the key and the next nonce of the AEAD as it is by then. */
  lemma KthRecord(s: Suite, a: Aead, chunks: seq<seq<byte>>, k: nat)
    requires Lawful(s) && a.Valid() && Chunks(chunks) && k < |chunks|
    ensures var wire, at, n := Wire(s, a, chunks), StartOf(chunks, k), |chunks[k]| + 16;
            var h, b := [23, 3, 3, n / 256, n % 256], Advance(s, a, chunks[..k]);
            && at + 5 + n <= |wire|
            && wire[at..at + 5 + n] == h + s.seal(b.key, Increase(b.nonce), chunks[k], h)
  {
    var rest := AroundRecord(s, a, chunks, k);
    RecordSpelled(s, Advance(s, a, chunks[..k]), chunks[k]);
    hide Record;
    hide Wire;
    hide Advance;
    hide Lawful;
  }

  lemma AfterSpelled(s: Suite, a: Aead, r: seq<byte>)
    requires a.Valid()
    ensures var a', all := AfterRecord(s, a, r), 0x1_0000_0000_0000_0000_0000_0000;
            if Value(a.nonce) + 1 == all then a'.key == s.derive(r) && Value(a'.nonce) == 0
            else a'.key == a.key && Value(a'.nonce) == Value(a.nonce) + 1
  {
    PeriodIs();
    hide Pow256;
    IncreaseValue(a.nonce);
    ZeroValue(NONCE_LEN);
  }

  lemma PeriodIs()
    ensures Pow256(12) == 0x1_0000_0000_0000_0000_0000_0000
  {
    assert Pow256(4) == 0x1_0000_0000;
    Pow256Plus4(4);
    Pow256Plus4(8);
  }

  lemma Pow256Plus4(n: nat)
    ensures Pow256(n + 4) == 0x1_0000_0000 * Pow256(n)
  {
    assert Pow256(n + 4) == 256 * Pow256(n + 3);
    assert Pow256(n + 3) == 256 * Pow256(n + 2);
    assert Pow256(n + 2) == 256 * Pow256(n + 1);
  }

  /** The AEAD at record `k`: the same key with the nonce moved on by `k`, until 2^96 are used up; the
      record that uses the last one gives the key of the record behind it, whose nonces start over. */
  lemma {:induction false} AeadAt(s: Suite, a: Aead, chunks: seq<seq<byte>>, k: nat)
    requires Lawful(s) && a.Valid() && Chunks(chunks) && k <= |chunks|
    ensures var b, v, all := Advance(s, a, chunks[..k]), Value(a.nonce) + k, 0x1_0000_0000_0000_0000_0000_0000;
            && (v < all ==> b.key == a.key && Value(b.nonce) == v)
            && (v == all ==>
                  && k > 0 && StartOf(chunks, k - 1) <= StartOf(chunks, k) <= |Wire(s, a, chunks)|
                  && b.key == s.derive(Wire(s, a, chunks)[StartOf(chunks, k - 1)..StartOf(chunks, k)])
                  && Value(b.nonce) == 0)
  {
    hide Value;
    hide Pow256;
    if k == 0 {
      PeriodIs();
      assert Value(a.nonce) < Pow256(|a.nonce|);
      assert chunks[..0] == [];
    } else {
      AeadAt(s, a, chunks, k - 1);
      var c := Advance(s, a, chunks[..k - 1]);
      var r := Record(s, c, chunks[k - 1]);
      Append(s, a, chunks[..k - 1], chunks[k - 1]);
      assert chunks[..k] == chunks[..k - 1] + [chunks[k - 1]];
      AfterSpelled(s, c, r);
      var rest := AroundRecord(s, a, chunks, k - 1);
      hide Record;
      hide AfterRecord;
      hide Advance;
      hide Wire;
      hide Lawful;
    }
  }

  // ---- The XOR layer ----

  /** `c` is the exclusive or of `x` and `y`. */
  ghost predicate XorsTo(x: byte, y: byte, c: byte) {
    forall i: nat :: i < 8 ==> (Bit(c, i) <==> Bit(x, i) != Bit(y, i))
  }

  /** `out` is the exclusive or of `bytes` with the key stream from `pos` on. */
  ghost predicate MaskedFrom(key: nat -> byte, pos: nat, bytes: seq<byte>, out: seq<byte>) {
    |out| == |bytes| && forall i: nat :: i < |bytes| ==> XorsTo(bytes[i], key(pos + i), out[i])
  }

  lemma XorSeqMasks(key: nat -> byte, pos: nat, bytes: seq<byte>)
    ensures MaskedFrom(key, pos, bytes, X.XorSeq(X.XorWith(key), pos, bytes))
  {
    forall i: nat, j: nat | i < |bytes| && j < 8
      ensures Bit(Xor(bytes[i], key(pos + i)), j) <==> Bit(bytes[i], j) != Bit(key(pos + i), j)
    {
      XorBit(bytes[i], key(pos + i), j);
    }
    hide Xor;
    hide Bit;
  }

  lemma Slices(before: seq<byte>, h: seq<byte>, body: seq<byte>, rest: seq<byte>)
    ensures var all, at := before + (h + body) + rest, |before|;
            all[at..at + |h|] == h && all[at + |h|..at + |h| + |body|] == body
  {
  }

  lemma MaskedAround(ks: X.KeyStream, pos: nat, pos': nat, before: seq<byte>, r: seq<byte>, rest: seq<byte>)
    returns (e: seq<byte>, e': seq<byte>)
    requires |r| >= 5 && X.After(V.AtHeader(pos), before) == V.AtHeader(pos')
    requires X.Encode(ks, V.AtHeader(pos'), r) == X.XorSeq(ks, pos', r[..5]) + r[5..]
    ensures |e| == |before| && |e'| == |rest|
    ensures X.Encode(ks, V.AtHeader(pos), before + r + rest) == e + (X.XorSeq(ks, pos', r[..5]) + r[5..]) + e'
  {
    hide X.Encode;
    hide X.After;
    X.EncodeSplit(ks, V.AtHeader(pos), before, r + rest);
    X.EncodeSplit(ks, V.AtHeader(pos'), r, rest);
    assert before + r + rest == before + (r + rest);
    e := X.Encode(ks, V.AtHeader(pos), before);
    e' := X.Encode(ks, X.After(V.AtHeader(pos'), r), rest);
  }

  /** The two sides of the XOR layer around record `k`. */
  lemma MaskedRecord(s: Suite, ks: X.KeyStream, a: Aead, chunks: seq<seq<byte>>, pos: nat, k: nat)
    returns (before: seq<byte>, r: seq<byte>, rest: seq<byte>, e: seq<byte>, e': seq<byte>)
    requires Lawful(s) && a.Valid() && Chunks(chunks) && k < |chunks|
    ensures |before| == StartOf(chunks, k) == |e| && |r| == |chunks[k]| + 21 && |rest| == |e'|
    ensures Wire(s, a, chunks) == before + r + rest
    ensures X.Encode(ks, V.AtHeader(pos), Wire(s, a, chunks)) == e + (X.XorSeq(ks, pos + 5 * k, r[..5]) + r[5..]) + e'
  {
    hide X.Encode;
    hide X.After;
    hide X.XorSeq;
    hide Record;
    hide Wire;
    hide Advance;
    hide Lawful;
    var b := Advance(s, a, chunks[..k]);
    before, r := Wire(s, a, chunks[..k]), Record(s, b, chunks[k]);
    rest := AroundRecord(s, a, chunks, k);
    V.HeadersCoincide(s, ks, a, chunks[..k], pos);
    V.RecordAligned(s, ks, b, chunks[k], pos + 5 * k);
    e, e' := MaskedAround(ks, pos, pos + 5 * k, before, r, rest);
  }

  /** In every run of records exactly the five header bytes of each record are masked, each with the
      exclusive or of the next byte of the key stream, and all other bytes go out as they are. */
  lemma MaskedByPosition(s: Suite, key: nat -> byte, a: Aead, chunks: seq<seq<byte>>, pos: nat, k: nat)
    requires Lawful(s) && a.Valid() && Chunks(chunks) && k < |chunks|
    ensures var plain, at, n := Wire(s, a, chunks), StartOf(chunks, k), |chunks[k]| + 16;
            var phys := X.Encode(X.XorWith(key), X.State(0, [], pos), plain);
            && |phys| == |plain| && at + 5 + n <= |plain|
            && MaskedFrom(key, pos + 5 * k, plain[at..at + 5], phys[at..at + 5])
            && phys[at + 5..at + 5 + n] == plain[at + 5..at + 5 + n]
  {
    hide X.Encode;
    hide X.XorWith;
    hide X.XorSeq;
    hide MaskedFrom;
    hide Wire;
    hide Lawful;
    hide Chunks;
    hide StartOf;
    var ks := X.XorWith(key);
    var before, r, rest, e, e' := MaskedRecord(s, ks, a, chunks, pos, k);
    XorSeqMasks(key, pos + 5 * k, r[..5]);
    assert r[..5] + r[5..] == r;
    Slices(before, r[..5], r[5..], rest);
    Slices(e, X.XorSeq(ks, pos + 5 * k, r[..5]), r[5..], e');
  }

  // ---- Bytes no writer has sent ----

  /** Whatever has arrived, a read returns no more than the buffer holds, and what is left of the last
      record comes before anything is taken off the link. */
  lemma FitsBuffer(s: Suite, l: Link, n: nat, avail: nat, broken: bool)
    requires avail <= |l.flight| && (l.rx.Some? ==> l.rx.value.Valid())
    ensures var (r, l') := Receive(s, l, n, avail, broken);
            && (r.Got? ==> |r.bytes| <= n)
            && (l.rx.Some? && l.padding == 0 && l.input != [] && n > 0 ==>
                  var k := if n < |l.input| then n else |l.input|;
                  r == Got(l.input[..k]) && l'.input == l.input[k..] && l'.flight == l.flight)
  {
    hide AfterRecord;
    hide DecodeHeader;
  }

  /** A header `23 3 3` with a length from 17 to 16640. */
  ghost predicate GoodHeader(b: seq<byte>, len: nat)
    requires |b| >= 5
  {
    b[0] == 23 && b[1] == 3 && b[2] == 3 && len == 256 * (b[3] as int) + b[4] as int && 17 <= len <= 16640
  }

  /** A reader with a key, whatever bytes have arrived: it fails on any other header and on a body that
      does not open under its next nonce; it waits for a record that is not complete; otherwise it
      returns what it opened, up to the size of the buffer, and keeps the rest for the next call. */
  lemma ReadsOrRefuses(s: Suite, l: Link, n: nat)
    requires l.rx.Some? && l.rx.value.Valid() && l.padding == 0 && l.input == [] && n > 0
    ensures var (r, l'), b, a := Receive(s, l, n, |l.flight|, false), l.flight, l.rx.value;
            if |b| < 5 then r == Stall
            else if exists len: nat :: GoodHeader(b, len)
            then
              var len := 256 * (b[3] as int) + b[4] as int;
              if |b| < 5 + len then r == Stall
              else match s.open(a.key, Increase(a.nonce), b[5..5 + len], b[..5])
                case None => r == Fail
                case Some(plain) =>
                  && r == Got(if |plain| <= n then plain else plain[..n])
                  && l'.input == (if |plain| <= n then [] else plain[n..]) && l'.flight == b[5 + len..]
            else r == Fail
  {
    var b := l.flight;
    if |b| >= 5 {
      var len := 256 * (b[3] as int) + b[4] as int;
      HeaderIff(b[..5], len);
      assert DecodeHeader(b[..5]) == if GoodHeader(b, len) then Some(len) else None;
      hide DecodeHeader;
    }
    hide AfterRecord;
  }
}
