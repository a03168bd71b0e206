/**
 The record layer of VLESS encryption. Each record is a five-byte header and an AEAD ciphertext; the
 12-byte nonce is incremented before every use, and when it wraps both sides derive a new key from the
 record that used the wrapped nonce.
 */
module Records {
  import opened Words
  import opened Basics
  import opened Nonces
  import opened RecordHeader

  type Key = nat

  /** The AEAD and the key derivation, as arbitrary functions: `derive(ctx)` is
      `NewAEAD(ctx, unitedKey, useAES)`. */
  datatype Suite = Suite(
    derive: seq<byte> -> Key,
    seal: (Key, seq<byte>, seq<byte>, seq<byte>) -> seq<byte>,
    open: (Key, seq<byte>, seq<byte>, seq<byte>) -> Option<seq<byte>>)

  /** Sixteen bytes of tag, and opening undoes sealing. */
  ghost predicate Lawful(s: Suite) {
    && (forall k, n, p, a :: |s.seal(k, n, p, a)| == |p| + 16)
    && (forall k, n, p, a :: s.open(k, n, s.seal(k, n, p, a), a) == Some(p))
  }

  const MAX_CHUNK: nat := 8192
  const MAX_NONCE: seq<byte> := Repeat(255, NONCE_LEN)

  /** An AEAD with its running nonce. */
  datatype Aead = Aead(key: Key, nonce: seq<byte>) {
    ghost predicate Valid() {
      |nonce| == NONCE_LEN
    }
  }

  function NewAead(s: Suite, ctx: seq<byte>): (a: Aead)
    ensures a.Valid()
  {
    Aead(s.derive(ctx), Repeat(0, NONCE_LEN))
  }

  /** The bytes of one record. */
  function Record(s: Suite, a: Aead, chunk: seq<byte>): (r: seq<byte>)
    requires |chunk| <= MAX_CHUNK
  {
    var h := EncodeHeader(|chunk| + 16);
    h + s.seal(a.key, Increase(a.nonce), chunk, h)
  }

  /** The AEAD after a record whose bytes are `r`: a new key when the nonce has wrapped. */
  function AfterRecord(s: Suite, a: Aead, r: seq<byte>): (a': Aead)
    requires a.Valid()
    ensures a'.Valid()
  {
    if a.nonce == MAX_NONCE then NewAead(s, r) else Aead(a.key, Increase(a.nonce))
  }

  ghost predicate Chunks(chunks: seq<seq<byte>>) {
    forall i :: 0 <= i < |chunks| ==> 1 <= |chunks[i]| <= MAX_CHUNK
  }

  /** The bytes of a run of records, and the AEAD after them. */
  ghost function Wire(s: Suite, a: Aead, chunks: seq<seq<byte>>): seq<byte>
    requires a.Valid() && Chunks(chunks)
    decreases |chunks|
  {
    if chunks == [] then []
    else
      var r := Record(s, a, chunks[0]);
      r + Wire(s, AfterRecord(s, a, r), chunks[1..])
  }

  ghost function Advance(s: Suite, a: Aead, chunks: seq<seq<byte>>): (a': Aead)
    requires a.Valid() && Chunks(chunks)
    ensures a'.Valid()
    decreases |chunks|
  {
    if chunks == [] then a else Advance(s, AfterRecord(s, a, Record(s, a, chunks[0])), chunks[1..])
  }

  lemma {:induction false} Append(s: Suite, a: Aead, chunks: seq<seq<byte>>, c: seq<byte>)
    requires a.Valid() && Chunks(chunks) && 1 <= |c| <= MAX_CHUNK
    ensures var b := Advance(s, a, chunks);
            && Wire(s, a, chunks + [c]) == Wire(s, a, chunks) + Record(s, b, c)
            && Advance(s, a, chunks + [c]) == AfterRecord(s, b, Record(s, b, c))
            && Flatten(chunks + [c]) == Flatten(chunks) + c
    decreases |chunks|
  {
    if chunks == [] {
      assert chunks + [c] == [c] && [c][1..] == [];
    } else {
      assert (chunks + [c])[1..] == chunks[1..] + [c];
      Append(s, AfterRecord(s, a, Record(s, a, chunks[0])), chunks[1..], c);
    }
  }

  // ---- Nonce use ----

  const PERIOD: nat := Pow256(NONCE_LEN)

  /** A use of a nonce: which key of the connection, counting from the first, and which nonce. */
  datatype Use = Use(epoch: nat, nonce: seq<byte>)

  /** The `k`-th use of nonces counted from a fresh key: nonces 1, 2, ... and, last, 0. */
  ghost predicate IsUse(u: Use, k: nat) {
    && |u.nonce| == NONCE_LEN
    && k + 1 == u.epoch * PERIOD + if Value(u.nonce) == 0 then PERIOD else Value(u.nonce)
  }

  /** Sealing one record makes the next use. */
  lemma NextUse(nonce: seq<byte>, k: nat, epoch: nat)
    requires |nonce| == NONCE_LEN && k == epoch * PERIOD + Value(nonce)
    ensures IsUse(Use(epoch, Increase(nonce)), k)
    ensures nonce == MAX_NONCE ==> k + 1 == (epoch + 1) * PERIOD
    ensures nonce != MAX_NONCE ==> k + 1 == epoch * PERIOD + Value(Increase(nonce))
  {
    IncreaseValue(nonce);
  }

  // ---- Reading the first record off the wire ----

  lemma FirstHeader(s: Suite, a: Aead, chunks: seq<seq<byte>>, flight: seq<byte>)
    requires a.Valid() && Chunks(chunks) && Lawful(s)
    requires flight <= Wire(s, a, chunks) && |flight| >= HEADER_LEN
    ensures chunks != [] && flight[..HEADER_LEN] == EncodeHeader(|chunks[0]| + 16)
    ensures DecodeHeader(flight[..HEADER_LEN]) == Some(|chunks[0]| + 16)
  {
    var r := Record(s, a, chunks[0]);
    assert Wire(s, a, chunks) == r + Wire(s, AfterRecord(s, a, r), chunks[1..]);
    assert flight[..HEADER_LEN] == r[..HEADER_LEN];
    HeaderRoundTrip(|chunks[0]| + 16);
  }

  lemma FirstRecord(s: Suite, a: Aead, chunks: seq<seq<byte>>, flight: seq<byte>)
    requires a.Valid() && Chunks(chunks) && Lawful(s) && chunks != []
    requires flight <= Wire(s, a, chunks) && |flight| >= HEADER_LEN + |chunks[0]| + 16
    ensures var h, body := flight[..HEADER_LEN], flight[HEADER_LEN..HEADER_LEN + |chunks[0]| + 16];
            && h + body == Record(s, a, chunks[0])
            && s.open(a.key, Increase(a.nonce), body, h) == Some(chunks[0])
            && flight[HEADER_LEN + |chunks[0]| + 16..] <= Wire(s, AfterRecord(s, a, h + body), chunks[1..])
            && (flight == Wire(s, a, chunks) ==>
                  flight[HEADER_LEN + |chunks[0]| + 16..] == Wire(s, AfterRecord(s, a, h + body), chunks[1..]))
  {
    var r := Record(s, a, chunks[0]);
    var n := HEADER_LEN + |chunks[0]| + 16;
    assert Wire(s, a, chunks) == r + Wire(s, AfterRecord(s, a, r), chunks[1..]);
    assert flight[..n] == r;
    assert flight[..HEADER_LEN] == r[..HEADER_LEN] && flight[HEADER_LEN..n] == r[HEADER_LEN..];
    assert flight[..HEADER_LEN] + flight[HEADER_LEN..n] == r;
  }
}
