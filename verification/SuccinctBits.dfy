/**
 The bit layer shared by the compressed domain sets: a bitmap of 64-bit words, a table of
 one-counts per word, `rank`, and `select` by binary search followed by a scan of one word.
 Everything is stated about the bitmap read as one sequence of bits.
 */
module SuccinctBits {
  import opened Words

  /** Number of ones in `[0, i)`. */
  ghost function Ones(bits: seq<bool>, i: nat): (r: nat)
    requires i <= |bits|
    ensures r <= i
  {
    if i == 0 then 0 else Ones(bits, i - 1) + if bits[i - 1] then 1 else 0
  }

  ghost function Zeros(bits: seq<bool>, i: nat): nat
    requires i <= |bits|
  {
    i - Ones(bits, i)
  }

  lemma {:induction false} OnesMonotone(bits: seq<bool>, i: nat, j: nat)
    requires i <= j <= |bits|
    ensures Ones(bits, i) <= Ones(bits, j)
    ensures Zeros(bits, i) <= Zeros(bits, j)
  {
    if i < j {
      OnesMonotone(bits, i, j - 1);
    }
  }

  lemma {:induction false} OnesOfPrefix(bits: seq<bool>, more: seq<bool>, i: nat)
    requires i <= |bits|
    ensures Ones(bits + more, i) == Ones(bits, i)
  {
    if i != 0 {
      OnesOfPrefix(bits, more, i - 1);
    }
  }

  ghost function WordBits(w: word): (bits: seq<bool>)
    ensures |bits| == 64
  {
    seq(64, i requires 0 <= i < 64 => Bit(w, i))
  }

  /** The bitmap as a sequence of bits, lowest bit of the first word first. */
  ghost function Bits(bm: seq<word>): (bits: seq<bool>)
    ensures |bits| == 64 * |bm|
  {
    if bm == [] then [] else Bits(bm[..|bm| - 1]) + WordBits(bm[|bm| - 1])
  }

  lemma {:induction false} BitsAt(bm: seq<word>, w: nat, b: nat)
    requires w < |bm| && b < 64
    ensures Bits(bm)[64 * w + b] == Bit(bm[w], b)
  {
    if w < |bm| - 1 {
      BitsAt(bm[..|bm| - 1], w, b);
    }
  }

  /** `getBit(bm, i) != 0`, where `getBit` is `bm[i>>6] & (1 << (i&63))` */
  method GetBit(bm: seq<word>, i: nat) returns (b: bool)
    requires i < 64 * |bm|
    ensures b == Bits(bm)[i]
  {
    BitsAt(bm, i / 64, i % 64);
    BitIsAnd(bm[i / 64], i % 64);
    b := And(bm[i / 64], Pow2(i % 64)) != 0;
  }

  lemma {:induction false} OnesWithinWord(bm: seq<word>, w: nat, b: nat)
    requires w < |bm| && b <= 64
    ensures Ones(Bits(bm), 64 * w + b) == Ones(Bits(bm), 64 * w) + OnesBelow(bm[w], b)
  {
    if b != 0 {
      OnesWithinWord(bm, w, b - 1);
      BitsAt(bm, w, b - 1);
    }
  }

  /** `int32(x)` for non-negative `x`: the low 32 bits, read as a signed number. */
  function Int32(x: nat): (r: int)
    ensures r == x <==> x < 0x8000_0000
  {
    var low := x % 0x1_0000_0000;
    if low < 0x8000_0000 then low else low - 0x1_0000_0000
  }

  /** int32 addition of a small count, with wrap-around. */
  function AddInt32(x: int, y: nat): int {
    if x + y < 0x8000_0000 then x + y else x + y - 0x1_0000_0000
  }

  lemma Int32Step(x: nat, y: nat)
    requires y <= 64
    ensures Int32(x + y) == AddInt32(Int32(x), y)
  {
  }

  /** The table `wordOnes`: entry `w` counts the ones of the first `w` words, in an int32. */
  ghost predicate IsWordOnes(wordOnes: seq<int>, bm: seq<word>) {
    && |wordOnes| == |bm| + 1
    && forall w :: 0 <= w <= |bm| ==> wordOnes[w] == Int32(Ones(Bits(bm), 64 * w))
  }

  lemma NextWordOnes(bm: seq<word>, w: nat)
    requires w < |bm|
    ensures Int32(Ones(Bits(bm), 64 * (w + 1))) == AddInt32(Int32(Ones(Bits(bm), 64 * w)), OnesCount64(bm[w]))
  {
    OnesWithinWord(bm, w, 64);
    Int32Step(Ones(Bits(bm), 64 * w), OnesCount64(bm[w]));
  }

  method NewWordOnes(bm: seq<word>) returns (wordOnes: seq<int>)
    ensures IsWordOnes(wordOnes, bm)
  {
    var table := new int[|bm| + 1](_ => 0);
    for i := 0 to |bm|
      invariant forall w :: 0 <= w <= i ==> table[w] == Int32(Ones(Bits(bm), 64 * w))
    {
      NextWordOnes(bm, i);
      table[i + 1] := AddInt32(table[i], OnesCount64(bm[i]));
    }
    return table[..];
  }

  ghost predicate Exact(wordOnes: seq<int>, bm: seq<word>) {
    && |wordOnes| == |bm| + 1
    && forall w :: 0 <= w <= |bm| ==> wordOnes[w] == Ones(Bits(bm), 64 * w)
  }

  /** The table counts correctly exactly when the bitmap has fewer than 2^31 ones. */
  lemma WordOnesExact(wordOnes: seq<int>, bm: seq<word>)
    requires IsWordOnes(wordOnes, bm)
    ensures Exact(wordOnes, bm) <==> Ones(Bits(bm), 64 * |bm|) < 0x8000_0000
  {
    forall w | 0 <= w <= |bm|
      ensures Ones(Bits(bm), 64 * w) <= Ones(Bits(bm), 64 * |bm|)
    {
      OnesMonotone(Bits(bm), 64 * w, 64 * |bm|);
    }
  }

  method Rank(wordOnes: seq<int>, bm: seq<word>, i: nat) returns (r: int)
    requires Exact(wordOnes, bm)
    requires i <= 64 * |bm|
    ensures r == Ones(Bits(bm), i)
  {
    var w, b := i / 64, i % 64;
    r := wordOnes[w];
    if b != 0 {
      MaskedOnes(bm[w], b, 64);
      OnesWithinWord(bm, w, b);
      r := r + OnesCount64(And(bm[w], Pow2(b) - 1));
    }
  }

  method CountZeros(wordOnes: seq<int>, bm: seq<word>, i: nat) returns (r: int)
    requires Exact(wordOnes, bm)
    requires i <= 64 * |bm|
    ensures r == Zeros(Bits(bm), i)
  {
    r := Rank(wordOnes, bm, i);
    r := i - r;
  }

  lemma WordOnesDiffer(wordOnes: seq<int>, bm: seq<word>, w: nat)
    requires Exact(wordOnes, bm) && w < |bm|
    ensures wordOnes[w + 1] == wordOnes[w] + OnesBelow(bm[w], 64)
  {
    OnesWithinWord(bm, w, 64);
  }

  /** Position of the `i`-th one, counting from 0. */
  method SelectIthOne(wordOnes: seq<int>, bm: seq<word>, i: nat) returns (p: int)
    requires Exact(wordOnes, bm)
    requires i < Ones(Bits(bm), 64 * |bm|)
    ensures 0 <= p < 64 * |bm|
    ensures Bits(bm)[p] && Ones(Bits(bm), p) == i
  {
    var lo, hi := 0, |bm|;
    while lo < hi
      invariant 0 <= lo <= hi <= |bm|
      invariant wordOnes[lo] <= i
      invariant hi < |bm| ==> i < wordOnes[hi + 1]
    {
      var mid := (lo + hi) / 2;
      if wordOnes[mid + 1] <= i {
        lo := mid + 1;
      } else {
        hi := mid;
      }
    }
    var remain := i - wordOnes[lo];
    var x := bm[lo];
    WordOnesDiffer(wordOnes, bm, lo);
    for b := 0 to 64
      invariant remain == i - wordOnes[lo] - OnesBelow(x, b)
      invariant remain >= 0
    {
      if Bit(x, b) {
        if remain == 0 {
          BitsAt(bm, lo, b);
          OnesWithinWord(bm, lo, b);
          return 64 * lo + b;
        }
        remain := remain - 1;
      }
    }
    assert false;
  }
}
