/**
 64-bit machine words seen as bit positions.

 Bitwise conjunction is defined digit by digit on natural numbers, `Pow2(i)` is the Go
 expression `1 << i`, and the library functions of `math/bits` are defined by the positions
 they count.
 */
module Words {

  type byte = x: int | 0 <= x < 256

  function Pow2(i: nat): (p: nat)
    ensures p >= 1
  {
    if i == 0 then 1 else 2 * Pow2(i - 1)
  }

  type word = w: int | 0 <= w < 0x1_0000_0000_0000_0000

  /** `x & y` */
  function And(x: nat, y: nat): (r: nat)
    ensures r <= x && r <= y
  {
    if x == 0 || y == 0 then 0
    else 2 * And(x / 2, y / 2) + if x % 2 == 1 && y % 2 == 1 then 1 else 0
  }

  /** Whether bit `i` of `w` is set. */
  predicate Bit(w: nat, i: nat) {
    if i == 0 then w % 2 == 1 else Bit(w / 2, i - 1)
  }

  /** Testing a bit is conjunction with `1 << i`. */
  lemma {:induction false} BitIsAnd(w: nat, i: nat)
    ensures And(w, Pow2(i)) == if Bit(w, i) then Pow2(i) else 0
  {
    if i == 0 {
      assert And(w / 2, 0) == 0;
    } else {
      BitIsAnd(w / 2, i - 1);
    }
  }

  /** Number of set bits among positions `0 .. n-1`. */
  function OnesBelow(w: nat, n: nat): (r: nat)
    ensures r <= n
  {
    if n == 0 then 0 else OnesBelow(w, n - 1) + if Bit(w, n - 1) then 1 else 0
  }

  /** `bits.OnesCount64` */
  function OnesCount64(w: word): nat {
    OnesBelow(w, 64)
  }

  function LeadingZerosBelow(w: nat, n: nat): (z: nat)
    ensures z <= n
    ensures z < n ==> Bit(w, n - 1 - z)
    ensures forall i :: n - z <= i < n ==> !Bit(w, i)
  {
    if n == 0 || Bit(w, n - 1) then 0 else 1 + LeadingZerosBelow(w, n - 1)
  }

  /** `bits.LeadingZeros64` */
  function LeadingZeros64(w: word): nat {
    LeadingZerosBelow(w, 64)
  }

  lemma {:induction false} ZeroHasNoBit(i: nat)
    ensures !Bit(0, i)
  {
    if i != 0 {
      ZeroHasNoBit(i - 1);
    }
  }

  /** Conjunction with the mask `(1 << b) - 1` keeps exactly the positions below `b`. */
  lemma {:induction false} MaskedBit(w: nat, b: nat, i: nat)
    ensures Bit(And(w, Pow2(b) - 1), i) <==> i < b && Bit(w, i)
  {
    if b == 0 {
      ZeroHasNoBit(i);
    } else {
      var m := And(w, Pow2(b) - 1);
      AndOddMask(w, Pow2(b - 1) - 1, m);
      if i != 0 {
        MaskedBit(w / 2, b - 1, i - 1);
      }
    }
  }

  lemma AndOddMask(w: nat, half: nat, m: nat)
    requires m == And(w, 2 * half + 1)
    ensures m / 2 == And(w / 2, half) && m % 2 == w % 2
  {
  }

  /** Counting under the mask `(1 << b) - 1` counts the positions below `b`. */
  lemma {:induction false} MaskedOnes(w: nat, b: nat, n: nat)
    ensures OnesBelow(And(w, Pow2(b) - 1), n) == OnesBelow(w, if n < b then n else b)
  {
    if n != 0 {
      MaskedOnes(w, b, n - 1);
      MaskedBit(w, b, n - 1);
    }
  }

  lemma {:induction false} NoBitsIsZero(w: nat, n: nat)
    requires w < Pow2(n)
    requires forall i :: 0 <= i < n ==> !Bit(w, i)
    ensures w == 0
  {
    if n != 0 {
      forall i | 0 <= i < n - 1
        ensures !Bit(w / 2, i)
      {
        assert Bit(w / 2, i) == Bit(w, i + 1);
      }
      NoBitsIsZero(w / 2, n - 1);
      assert !Bit(w, 0);
    }
  }

  /** A non-zero word has a highest set bit, at position `63 - LeadingZeros64(w)`. */
  lemma NonZeroHasTopBit(w: word)
    requires w != 0
    ensures LeadingZeros64(w) < 64
  {
    if LeadingZeros64(w) == 64 {
      Pow2Of64();
      NoBitsIsZero(w, 64);
    }
  }

  lemma Pow2Of64()
    ensures Pow2(64) == 0x1_0000_0000_0000_0000
  {
    assert Pow2(8) == 0x100;
    Pow2Times256(8);
    Pow2Times256(16);
    Pow2Times256(24);
    Pow2Times256(32);
    Pow2Times256(40);
    Pow2Times256(48);
    Pow2Times256(56);
  }

  lemma Pow2Times256(i: nat)
    ensures Pow2(i + 8) == 256 * Pow2(i)
  {
    assert Pow2(i + 8) == 4 * Pow2(i + 6);
    assert Pow2(i + 6) == 4 * Pow2(i + 4);
    assert Pow2(i + 4) == 4 * Pow2(i + 2);
  }

  // ---- Exclusive or of bytes ----

  function XorDigits(x: nat, y: nat, n: nat): (r: nat)
    ensures r < Pow2(n)
  {
    if n == 0 then 0 else 2 * XorDigits(x / 2, y / 2, n - 1) + if x % 2 != y % 2 then 1 else 0
  }

  /** `x ^ y` */
  function Xor(x: byte, y: byte): byte {
    assert Pow2(8) == 256;
    XorDigits(x, y, 8)
  }

  lemma {:induction false} XorDigitsBit(x: nat, y: nat, n: nat, i: nat)
    requires i < n
    ensures Bit(XorDigits(x, y, n), i) <==> Bit(x, i) != Bit(y, i)
  {
    if i != 0 {
      XorDigitsBit(x / 2, y / 2, n - 1, i - 1);
    }
  }

  /** Exclusive or, bit by bit. */
  lemma XorBit(x: byte, y: byte, i: nat)
    requires i < 8
    ensures Bit(Xor(x, y), i) <==> Bit(x, i) != Bit(y, i)
  {
    XorDigitsBit(x, y, 8, i);
  }

  lemma {:induction false} XorDigitsTwice(x: nat, y: nat, n: nat)
    requires x < Pow2(n)
    ensures XorDigits(XorDigits(x, y, n), y, n) == x
  {
    if n != 0 {
      XorDigitsTwice(x / 2, y / 2, n - 1);
    }
  }

  lemma XorTwice(x: byte, y: byte)
    ensures Xor(Xor(x, y), y) == x
  {
    assert Pow2(8) == 256;
    XorDigitsTwice(x, y, 8);
  }
}
