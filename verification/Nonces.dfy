/** The twelve-byte nonce of an AEAD, as a big-endian number. */
module Nonces {
  import opened Words

  const NONCE_LEN: nat := 12

  function Pow256(n: nat): (p: nat)
    ensures p >= 1
  {
    if n == 0 then 1 else 256 * Pow256(n - 1)
  }

  /** Big-endian value. */
  function Value(s: seq<byte>): (v: nat)
    ensures v < Pow256(|s|)
  {
    if s == [] then 0 else Value(s[..|s| - 1]) * 256 + s[|s| - 1]
  }

  /** Add one with carry, dropping the carry out of the first byte. */
  function Increase(s: seq<byte>): (r: seq<byte>)
    ensures |r| == |s|
  {
    if s == [] then []
    else
      var init, last := s[..|s| - 1], s[|s| - 1];
      if last == 255 then Increase(init) + [0] else init + [last + 1]
  }

  function Repeat(x: byte, n: nat): (s: seq<byte>)
    ensures |s| == n
  {
    seq(n, _ => x)
  }

  lemma {:induction false} IncreaseValue(s: seq<byte>)
    ensures Value(Increase(s)) == if Value(s) + 1 == Pow256(|s|) then 0 else Value(s) + 1
    ensures Value(s) + 1 == Pow256(|s|) <==> s == Repeat(255, |s|)
    ensures Value(s) + 1 == Pow256(|s|) ==> Increase(s) == Repeat(0, |s|)
  {
    if s == [] {
      assert s == Repeat(255, 0) && s == Repeat(0, 0);
    } else {
      var init, last := s[..|s| - 1], s[|s| - 1];
      IncreaseValue(init);
      var r := Increase(s);
      assert r[..|s| - 1] == if last == 255 then Increase(init) else init;
      assert s == Repeat(255, |s|) <==> init == Repeat(255, |s| - 1) && last == 255;
    }
  }

  lemma {:induction false} ZeroValue(n: nat)
    ensures Value(Repeat(0, n)) == 0
  {
    if n != 0 {
      assert Repeat(0, n)[..n - 1] == Repeat(0, n - 1);
      ZeroValue(n - 1);
    }
  }

  lemma {:induction false} ValueInjective(s: seq<byte>, t: seq<byte>)
    requires |s| == |t| && Value(s) == Value(t)
    ensures s == t
  {
    if s != [] {
      ValueInjective(s[..|s| - 1], t[..|t| - 1]);
      assert s == s[..|s| - 1] + [s[|s| - 1]] && t == t[..|t| - 1] + [t[|t| - 1]];
    }
  }

  /** `IncreaseNonce`, in place. */
  method IncreaseNonce(nonce: array<byte>)
    requires nonce.Length == NONCE_LEN
    modifies nonce
    ensures nonce[..] == Increase(old(nonce[..]))
  {
    ghost var s := nonce[..];
    assert s[..NONCE_LEN] == s && Increase(s) + Repeat(0, 0) == Increase(s);
    for i := 0 to NONCE_LEN
      invariant nonce[..] == s[..NONCE_LEN - i] + Repeat(0, i)
      invariant Increase(s) == Increase(s[..NONCE_LEN - i]) + Repeat(0, i)
    {
      var k := NONCE_LEN - 1 - i;
      assert s[..k + 1][..k] == s[..k];
      assert [0] + Repeat(0, i) == Repeat(0, i + 1);
      nonce[k] := if nonce[k] == 255 then 0 else nonce[k] + 1;
      if nonce[k] != 0 {
        assert nonce[..] == s[..k] + [nonce[k]] + Repeat(0, i);
        return;
      }
      assert nonce[..] == s[..k] + Repeat(0, i + 1);
    }
  }
}
