/**
 The sing-box domain set: a trie laid out level by level in a bitmap. A one closes a node, a
 zero is an edge; the edges of node `k` are the zeros that follow exactly `k` ones, the zero
 at position `z` carries label `labels[zeros before z]` and leads to node `zeros before z + 1`.
 The label `\r` marks a domain suffix, the label `\n` a suffix together with its apex.
 */
module DomainTrie {
  import opened Words
  import opened SuccinctBits

  const PREFIX_LABEL: byte := 13
  const ROOT_LABEL: byte := 10
  const DOT: byte := 46

  /** The bitmap and the leaf bitmap as bit sequences, with the edge labels. */
  datatype Trie = Trie(bits: seq<bool>, leaves: seq<bool>, labels: seq<byte>) {

    /** Position of the last one. */
    static ghost predicate LastOne(bits: seq<bool>, last: int) {
      && -1 <= last < |bits|
      && (last >= 0 ==> bits[last])
      && forall i :: last < i < |bits| ==> !bits[i]
    }

    /** With `n` labels there are `n` zeros before the last one, `n + 1` ones, and a leaf bit
        for each of the `n + 1` nodes. */
    ghost predicate WellCounted() {
      && LastOne(bits, 2 * |labels|)
      && Ones(bits, 2 * |labels| + 1) == |labels| + 1
      && |labels| < |leaves|
    }

    ghost predicate IsEdge(z: nat)
      requires WellCounted()
    {
      z < 2 * |labels| && !bits[z]
    }

    lemma EdgeHasLabel(z: nat)
      requires WellCounted() && IsEdge(z)
      ensures Zeros(bits, z) < |labels|
      ensures Zeros(bits, z + 1) == Zeros(bits, z) + 1
    {
      OnesMonotone(bits, z + 1, 2 * |labels| + 1);
    }

    ghost predicate Edge(k: nat, z: nat)
      requires WellCounted()
    {
      IsEdge(z) && Ones(bits, z) == k
    }

    ghost function Label(z: nat): byte
      requires WellCounted() && IsEdge(z)
    {
      EdgeHasLabel(z);
      labels[Zeros(bits, z)]
    }

    ghost function Child(z: nat): (k: nat)
      requires WellCounted() && IsEdge(z)
      ensures k <= |labels|
    {
      EdgeHasLabel(z);
      Zeros(bits, z) + 1
    }

    /** The words spelled by the paths from node `k` to a leaf. */
    ghost predicate Holds(k: nat, w: seq<byte>)
      requires WellCounted() && k <= |labels|
      decreases |w|
    {
      if w == [] then leaves[k]
      else exists z :: Edge(k, z) && Label(z) == w[0] && Holds(Child(z), w[1..])
    }

    static predicate Special(c: byte) {
      c == PREFIX_LABEL || c == ROOT_LABEL
    }

    /** Siblings carry distinct labels, special labels come first and end at a leaf. */
    ghost predicate WellLabelled()
      requires WellCounted()
    {
      && (forall k: nat, z: nat, z': nat :: Edge(k, z) && Edge(k, z') && Label(z) == Label(z') ==> z == z')
      && (forall k: nat, z: nat, z': nat ::
            Edge(k, z) && Edge(k, z') && Special(Label(z)) && !Special(Label(z')) ==> z < z')
      && (forall k: nat, z: nat :: Edge(k, z) && Special(Label(z)) ==> leaves[Child(z)])
    }

    /** The set a trie denotes: exact names, suffixes ending in `\r` (13), and suffixes ending in `\n` (10)
        with their apex, the dot being 46. */
    ghost predicate Matches(k: nat, key: seq<byte>)
      requires WellCounted() && k <= |labels|
    {
      || Holds(k, key)
      || (exists p :: 0 <= p <= |key| && Holds(k, key[..p] + [13]))
      || (exists p :: 0 <= p <= |key| && (p == |key| || key[p] == 46) && Holds(k, key[..p] + [10]))
    }

    ghost predicate HasEdge(k: nat, c: byte)
      requires WellCounted()
    {
      exists z :: Edge(k, z) && Label(z) == c
    }

    ghost predicate SpecialHit(k: nat, key: seq<byte>)
      requires WellCounted()
    {
      || HasEdge(k, PREFIX_LABEL)
      || (HasEdge(k, ROOT_LABEL) && (key == [] || key[0] == DOT))
    }

    lemma HoldsSpecial(k: nat, c: byte)
      requires WellCounted() && WellLabelled() && k <= |labels| && Special(c)
      ensures Holds(k, [c]) <==> HasEdge(k, c)
    {
      assert [c][1..] == [];
    }

    lemma MatchesEmpty(k: nat)
      requires WellCounted() && WellLabelled() && k <= |labels|
      ensures Matches(k, []) <==> leaves[k] || SpecialHit(k, [])
    {
      var key: seq<byte> := [];
      forall c: byte | Special(c)
        ensures Holds(k, key[..0] + [c]) <==> HasEdge(k, c)
      {
        HoldsSpecial(k, c);
        assert key[..0] + [c] == [c];
      }
    }

    /** The first character of a word decides the edge, and labels of siblings are distinct. */
    lemma HoldsAlong(k: nat, w: seq<byte>, z: nat)
      requires WellCounted() && WellLabelled() && k <= |labels| && w != []
      requires Edge(k, z) && Label(z) == w[0]
      ensures Holds(k, w) <==> Holds(Child(z), w[1..])
    {
      hide Label;
      hide Child;
    }

    lemma HoldsNowhere(k: nat, w: seq<byte>)
      requires WellCounted() && k <= |labels| && w != [] && !HasEdge(k, w[0])
      ensures !Holds(k, w)
    {
      hide Label;
      hide Child;
    }

    lemma MatchesNoEdge(k: nat, key: seq<byte>)
      requires WellCounted() && WellLabelled() && k <= |labels| && key != []
      requires !HasEdge(k, key[0])
      ensures Matches(k, key) <==> SpecialHit(k, key)
    {
      hide WellLabelled;
      hide HasEdge;
      HoldsNowhere(k, key);
      forall p, c: byte | 0 <= p <= |key| && Special(c)
        ensures Holds(k, key[..p] + [c]) <==> p == 0 && HasEdge(k, c)
      {
        if p == 0 {
          assert key[..p] + [c] == [c];
          HoldsSpecial(k, c);
        } else {
          HoldsNowhere(k, key[..p] + [c]);
        }
      }
      hide Holds;
      assert Holds(k, key[..0] + [PREFIX_LABEL]) <==> HasEdge(k, PREFIX_LABEL);
      assert Holds(k, key[..0] + [ROOT_LABEL]) <==> HasEdge(k, ROOT_LABEL);
    }

    lemma MatchesEdge(k: nat, key: seq<byte>, z: nat)
      requires WellCounted() && WellLabelled() && k <= |labels| && key != []
      requires Edge(k, z) && Label(z) == key[0]
      ensures Matches(k, key) <==> SpecialHit(k, key) || Matches(Child(z), key[1..])
    {
      hide WellLabelled;
      hide HasEdge;
      hide Label;
      hide Holds;
      var rest, next := key[1..], Child(z);
      HoldsAlong(k, key, z);
      forall c: byte | Special(c)
        ensures Holds(k, key[..0] + [c]) <==> HasEdge(k, c)
      {
        assert key[..0] + [c] == [c];
        HoldsSpecial(k, c);
      }
      forall p, c: byte | 0 < p <= |key|
        ensures Holds(k, key[..p] + [c]) <==> Holds(next, rest[..p - 1] + [c])
      {
        assert (key[..p] + [c])[1..] == rest[..p - 1] + [c];
        HoldsAlong(k, key[..p] + [c], z);
      }
      forall q, c: byte | 0 <= q <= |rest|
        ensures Holds(next, rest[..q] + [c]) <==> Holds(k, key[..q + 1] + [c])
      {
        assert rest[..q + 1 - 1] == rest[..q];
      }
    }

    lemma SpecialHitMatches(k: nat, key: seq<byte>)
      requires WellCounted() && WellLabelled() && k <= |labels|
      requires SpecialHit(k, key)
      ensures Matches(k, key)
    {
      if key == [] {
        MatchesEmpty(k);
      } else if z :| Edge(k, z) && Label(z) == key[0] {
        MatchesEdge(k, key, z);
      } else {
        MatchesNoEdge(k, key);
      }
    }

    // ---- Scanning the edges of one node ----

    lemma NodeOpen(k: nat, z: nat)
      requires WellCounted() && k <= |labels|
      requires z <= |bits| && Ones(bits, z) == k
      ensures z <= 2 * |labels|
    {
      var close: nat := 2 * |labels| + 1;
      if close <= z {
        OnesMonotone(bits, close, z);
      }
    }

    /** The `k`-th one separates the edges of node `k` from those of node `k + 1`. */
    lemma NodeClosed(k: nat, next: nat, z: nat)
      requires WellCounted() && z <= 2 * |labels| && next == k + 1
      requires bits[z] && Ones(bits, z) == k
      ensures forall z': nat :: Edge(k, z') ==> z' < z
      ensures forall z': nat :: Edge(next, z') ==> z' > z
    {
      forall z': nat | z' < 2 * |labels|
        ensures z' > z ==> Ones(bits, z') > k
        ensures z' <= z ==> Ones(bits, z') <= k
      {
        if z' > z {
          OnesMonotone(bits, z + 1, z');
        } else {
          OnesMonotone(bits, z', z);
        }
      }
    }

    /** No edge of node `k` before position `z` decides the lookup of `key`. */
    ghost predicate Passed(k: nat, key: seq<byte>, z: nat)
      requires WellCounted()
    {
      forall z': nat :: Edge(k, z') && z' < z ==>
        && Label(z') != PREFIX_LABEL
        && (key == [] ==> Label(z') != ROOT_LABEL)
        && (key != [] ==> Label(z') != key[0])
        && (key != [] && Label(z') == ROOT_LABEL ==> !(key[0] == DOT && leaves[Child(z')]))
    }

    lemma ScanClosed(k: nat, key: seq<byte>, z: nat)
      requires WellCounted() && WellLabelled() && k <= |labels|
      requires z <= 2 * |labels| && bits[z] && Ones(bits, z) == k
      requires Passed(k, key, z)
      ensures Matches(k, key) <==> key == [] && leaves[k]
    {
      NodeClosed(k, k + 1, z);
      if key == [] {
        MatchesEmpty(k);
      } else {
        MatchesNoEdge(k, key);
      }
    }

    lemma ScanFound(k: nat, key: seq<byte>, z: nat)
      requires WellCounted() && WellLabelled() && k <= |labels| && key != []
      requires Edge(k, z) && Label(z) == key[0] && !Special(key[0])
      requires Passed(k, key, z)
      ensures Matches(k, key) <==> Matches(Child(z), key[1..])
    {
      MatchesEdge(k, key, z);
    }

    /** Where `select` leads: the first position of node `k`, before all its edges. */
    lemma NodeStart(k: nat, p: nat)
      requires WellCounted() && 1 <= k <= |labels|
      requires p < |bits| && bits[p] && Ones(bits, p) == k - 1
      ensures p + 1 <= 2 * |labels| && Ones(bits, p + 1) == k
      ensures forall z: nat :: Edge(k, z) ==> p + 1 <= z
    {
      NodeOpen(k, p + 1);
      NodeClosed(k - 1, k, p);
    }

    // ---- Walking a key ----

    /** Membership of `key` is decided by what node `k` holds of `key[i..]`. */
    ghost predicate Reached(key: seq<byte>, i: nat, k: nat)
      requires WellCounted() && k <= |labels| && i <= |key|
    {
      WellLabelled() && ROOT_LABEL !in key ==> (Matches(0, key) <==> Matches(k, key[i..]))
    }

    ghost predicate Decides(key: seq<byte>, r: bool)
      requires WellCounted()
    {
      WellLabelled() && ROOT_LABEL !in key ==> (r <==> Matches(0, key))
    }

    lemma WalkMiss(key: seq<byte>, i: nat, k: nat, closing: nat)
      requires WellCounted() && k <= |labels| && i < |key| && Reached(key, i, k)
      requires closing <= 2 * |labels| && bits[closing] && Ones(bits, closing) == k
      requires Passed(k, [key[i]], closing)
      ensures Decides(key, false)
    {
      if WellLabelled() {
        ScanClosed(k, key[i..], closing);
      }
    }

    lemma WalkHit(key: seq<byte>, i: nat, k: nat)
      requires WellCounted() && k <= |labels| && i < |key| && Reached(key, i, k)
      requires SpecialHit(k, [key[i]])
      ensures Decides(key, true)
    {
      if WellLabelled() {
        SpecialHitMatches(k, key[i..]);
      }
    }

    lemma WalkFollow(key: seq<byte>, i: nat, k: nat, z: nat)
      requires WellCounted() && k <= |labels| && i < |key| && Reached(key, i, k)
      requires Edge(k, z) && Label(z) == key[i] != PREFIX_LABEL
      requires Passed(k, [key[i]], z)
      ensures Reached(key, i + 1, Child(z))
    {
      if WellLabelled() && ROOT_LABEL !in key {
        assert key[i..][1..] == key[i + 1..];
        ScanFound(k, key[i..], z);
      }
    }

    lemma WalkEnd(key: seq<byte>, k: nat)
      requires WellCounted() && k <= |labels| && Reached(key, |key|, k)
      ensures Decides(key, leaves[k] || SpecialHit(k, []))
    {
      if WellLabelled() {
        assert key[|key|..] == [];
        MatchesEmpty(k);
      }
    }

    lemma {:induction false} OnesAfterLast(i: nat)
      requires WellCounted() && 2 * |labels| < i <= |bits|
      ensures Ones(bits, i) == |labels| + 1
    {
      if 2 * |labels| + 1 < i {
        OnesAfterLast(i - 1);
      }
    }
  }
}
