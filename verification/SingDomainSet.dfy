/**
 Reading a sing-box domain set from its serialised fields, and looking a name up in it.
 Names are looked up reversed, so that a domain suffix is a prefix of the key.
 */
module SingDomainSet {
  import opened Words
  import opened Basics
  import opened SuccinctBits
  import opened DomainTrie

  datatype DomainSet = DomainSet(leaves: seq<word>, bitmap: seq<word>, labels: seq<byte>, wordOnes: seq<int>) {
    ghost function View(): Trie {
      Trie(Bits(bitmap), Bits(leaves), labels)
    }

    ghost predicate Valid() {
      View().WellCounted() && IsWordOnes(wordOnes, bitmap)
    }
  }

  /** Accepts exactly the fields whose bitmap, up to its last one, has one zero per label and
      one more one than zeros; missing leaf words are filled with zeros. */
  method ReadSingSuccinct(leaves: seq<word>, bitmap: seq<word>, labels: seq<byte>)
    returns (r: Option<DomainSet>)
    ensures r.Some? <==>
              exists last :: Trie.LastOne(Bits(bitmap), last)
                             && Zeros(Bits(bitmap), last + 1) == |labels|
                             && Ones(Bits(bitmap), last + 1) == |labels| + 1
    ensures r.Some? ==>
              && r.value.Valid() && r.value.bitmap == bitmap && r.value.labels == labels
              && leaves <= r.value.leaves
              && forall w :: |leaves| <= w < |r.value.leaves| ==> r.value.leaves[w] == 0
  {
    var onesCount, lastOneIndex := CountOnes(bitmap);
    var zerosCount := lastOneIndex + 1 - onesCount;
    if onesCount != zerosCount + 1 || |labels| != zerosCount {
      return None;
    }
    var padded := leaves;
    var lw := (onesCount + 63) / 64;
    if |leaves| < lw {
      padded := leaves + seq(lw - |leaves|, _ => 0);
    }
    var wordOnes := NewWordOnes(bitmap);
    return Some(DomainSet(padded, bitmap, labels, wordOnes));
  }

  method CountOnes(bitmap: seq<word>) returns (onesCount: nat, lastOneIndex: int)
    ensures Trie.LastOne(Bits(bitmap), lastOneIndex)
    ensures onesCount == Ones(Bits(bitmap), lastOneIndex + 1)
  {
    onesCount, lastOneIndex := 0, -1;
    for wi := 0 to |bitmap|
      invariant Trie.LastOne(Bits(bitmap[..wi]), lastOneIndex)
      invariant onesCount == Ones(Bits(bitmap[..wi]), lastOneIndex + 1)
    {
      var word := bitmap[wi];
      assert bitmap[..wi + 1] == bitmap[..wi] + [word];
      AppendWord(bitmap[..wi], word, lastOneIndex);
      onesCount := onesCount + OnesCount64(word);
      if word != 0 {
        lastOneIndex := wi * 64 + (63 - LeadingZeros64(word));
      }
    }
    assert bitmap[..|bitmap|] == bitmap;
  }

  /** Appending a word moves the last one into it, unless the word is zero. */
  lemma AppendWord(bm: seq<word>, w: word, last: int)
    requires Trie.LastOne(Bits(bm), last)
    ensures var last' := if w == 0 then last else 64 * |bm| + 63 - LeadingZeros64(w);
            && Trie.LastOne(Bits(bm + [w]), last')
            && Ones(Bits(bm + [w]), last' + 1) == Ones(Bits(bm), last + 1) + OnesCount64(w)
  {
    var bits, after := Bits(bm), Bits(bm + [w]);
    assert (bm + [w])[..|bm|] == bm;
    assert after == bits + WordBits(w);
    OnesOfPrefix(bits, WordBits(w), last + 1);
    if w == 0 {
      forall i: nat
        ensures !Bit(0, i)
      {
        ZeroHasNoBit(i);
      }
      OnesBelowZero(64);
    } else {
      NonZeroHasTopBit(w);
      var last' := 64 * |bm| + 63 - LeadingZeros64(w);
      assert Trie.LastOne(after, last');
      OnesOfPrefix(bits, WordBits(w), |bits|);
      NoOnesAfter(bits, last, |bits|);
      OnesWithinWord(bm + [w], |bm|, 64);
      NoOnesAfter(after, last', |after|);
    }
  }

  lemma {:induction false} OnesBelowZero(n: nat)
    ensures OnesBelow(0, n) == 0
  {
    if n != 0 {
      OnesBelowZero(n - 1);
      ZeroHasNoBit(n - 1);
    }
  }

  lemma {:induction false} NoOnesAfter(bits: seq<bool>, last: int, i: nat)
    requires Trie.LastOne(bits, last) && last < i <= |bits|
    ensures Ones(bits, i) == Ones(bits, last + 1)
  {
    if last + 1 < i {
      NoOnesAfter(bits, last, i - 1);
    }
  }

  /** What the scan of one node's edges for the next key character finds. */
  datatype Scan = Hit | Miss(closing: nat) | Follow(z: nat)

  method ScanEdges(s: DomainSet, nodeId: nat, start: nat, currentChar: byte) returns (o: Scan)
    requires s.Valid() && Exact(s.wordOnes, s.bitmap)
    requires nodeId <= |s.labels| && start <= 2 * |s.labels| && Ones(s.View().bits, start) == nodeId
    requires forall z: nat :: s.View().Edge(nodeId, z) ==> start <= z
    ensures o.Hit? ==> s.View().SpecialHit(nodeId, [currentChar])
    ensures o.Miss? ==>
              && o.closing <= 2 * |s.labels| && s.View().bits[o.closing] && Ones(s.View().bits, o.closing) == nodeId
              && s.View().Passed(nodeId, [currentChar], o.closing)
    ensures o.Follow? ==>
              && s.View().Edge(nodeId, o.z) && s.View().Label(o.z) == currentChar != PREFIX_LABEL
              && s.View().Passed(nodeId, [currentChar], o.z)
  {
    hide Bits;
    hide IsWordOnes;
    hide Exact;
    ghost var t, n := s.View(), |s.labels|;
    var bmIdx := start;
    while true
      invariant 0 <= bmIdx <= 2 * n && Ones(t.bits, bmIdx) == nodeId
      invariant t.Passed(nodeId, [currentChar], bmIdx)
      decreases 2 * n - bmIdx
    {
      var one := GetBit(s.bitmap, bmIdx);
      if one {
        return Miss(bmIdx);
      }
      t.NodeOpen(nodeId, bmIdx);
      t.EdgeHasLabel(bmIdx);
      assert t.Edge(nodeId, bmIdx);
      var nextLabel := s.labels[bmIdx - nodeId];
      if nextLabel == PREFIX_LABEL {
        return Hit;
      }
      if nextLabel == ROOT_LABEL {
        var nextNodeId := CountZeros(s.wordOnes, s.bitmap, bmIdx + 1);
        var leaf := GetBit(s.leaves, nextNodeId);
        if currentChar == DOT && leaf {
          return Hit;
        }
      }
      if nextLabel == currentChar {
        return Follow(bmIdx);
      }
      bmIdx := bmIdx + 1;
    }
  }

  /** Follow the edge at `z` to its child and the first position of that node. */
  method Descend(s: DomainSet, z: nat) returns (nodeId: nat, bmIdx: nat)
    requires s.Valid() && Exact(s.wordOnes, s.bitmap)
    requires s.View().IsEdge(z)
    ensures nodeId == s.View().Child(z)
    ensures bmIdx <= 2 * |s.labels| && Ones(s.View().bits, bmIdx) == nodeId
    ensures forall z': nat :: s.View().Edge(nodeId, z') ==> bmIdx <= z'
  {
    ghost var t := s.View();
    t.OnesAfterLast(|t.bits|);
    t.EdgeHasLabel(z);
    nodeId := CountZeros(s.wordOnes, s.bitmap, z + 1);
    var p := SelectIthOne(s.wordOnes, s.bitmap, nodeId - 1);
    t.NodeStart(nodeId, p);
    bmIdx := p + 1;
  }

  /** The key is used up at node `nodeId`: a leaf, or a special edge, is a match. */
  method HasAtEnd(s: DomainSet, nodeId: nat, start: nat) returns (r: bool)
    requires s.Valid()
    requires nodeId <= |s.labels| && start <= 2 * |s.labels| && Ones(s.View().bits, start) == nodeId
    requires forall z: nat :: s.View().Edge(nodeId, z) ==> start <= z
    ensures r <==> s.View().leaves[nodeId] || s.View().SpecialHit(nodeId, [])
  {
    hide Bits;
    hide IsWordOnes;
    ghost var t, n := s.View(), |s.labels|;
    var leaf := GetBit(s.leaves, nodeId);
    if leaf {
      return true;
    }
    var bmIdx := start;
    while true
      invariant 0 <= bmIdx <= 2 * n && Ones(t.bits, bmIdx) == nodeId
      invariant t.Passed(nodeId, [], bmIdx)
      decreases 2 * n - bmIdx
    {
      var one := GetBit(s.bitmap, bmIdx);
      if one {
        t.NodeClosed(nodeId, nodeId + 1, bmIdx);
        return false;
      }
      t.NodeOpen(nodeId, bmIdx);
      t.EdgeHasLabel(bmIdx);
      assert t.Edge(nodeId, bmIdx);
      var nextLabel := s.labels[bmIdx - nodeId];
      if nextLabel == PREFIX_LABEL || nextLabel == ROOT_LABEL {
        return true;
      }
      bmIdx := bmIdx + 1;
    }
  }

  /** The lookup. Every index it uses is in range for every accepted set and every key, and it
      decides membership whenever the trie is well labelled and the key has no `\n`. */
  method Has(s: DomainSet, key: seq<byte>) returns (r: bool)
    requires s.Valid()
    requires |s.labels| + 1 < 0x8000_0000
    ensures s.View().WellLabelled() && ROOT_LABEL !in key ==> (r <==> s.View().Matches(0, key))
  {
    ghost var t, n := s.View(), |s.labels|;
    t.OnesAfterLast(|t.bits|);
    WordOnesExact(s.wordOnes, s.bitmap);
    var nodeId, bmIdx := 0, 0;
    for i := 0 to |key|
      invariant 0 <= nodeId <= n
      invariant 0 <= bmIdx <= 2 * n && Ones(t.bits, bmIdx) == nodeId
      invariant forall z: nat :: t.Edge(nodeId, z) ==> bmIdx <= z
      invariant t.Reached(key, i, nodeId)
    {
      var o := ScanEdges(s, nodeId, bmIdx, key[i]);
      match o {
        case Miss(closing) =>
          t.WalkMiss(key, i, nodeId, closing);
          return false;
        case Hit =>
          t.WalkHit(key, i, nodeId);
          return true;
        case Follow(z) =>
          t.WalkFollow(key, i, nodeId, z);
          nodeId, bmIdx := Descend(s, z);
      }
    }
    t.WalkEnd(key, nodeId);
    r := HasAtEnd(s, nodeId, bmIdx);
  }
}
