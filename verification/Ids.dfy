/** The ring of 16-bit ids that the id allocators walk around. */
module Ids {

  const IDS := 0x1_0000

  type Id = i: nat | i < IDS

  /** `k` places behind `next`. */
  function After(next: Id, k: nat): Id {
    (next + k) % IDS
  }

  lemma AfterAdd(next: Id, j: nat, k: nat)
    ensures After(After(next, j), k) == After(next, j + k)
  {
  }

  lemma AfterCovers(next: Id, id: Id) returns (k: nat)
    ensures k < IDS && After(next, k) == id
  {
    k := if next <= id then id - next else id + IDS - next;
  }
}
