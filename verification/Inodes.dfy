/** Inodes: a heap stamp, the frees at an address so far, and the address. */
module Inodes {
  import opened HeapModel

  const GENERATION_UNIT: nat := 0x1_0000_0000
  const STAMP_UNIT: nat := 0x1_0000_0000_0000

  function Generation(g: map<nat, nat>, a: nat): nat { if a in g then g[a] else 0 }

  // One more free at a.
  function Bumped(g: map<nat, nat>, a: nat): map<nat, nat> { g[a := Generation(g, a) + 1] }

  function Pack(stamp: nat, generation: nat, a: nat): nat {
    stamp * STAMP_UNIT + generation % 0x1_0000 * GENERATION_UNIT + a
  }

  function AddressPart(inode: nat): nat { inode % GENERATION_UNIT }

  // The stamp and the frees counted now are those the inode names.
  predicate Matches(inode: nat, stamp: nat, g: map<nat, nat>) {
    && inode / STAMP_UNIT == stamp
    && Generation(g, AddressPart(inode)) % 0x1_0000 == inode / GENERATION_UNIT % 0x1_0000
  }

  /** The three fields of an inode: address in the low 32 bits, then 16 bits of frees and
      16 bits of stamp. */
  lemma PackNumbers(stamp: nat, generation: nat, a: nat)
    requires a < 0x1_0000_0000
    ensures var inode := Pack(stamp, generation, a);
      && inode % 0x1_0000_0000 == a && inode / 0x1_0000_0000 % 0x1_0000 == generation % 0x1_0000
      && inode / 0x1_0000_0000_0000 == stamp
  {
    var n, inode := generation % 0x1_0000, Pack(stamp, generation, a);
    assert inode == (stamp * 0x1_0000 + n) * 0x1_0000_0000 + a;
  }

  /** An inode minted for a matches later exactly when the heap still has its stamp
      and the frees at a since then are a multiple of 65536. */
  lemma MatchesLater(stamp: nat, g: map<nat, nat>, a: nat, later: nat, h: map<nat, nat>)
    requires 0 < a < GENERATION_UNIT && Generation(g, a) <= Generation(h, a)
    ensures AddressPart(Pack(stamp, Generation(g, a), a)) == a
    ensures Matches(Pack(stamp, Generation(g, a), a), later, h) <==>
      later == stamp && (Generation(h, a) - Generation(g, a)) % 0x1_0000 == 0
  {
    var n := Generation(g, a) % 0x1_0000;
    var inode := Pack(stamp, Generation(g, a), a);
    assert inode / STAMP_UNIT == stamp;
    assert inode / GENERATION_UNIT == stamp * 0x1_0000 + n;
  }

  // No block has the address an inode of 0 would stand for.
  lemma NoInodeZero(s: Heap)
    requires WF(s)
    ensures AddressPart(0) !in s.blk
  {
    NoBlockAtZero(s);
  }
}
