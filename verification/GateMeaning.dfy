/** What the gate lets through, said of the bytes alone: the arena is cut into blocks in
    use, the links of every free one lead to free ones that point back, and the key
    block's figures are those of the blocks. */
module GateMeaning {
  import opened Bytes
  import opened Gate
  import opened Layout
  import opened Mirror
  import opened Tally

  // Bytes of a field in an addressing mode: 8, 16, 32 or 64 bits.
  function FieldBytes(mode: nat): nat {
    if mode == 0 then 1 else if mode == 1 then 2 else if mode == 2 then 4 else 8
  }

  // The i-th field behind the flags of the record at a: size, prev, next.
  function FieldAt(m: Buffer, mode: nat, a: nat, i: nat): nat {
    var w := FieldBytes(mode);
    if a + 1 + i * w + w <= |m| then Decode(m[a + 1 + i * w..a + 1 + i * w + w]) else 0
  }

  // A record of the mode lies at a, inside the arena and not at its start, and its flag
  // byte says allocated, linked, and free or not as asked.
  predicate InUse(m: Buffer, end: nat, mode: nat, a: nat, free: bool) {
    && 0 < a && a + 3 * FieldBytes(mode) + 2 <= end <= |m|
    && m[a] % 4 == mode && m[a] / 64 == 3 && (m[a] / 4 % 16 == 0 <==> free)
  }

  // And where it is free its prev and next, if any, lead to free records that lead back.
  predicate Sound(m: Buffer, end: nat, mode: nat, a: nat) {
    || InUse(m, end, mode, a, false)
    || (&& InUse(m, end, mode, a, true)
        && var p, n := FieldAt(m, mode, a, 1), FieldAt(m, mode, a, 2);
           && (p != 0 ==> InUse(m, end, mode, p, true) && FieldAt(m, mode, p, 2) == a)
           && (n != 0 ==> InUse(m, end, mode, n, true) && FieldAt(m, mode, n, 1) == a))
  }

  function SizeAt(m: Buffer, mode: nat, a: nat): nat {
    if mode == 3 then FieldAt(m, mode, a, 0) % 0x1_0000_0000 else FieldAt(m, mode, a, 0)
  }

  // q are the blocks from a on, each starting where the one before it ends, the last one
  // starting inside the arena and ending at its end or past it.
  predicate CutFrom(m: Buffer, end: nat, mode: nat, a: nat, q: seq<nat>)
    decreases |q|
  {
    if q == [] then end <= a
    else
      && q[0] == a < end && Sound(m, end, mode, a) && 0 < SizeAt(m, mode, a) <= end
      && CutFrom(m, end, mode, a + SizeAt(m, mode, a), q[1..])
  }

  // How many of the blocks q are free, or live, and how many bytes they have.
  function Items(m: Buffer, q: seq<nat>, free: bool): nat {
    if q == [] then 0
    else (if q[0] < |m| && (m[q[0]] / 4 % 16 == 0 <==> free) then 1 else 0) + Items(m, q[1..], free)
  }

  function Extent(m: Buffer, mode: nat, q: seq<nat>, free: bool): nat {
    if q == [] then 0
    else
      (if q[0] < |m| && (m[q[0]] / 4 % 16 == 0 <==> free) then SizeAt(m, mode, q[0]) else 0)
      + Extent(m, mode, q[1..], free)
  }

  // ---- one block -----------------------------------------------------------------------

  lemma UsedReads(m: Buffer, end: nat, mode: nat, a: nat, free: bool)
    requires mode < 4 && end <= |m|
    ensures Reads(m, end, mode, a, free) <==> InUse(m, end, mode, a, free)
  {
    hide Get;
    if a < |m| {
      FlagByte(m, a);
    }
  }

  lemma FieldsRead(m: Buffer, end: nat, mode: nat, a: nat, free: bool)
    requires mode < 4 && end <= |m| && Reads(m, end, mode, a, free)
    ensures SizeIn(m, end, a) == SizeAt(m, mode, a)
    ensures PrevIn(m, end, a) == FieldAt(m, mode, a, 1) && NextIn(m, end, a) == FieldAt(m, mode, a, 2)
  {
    hide Get, Decode;
    assert FieldWidth(m, a) == FieldBytes(mode);
  }

  lemma SoundFreeReads(m: Buffer, end: nat, mode: nat, a: nat)
    requires mode < 4 && end <= |m|
    ensures FreeBlock(m, end, mode, a) <==> Sound(m, end, mode, a) && a < |m| && m[a] / 4 % 16 == 0
  {
    hide Get, FieldAt, FieldOf, RecordFits;
    UsedReads(m, end, mode, a, true);
    UsedReads(m, end, mode, a, false);
    if Reads(m, end, mode, a, true) {
      FieldsRead(m, end, mode, a, true);
      LinkReads(m, end, mode, PrevIn(m, end, a));
      LinkReads(m, end, mode, NextIn(m, end, a));
    }
  }

  lemma LinkReads(m: Buffer, end: nat, mode: nat, x: nat)
    requires mode < 4 && end <= |m|
    ensures Reads(m, end, mode, x, true) <==> InUse(m, end, mode, x, true)
    ensures Reads(m, end, mode, x, true) ==>
      PrevIn(m, end, x) == FieldAt(m, mode, x, 1) && NextIn(m, end, x) == FieldAt(m, mode, x, 2)
  {
    UsedReads(m, end, mode, x, true);
    if Reads(m, end, mode, x, true) {
      FieldsRead(m, end, mode, x, true);
    }
  }

  /** The gate finds a block good exactly when its bytes are sound. */
  lemma GoodIsSound(m: Buffer, end: nat, mode: nat, a: nat)
    requires mode < 4 && end <= |m| && a < end
    ensures RecordFits(m, end, a) && GoodBlock(m, end, mode, a) <==> Sound(m, end, mode, a)
    ensures Sound(m, end, mode, a) ==> SizeIn(m, end, a) == SizeAt(m, mode, a)
    ensures TypeBits(Get(m, a, 1)) == 0 <==> m[a] / 4 % 16 == 0
  {
    hide Get, FieldAt, FieldOf, RecordFits, FreeBlock;
    FlagByte(m, a);
    SoundFreeReads(m, end, mode, a);
    UsedReads(m, end, mode, a, true);
    UsedReads(m, end, mode, a, false);
    if FreeBlock(m, end, mode, a) {
      FreeFits(m, end, mode, a);
    }
    if Sound(m, end, mode, a) {
      FieldsRead(m, end, mode, a, m[a] / 4 % 16 == 0);
    }
  }

  lemma FreeFits(m: Buffer, end: nat, mode: nat, a: nat)
    requires end <= |m| && FreeBlock(m, end, mode, a)
    ensures RecordFits(m, end, a)
  {
  }

  // ---- the chain -------------------------------------------------------------------------

  // What the blocks q add up to.
  function TotalsOf(m: Buffer, mode: nat, q: seq<nat>): Totals {
    Totals(Extent(m, mode, q, true), Items(m, q, true), Extent(m, mode, q, false), Items(m, q, false))
  }

  lemma TotalsNext(m: Buffer, end: nat, mode: nat, q: seq<nat>)
    requires mode < 4 && end <= |m| && q != [] && q[0] < end && RecordFits(m, end, q[0])
    requires SizeIn(m, end, q[0]) == SizeAt(m, mode, q[0])
    ensures TotalsOf(m, mode, q) == Counted(m, end, q[0], TotalsOf(m, mode, q[1..]))
  {
    hide Get, FieldAt, FieldOf, RecordFits, SizeAt, SizeIn;
    FlagByte(m, q[0]);
  }

  // The chain from a is good exactly when it can be cut, and adds up to what the blocks do.
  lemma {:induction false} CutIsChain(m: Buffer, end: nat, mode: nat, a: nat, q: seq<nat>)
    requires mode < 4 && end <= |m| && CutFrom(m, end, mode, a, q)
    ensures Chain(m, end, mode, a) == Good(TotalsOf(m, mode, q))
    decreases |q|
  {
    hide Get, FieldOf, FieldAt, GoodBlock, RecordFits, Sound;
    if q != [] {
      GoodIsSound(m, end, mode, a);
      CutIsChain(m, end, mode, a + SizeAt(m, mode, a), q[1..]);
      TotalsNext(m, end, mode, q);
    }
  }

  lemma {:induction false} ChainIsCut(m: Buffer, end: nat, mode: nat, a: nat) returns (q: seq<nat>)
    requires mode < 4 && end <= |m| && Chain(m, end, mode, a).Good?
    ensures CutFrom(m, end, mode, a, q)
    decreases if a <= end then end - a else 0
  {
    hide Get, FieldOf, FieldAt, GoodBlock, RecordFits, Sound;
    if end <= a {
      q := [];
    } else {
      GoodIsSound(m, end, mode, a);
      var rest := ChainIsCut(m, end, mode, a + SizeIn(m, end, a));
      q := [a] + rest;
      assert q[1..] == rest;
    }
  }

  /** The blocks q are cut out of the arena from byte 48 on, and the key block counts
      just them. */
  predicate Described(m: Buffer, end: nat, mode: nat, k: Keys, q: seq<nat>) {
    && CutFrom(m, end, mode, 48, q)
    && k.freeSize == Extent(m, mode, q, true) && k.allocSize == Extent(m, mode, q, false)
    && k.freeEntries == Items(m, q, true) && k.allocEntries == Items(m, q, false)
  }

  /** The gate accepts exactly the arenas that can be cut into sound blocks the key block
      counts, in an addressing mode there is, with fewer than 200,000,000 free bytes. */
  lemma AcceptedExactly(m: Buffer, end: nat, mode: nat, k: Keys)
    requires end <= |m|
    ensures Accepts(m, end, mode, k) <==>
      mode < 4 && k.freeSize < 200_000_000 && exists q :: Described(m, end, mode, k, q)
  {
    hide Chain, CutFrom, Extent, Items;
    if Accepts(m, end, mode, k) {
      var q := ChainIsCut(m, end, mode, 48);
      CutIsChain(m, end, mode, 48, q);
      assert Described(m, end, mode, k, q);
    }
    if mode < 4 && k.freeSize < 200_000_000 {
      if q :| Described(m, end, mode, k, q) {
        CutIsChain(m, end, mode, 48, q);
      }
    }
  }

  /** Each block of an accepted arena is sound. */
  lemma {:induction false} CutSound(m: Buffer, end: nat, mode: nat, a: nat, q: seq<nat>, i: nat)
    requires CutFrom(m, end, mode, a, q) && i < |q|
    ensures Sound(m, end, mode, q[i]) && q[i] < end
    ensures i + 1 < |q| ==> q[i + 1] == q[i] + SizeAt(m, mode, q[i])
    decreases i
  {
    if i > 0 {
      CutSound(m, end, mode, a + SizeAt(m, mode, a), q[1..], i - 1);
    }
  }
}
