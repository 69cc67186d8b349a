/** Judging an arena of unknown origin: a walk over its block chain that trusts no
    byte of it and changes none. */
module Gate {
  import opened Bytes
  import opened HeapModel
  import opened Layout
  import opened Mirror
  import opened MirrorFree
  import opened MirrorOps
  import opened Tally

  const FREE_LIMIT: nat := 200_000_000     // free bytes beyond which no arena is believed

  // Field width of the block's own addressing mode.
  function FieldWidth(m: Buffer, a: nat): nat {
    var d := AddressBits(Get(m, a, 1));
    if d == 0 then 1 else WidthOf(d)
  }

  // The field of the record at a, i fields behind the flags.  Only records that
  // fit are read, so no byte outside the arena is.
  function FieldOf(m: Buffer, end: nat, a: nat, i: nat): nat
    requires end <= |m| && RecordFits(m, end, a) && i < 3
  {
    var w := FieldWidth(m, a);
    assert a + 1 + i * w + w <= end;
    Decode(m[a + 1 + i * w..a + 1 + i * w + w])
  }

  // 64-bit sizes are cut to 32 bits.
  function SizeIn(m: Buffer, end: nat, a: nat): nat
    requires end <= |m| && RecordFits(m, end, a)
  {
    var n := FieldOf(m, end, a, 0);
    if FieldWidth(m, a) == 8 then n % 0x1_0000_0000 else n
  }

  function PrevIn(m: Buffer, end: nat, a: nat): nat
    requires end <= |m| && RecordFits(m, end, a)
  {
    FieldOf(m, end, a, 1)
  }

  function NextIn(m: Buffer, end: nat, a: nat): nat
    requires end <= |m| && RecordFits(m, end, a)
  {
    FieldOf(m, end, a, 2)
  }

  // ---- what is asked of a block ----------------------------------------------------

  // The record at a is one of a block in use, free or not as asked.
  predicate Reads(m: Buffer, end: nat, mode: nat, a: nat, free: bool) {
    var d := Get(m, a, 1);
    RecordFits(m, end, a) && LinkedBit(d) && AllocBit(d) && (TypeBits(d) == 0 <==> free) && AddressBits(d) == mode
  }

  // A free block whose neighbours on the list, if any, are free and point back.
  predicate FreeBlock(m: Buffer, end: nat, mode: nat, a: nat)
    requires end <= |m|
  {
    && Reads(m, end, mode, a, true)
    && var p, n := PrevIn(m, end, a), NextIn(m, end, a);
       && (p != 0 ==> Reads(m, end, mode, p, true) && NextIn(m, end, p) == a)
       && (n != 0 ==> Reads(m, end, mode, n, true) && PrevIn(m, end, n) == a)
  }

  predicate GoodBlock(m: Buffer, end: nat, mode: nat, a: nat)
    requires end <= |m|
  {
    if TypeBits(Get(m, a, 1)) == 0 then FreeBlock(m, end, mode, a) else Reads(m, end, mode, a, false)
  }

  // The step to the next block neither stalls nor leaves an arena of this size.
  predicate Steps(m: Buffer, end: nat, a: nat)
    requires end <= |m| && RecordFits(m, end, a)
  {
    0 < SizeIn(m, end, a) <= end
  }

  datatype Verdict = Bad | Good(t: Totals)

  // The totals t with the block at a counted in.
  function Counted(m: Buffer, end: nat, a: nat, t: Totals): Totals
    requires end <= |m| && RecordFits(m, end, a)
  {
    Plus(t, Block(SizeIn(m, end, a), if TypeBits(Get(m, a, 1)) == 0 then Free else Live(1, true)))
  }

  // The chain of blocks from a on: good if every block is, with what it adds up to.
  function Chain(m: Buffer, end: nat, mode: nat, a: nat): Verdict
    requires end <= |m|
    decreases if a <= end then end - a else 0
  {
    if end <= a then Good(NONE)
    else if !RecordFits(m, end, a) || !GoodBlock(m, end, mode, a) || !Steps(m, end, a) then Bad
    else match Chain(m, end, mode, a + SizeIn(m, end, a))
         case Bad => Bad
         case Good(t) => Good(Counted(m, end, a, t))
  }

  predicate Agrees(t: Totals, k: Keys) {
    t.freeSize == k.freeSize && t.allocSize == k.allocSize && t.freeItems == k.freeEntries
      && t.allocItems == k.allocEntries
  }

  // The handle's addressing mode is one, and the free bytes claimed are believable.
  predicate Plausible(mode: nat, k: Keys) { mode < 4 && k.freeSize < FREE_LIMIT }

  predicate Accepts(m: Buffer, end: nat, mode: nat, k: Keys)
    requires end <= |m|
  {
    Plausible(mode, k) && Chain(m, end, mode, BASE).Good? && Agrees(Chain(m, end, mode, BASE).t, k)
  }

  // ---- the walk ------------------------------------------------------------------------

  // Judges a free block and its neighbours on the list.
  method ValidFree(m: Buffer, end: nat, mode: nat, a: nat) returns (ok: bool)
    requires end <= |m|
    ensures ok <==> FreeBlock(m, end, mode, a)
  {
    hide Get, FieldOf, AddressBits, TypeBits, AllocBit, LinkedBit;
    ok := true;
    if !RecordFits(m, end, a) {
      return false;
    }
    var d := Get(m, a, 1);
    if !LinkedBit(d) { ok := false; }
    if !AllocBit(d) { ok := false; }
    if TypeBits(d) != 0 { ok := false; }
    if AddressBits(d) != mode { ok := false; }
    var prev := PrevIn(m, end, a);
    if prev != 0 && !RecordFits(m, end, prev) {
      return false;
    }
    if prev != 0 {
      d := Get(m, prev, 1);
      if !LinkedBit(d) { ok := false; }
      if !AllocBit(d) { ok := false; }
      if TypeBits(d) != 0 { ok := false; }
      if AddressBits(d) != mode { ok := false; }
      if NextIn(m, end, prev) != a { ok := false; }
    }
    var next := NextIn(m, end, a);
    if next != 0 && !RecordFits(m, end, next) {
      return false;
    }
    if next != 0 {
      d := Get(m, next, 1);
      if !LinkedBit(d) { ok := false; }
      if !AllocBit(d) { ok := false; }
      if TypeBits(d) != 0 { ok := false; }
      if AddressBits(d) != mode { ok := false; }
      if PrevIn(m, end, next) != a { ok := false; }
    }
  }

  // Judges an allocated block, repairing nothing.
  method ValidAlloc(m: Buffer, end: nat, mode: nat, a: nat) returns (ok: bool)
    ensures ok <==> Reads(m, end, mode, a, false)
  {
    hide Get, AddressBits, TypeBits, AllocBit, LinkedBit;
    ok := true;
    if !RecordFits(m, end, a) {
      return false;
    }
    var d := Get(m, a, 1);
    if !AllocBit(d) { ok := false; }
    if !LinkedBit(d) { ok := false; }
    if TypeBits(d) == 0 { ok := false; }
    if AddressBits(d) != mode { ok := false; }
  }

  // One block of the walk.
  method JudgeBlock(m: Buffer, end: nat, mode: nat, a: nat) returns (ok: bool)
    requires end <= |m| && RecordFits(m, end, a)
    ensures ok <==> GoodBlock(m, end, mode, a)
  {
    hide Get, FieldOf, AddressBits, TypeBits, AllocBit, LinkedBit, RecordFits;
    ok := true;
    var d := Get(m, a, 1);
    if !LinkedBit(d) { ok := false; }
    if !AllocBit(d) { ok := false; }
    if AddressBits(d) != mode { ok := false; }
    var sub;
    if TypeBits(d) == 0 {
      sub := ValidFree(m, end, mode, a);
    } else {
      sub := ValidAlloc(m, end, mode, a);
    }
    if !sub { ok := false; }
  }

  // Totals counted so far, and those of the rest of the chain.
  function Joined(t: Totals, v: Verdict): Verdict {
    match v
    case Bad => Bad
    case Good(u) => Good(Totals(t.freeSize + u.freeSize, t.freeItems + u.freeItems,
                                t.allocSize + u.allocSize, t.allocItems + u.allocItems))
  }

  lemma JoinedStep(m: Buffer, end: nat, mode: nat, a: nat, t: Totals)
    requires end <= |m| && a < end
    ensures RecordFits(m, end, a) && GoodBlock(m, end, mode, a) && Steps(m, end, a) ==>
      Joined(t, Chain(m, end, mode, a)) == Joined(Counted(m, end, a, t), Chain(m, end, mode, a + SizeIn(m, end, a)))
    ensures !(RecordFits(m, end, a) && GoodBlock(m, end, mode, a) && Steps(m, end, a)) ==>
      Chain(m, end, mode, a).Bad?
  {
    hide Get, FieldOf, GoodBlock, RecordFits;
  }

  /** Walks the chain inside the gate.  It ends on any bytes, reads only inside the
      arena, and accepts exactly what Accepts says. */
  method AssertVBlocks(m: Buffer, end: nat, mode: nat, k: Keys) returns (accepted: bool)
    requires end <= |m|
    ensures accepted <==> Accepts(m, end, mode, k)
  {
    hide Get, FieldOf, GoodBlock, RecordFits, Chain, TypeBits;
    accepted := true;
    if mode % 4 != mode { accepted := false; }
    if !(k.freeSize < FREE_LIMIT) { accepted := false; }
    var freeCount: nat, freeBytes: nat, allocCount: nat, allocBytes: nat := 0, 0, 0, 0;
    var a := BASE;
    ChainEnds(m, end, mode);
    while a < end
      invariant accepted ==> Plausible(mode, k)
      invariant accepted ==>
        Chain(m, end, mode, BASE) ==
        Joined(Totals(freeBytes, freeCount, allocBytes, allocCount), Chain(m, end, mode, a))
      invariant !accepted ==> !Plausible(mode, k) || Chain(m, end, mode, BASE).Bad?
      decreases if a <= end then end - a else 0
    {
      JoinedStep(m, end, mode, a, Totals(freeBytes, freeCount, allocBytes, allocCount));
      if !RecordFits(m, end, a) {
        return false;
      }
      var ok := JudgeBlock(m, end, mode, a);
      if !ok { accepted := false; }
      var step := SizeIn(m, end, a);
      if TypeBits(Get(m, a, 1)) == 0 {
        freeCount, freeBytes := freeCount + 1, freeBytes + step;
      } else {
        allocCount, allocBytes := allocCount + 1, allocBytes + step;
      }
      if step == 0 || step > end {
        return false;
      }
      a := a + step;
    }
    ChainDone(m, end, mode, a);
    if freeBytes != k.freeSize || allocBytes != k.allocSize
      || freeCount != k.freeEntries || allocCount != k.allocEntries {
      accepted := false;
    }
  }

  lemma ChainDone(m: Buffer, end: nat, mode: nat, a: nat)
    requires end <= |m| && end <= a
    ensures Chain(m, end, mode, a) == Good(NONE)
  {
  }

  lemma ChainEnds(m: Buffer, end: nat, mode: nat)
    requires end <= |m|
    ensures Chain(m, end, mode, BASE) == Joined(NONE, Chain(m, end, mode, BASE))
  {
    hide Chain;
  }

  // ---- what acceptance means -------------------------------------------------------------

  // Where the blocks of a good chain from a start.
  ghost function Starts(m: Buffer, end: nat, mode: nat, a: nat): seq<nat>
    requires end <= |m|
    decreases if a <= end then end - a else 0
  {
    if end <= a || !RecordFits(m, end, a) || !Steps(m, end, a) then []
    else [a] + Starts(m, end, mode, a + SizeIn(m, end, a))
  }

  // A good block of the chain, and where the next one starts.
  ghost predicate Placed(m: Buffer, end: nat, mode: nat, a: nat, next: nat)
    requires end <= |m|
  {
    RecordFits(m, end, a) && GoodBlock(m, end, mode, a) && 0 < SizeIn(m, end, a) <= end && a + SizeIn(m, end, a) == next
  }

  // q cuts [a, stop) into blocks that are all good, end to end.
  ghost predicate Covered(m: Buffer, end: nat, mode: nat, a: nat, q: seq<nat>, stop: nat)
    requires end <= |m|
  {
    && (if q == [] then stop == a else q[0] == a)
    && forall i: nat {:trigger q[i]} :: i < |q| ==> Placed(m, end, mode, q[i], if i + 1 < |q| then q[i + 1] else stop)
  }

  lemma {:induction false} ChainCovers(m: Buffer, end: nat, mode: nat, a: nat)
    requires end <= |m| && Chain(m, end, mode, a).Good?
    ensures var t, q := Chain(m, end, mode, a).t, Starts(m, end, mode, a);
      var stop := a + t.freeSize + t.allocSize;
      && Covered(m, end, mode, a, q, stop) && end <= stop && |q| == t.freeItems + t.allocItems
      && (q != [] ==> q[|q| - 1] < end)
    decreases if a <= end then end - a else 0
  {
    hide Get, FieldOf, GoodBlock, RecordFits, TypeBits;
    if a < end {
      ChainCovers(m, end, mode, a + SizeIn(m, end, a));
    }
  }

  /** An accepted arena is cut without a gap into good blocks from the key block to
      its end, or past it by at most the last block; and the key block's figures
      are those of these blocks. */
  lemma AcceptMeans(m: Buffer, end: nat, mode: nat, k: Keys)
    requires end <= |m| && Accepts(m, end, mode, k)
    ensures var q, stop := Starts(m, end, mode, BASE), BASE + k.freeSize + k.allocSize;
      && Covered(m, end, mode, BASE, q, stop) && end <= stop && |q| == k.freeEntries + k.allocEntries
      && (q != [] ==> q[|q| - 1] < end)
  {
    hide Chain, Starts, Covered;
    ChainCovers(m, end, mode, BASE);
  }

  // ---- every heap built here, with all its blocks linked, is accepted ------------------------

  lemma ModeWidth(w: nat)
    requires ValidWidth(w)
    ensures var d := AddressCode(w); 0 < d < 4 && WidthOf(d) == w && MinRecord(d) == MinBlock(w)
  {
  }

  // What a record of a mirrored heap reads as.
  lemma RecordReads(m: Buffer, s: Heap, a: nat)
    requires WF(s) && Mirrors(m, s) && a in s.blk
    ensures RecordFits(m, s.end, a) && AddressBits(Get(m, a, 1)) == AddressCode(s.w) && s.end == |m|
    ensures SizeIn(m, s.end, a) == s.blk[a].size && PrevIn(m, s.end, a) == Ctl(m, s.w, a).prev
    ensures NextIn(m, s.end, a) == Ctl(m, s.w, a).next
  {
    hide Tiles, Listed, Tagged, LinksOk, FeetOk, AddressBits, TypeBits, AllocBit, LinkedBit;
    ModeWidth(s.w);
    KindReads(m, s, a);
    BlockReads(m, s, a);
    SizeReads(m, s, a);
  }

  lemma FreeReads(m: Buffer, s: Heap, a: nat)
    requires WF(s) && Mirrors(m, s) && FreeAt(s.blk, a)
    ensures s.end == |m| && Reads(m, s.end, AddressCode(s.w), a, true) && TypeBits(Get(m, a, 1)) == 0
  {
    hide Tiles, Listed, Tagged, LinksOk, FeetOk, AddressBits, TypeBits, AllocBit, LinkedBit, RecordFits;
    RecordReads(m, s, a);
    KindReads(m, s, a);
  }

  lemma FreeIsGood(m: Buffer, s: Heap, a: nat)
    requires WF(s) && Mirrors(m, s) && FreeAt(s.blk, a)
    ensures s.end == |m| && GoodBlock(m, s.end, AddressCode(s.w), a)
  {
    hide WF, Mirrors, Reads, FieldOf, RecordFits, Get, TypeBits;
    var j := FreeIndex(s, a);
    Hooked(m, s, j);
    FreeReads(m, s, a);
    RecordReads(m, s, a);
    var p, n := Before(s.free, j), After(s.free, j);
    if p != 0 {
      Neighbours(m, s, j - 1, p);
    }
    if n != 0 {
      Neighbours(m, s, j + 1, n);
    }
  }

  // The k-th block of the list, from its neighbours' side.
  lemma Neighbours(m: Buffer, s: Heap, k: nat, x: nat)
    requires WF(s) && Mirrors(m, s) && k < |s.free| && s.free[k] == x
    ensures s.end == |m| && Reads(m, s.end, AddressCode(s.w), x, true) && RecordFits(m, s.end, x)
    ensures PrevIn(m, s.end, x) == Before(s.free, k) && NextIn(m, s.end, x) == After(s.free, k)
  {
    hide WF, Mirrors, Reads, FieldOf, RecordFits, Get;
    Hooked(m, s, k);
    FreeReads(m, s, x);
    RecordReads(m, s, x);
  }

  lemma LiveIsGood(m: Buffer, s: Heap, a: nat)
    requires WF(s) && Mirrors(m, s) && LiveAt(s.blk, a)
    ensures s.end == |m| && TypeBits(Get(m, a, 1)) != 0
    ensures GoodBlock(m, s.end, AddressCode(s.w), a) <==> s.blk[a].kind.linked
  {
    hide Tiles, Listed, Tagged, LinksOk, FeetOk, AddressBits, TypeBits, AllocBit, LinkedBit, RecordFits;
    RecordReads(m, s, a);
    KindReads(m, s, a);
  }

  // Every live block from a on is linked.
  ghost predicate AllLinked(blk: Blocks, a: nat) {
    forall x :: a <= x && LiveAt(blk, x) ==> blk[x].kind.linked
  }

  lemma LinkedNext(s: Heap, a: nat)
    requires WF(s) && a in s.blk
    ensures AllLinked(s.blk, a) <==>
      (LiveAt(s.blk, a) ==> s.blk[a].kind.linked) && AllLinked(s.blk, EndOf(s.blk, a))
    ensures 0 < s.blk[a].size <= s.end && a < s.end && EndOf(s.blk, a) <= s.end
  {
    hide Listed, Tagged;
    FitsTiles(s.w, s.end, s.blk, a);
  }

  lemma NoneBeyond(s: Heap)
    requires WF(s)
    ensures AllLinked(s.blk, s.end) && s.end !in s.blk
  {
    NothingAtEnd(s.w, s.end, s.blk);
    assert forall x :: x in s.blk ==> Fits(s.w, s.end, s.blk, x);
  }

  // One block of the chain of a mirrored heap.
  lemma ChainStep(m: Buffer, s: Heap, a: nat)
    requires WF(s) && Mirrors(m, s) && a in s.blk
    ensures s.end == |m| && a < s.end
    ensures var v := Chain(m, s.end, AddressCode(s.w), EndOf(s.blk, a));
      Chain(m, s.end, AddressCode(s.w), a) ==
        if LiveAt(s.blk, a) && !s.blk[a].kind.linked then Bad
        else if v.Good? then Good(Plus(v.t, s.blk[a])) else Bad
  {
    hide WF, Mirrors, GoodBlock, RecordFits, FieldOf, Get, TypeBits;
    LinkedNext(s, a);
    RecordReads(m, s, a);
    if FreeAt(s.blk, a) {
      FreeIsGood(m, s, a);
      FreeReads(m, s, a);
    } else {
      LiveIsGood(m, s, a);
    }
  }

  lemma {:induction false} BuiltChain(m: Buffer, s: Heap, a: nat)
    requires WF(s) && Mirrors(m, s) && (a in s.blk || a == s.end)
    ensures s.end == |m|
    ensures Chain(m, s.end, AddressCode(s.w), a) == if AllLinked(s.blk, a) then Good(Count(s.end, s.blk, a)) else Bad
    decreases s.end - a
  {
    hide WF, Mirrors, Chain, AllLinked, Count;
    NoneBeyond(s);
    MirrorLength(m, s);
    if a in s.blk {
      ChainStep(m, s, a);
      LinkedNext(s, a);
      ChainNext(s, a);
      BuiltChain(m, s, EndOf(s.blk, a));
    } else {
      ChainDone(m, s.end, AddressCode(s.w), a);
      EndCount(s);
    }
  }

  lemma ChainNext(s: Heap, a: nat)
    requires WF(s) && a in s.blk
    ensures var e := EndOf(s.blk, a);
      (e in s.blk || e == s.end) && Count(s.end, s.blk, a) == Plus(Count(s.end, s.blk, e), s.blk[a])
  {
    hide Tiles, Count;
    CountNext(s.w, s.end, s.blk, a);
  }

  lemma EndCount(s: Heap)
    requires WF(s)
    ensures Count(s.end, s.blk, s.end) == NONE
  {
    hide Tiles, Count;
    CountEnd(s.w, s.end, s.blk);
  }

  /** A heap built here is accepted exactly when all its live blocks are linked and
      its free bytes stay under the limit. */
  lemma BuiltAccepted(m: Buffer, s: Heap)
    requires WF(s) && Mirrors(m, s)
    ensures s.end == |m|
    ensures Accepts(m, s.end, AddressCode(s.w), KeysOf(s)) <==>
      (forall a :: LiveAt(s.blk, a) ==> s.blk[a].kind.linked) && Sum(s).freeSize < FREE_LIMIT
  {
    hide Mirrors, Chain, Count, Listed, Tagged, AddressCode;
    BuiltChain(m, s, BASE);
    ModeWidth(s.w);
    assert forall a :: a in s.blk ==> Fits(s.w, s.end, s.blk, a);
  }
}
