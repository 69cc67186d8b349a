/** Freeing on bytes: a live block joins the head of the free list, and the tag in
    front of it may lead to a free predecessor. */
module MirrorFree {
  import opened Bytes
  import opened HeapModel
  import opened Layout
  import opened Mirror
  import opened MirrorOps
  import opened MirrorLive
  import opened Freeing
  import opened Tally

  // s, mirrored by m, has the linked live block a.
  ghost predicate FreePoint(m: Buffer, s: Heap, a: nat) {
    WF(s) && Mirrors(m, s) && LiveAt(s.blk, a) && s.blk[a].kind.linked
  }

  lemma FreeFacts(m: Buffer, s: Heap, a: nat)
    requires FreePoint(m, s, a)
    ensures var g := Release(s, a);
      && Laid(g) && g.w == s.w && g.end == s.end && g.max == s.max && |m| == s.end && FreeAt(g.blk, a) && a <= s.end
      && (s.free != [] ==> FreeAt(g.blk, s.free[0]) && s.free[0] != a && s.free[0] <= s.end)
    ensures First(s.free) == 0 <==> s.free == []
    ensures Ctl(m, s.w, a).size == s.blk[a].size && s.blk[a].size <= 0xFFFF_FFFF && s.blk[a].size <= KeysOf(s).allocSize
    ensures 0 < KeysOf(s).allocEntries
    ensures var d := Ctl(m, s.w, a).flags;
      Flags(AddressBits(d), 0, AllocBit(d), LinkedBit(d)) == KindFlags(s.w, Free) && KindFlags(s.w, Free) < 256
  {
    hide LinksOk, FeetOk, BlocksOk, Tagged, Sum;
    ReleaseKeeps(s, a);
    LiveReads(m, s, a);
    SumRelease(s, a);
    NoBlockAtZero(s);
    FlagsRead(AddressCode(s.w), 0, true, true);
    assert s.free != [] ==> s.free[0] in s.free;
    assert Fits(s.w, s.end, s.blk, a);
    if s.free != [] {
      HookedPlace(s, s.free[0]);
    }
  }

  // The bytes of a release: the links of a and of the old head, and the flags of a.
  ghost predicate Released(m: Buffer, r: Buffer, s: Heap, a: nat)
    requires LiveAt(s.blk, a)
  {
    && Quiet(m, r, Release(s, a))
    && Ctl(r, s.w, a) == Control(KindFlags(s.w, Free), s.blk[a].size, 0, First(s.free))
    && (forall b :: b in s.blk && b != a ==>
          Ctl(r, s.w, b) == if s.free != [] && b == s.free[0] then Ctl(m, s.w, b).(prev := a) else Ctl(m, s.w, b))
  }

  lemma ReleasedBlocks(m: Buffer, r: Buffer, s: Heap, a: nat)
    requires LiveAt(s.blk, a) && BlocksOk(m, s.w, s.blk) && Released(m, r, s, a)
    ensures BlocksOk(r, s.w, Release(s, a).blk)
  {
    hide Ctl, Quiet;
    var g := Release(s, a).blk;
    forall b | b in g
      ensures BlockOk(r, s.w, b, g[b])
    {
      assert BlockOk(m, s.w, b, s.blk[b]);
    }
  }

  lemma ReleasedLinks(m: Buffer, r: Buffer, s: Heap, a: nat)
    requires Listed(s.blk, s.free) && LiveAt(s.blk, a) && LinksOk(m, s.w, s.free) && Released(m, r, s, a)
    ensures LinksOk(r, s.w, Release(s, a).free)
  {
    hide Ctl, Quiet;
    var q, p := s.free, Release(s, a).free;
    forall i: nat {:trigger LinkOk(r, s.w, p, i)} | i < |p|
      ensures LinkOk(r, s.w, p, i)
    {
      if i > 0 {
        assert p[i] == q[i-1] && q[i-1] in q && LinkOk(m, s.w, q, i - 1);
      }
    }
  }

  lemma ReleasedFeet(m: Buffer, r: Buffer, s: Heap, a: nat)
    requires LiveAt(s.blk, a) && Tagged(s.w, s.blk, s.tagged)
    requires FeetOk(m, s.blk, s.tagged) && FeetSame(m, r, Release(s, a).blk, s.tagged)
    ensures FeetOk(r, Release(s, a).blk, s.tagged)
  {
  }

  /** The arena mirrors the heap with the block back on the list. */
  lemma ReleaseMirrors(m: Buffer, r: Buffer, s: Heap, a: nat)
    requires FreePoint(m, s, a) && Released(m, r, s, a)
    ensures WF(Release(s, a)) && Mirrors(r, Release(s, a))
    ensures LiveSame(m, r, Release(s, a).blk)
  {
    hide Tiles, Ctl, BlocksOk, LinksOk, FeetOk, FeetSame, LiveSame, ShelterSame, Listed, Tagged;
    ReleaseKeeps(s, a);
    ReleasedBlocks(m, r, s, a);
    ReleasedLinks(m, r, s, a);
    ReleasedFeet(m, r, s, a);
  }

  // The key block once the block a of the given size is back on the list.
  lemma ReleasedKeys(s: Heap, a: nat)
    requires WF(s) && LiveAt(s.blk, a)
    ensures var k, size := KeysOf(s), s.blk[a].size;
      && size <= k.allocSize && 0 < k.allocEntries
      && KeysOf(Release(s, a)) ==
           k.(firstFree := a, lastFree := if k.lastFree == 0 then a else k.lastFree,
              freeSize := k.freeSize + size, allocSize := k.allocSize - size,
              freeEntries := k.freeEntries + 1, allocEntries := k.allocEntries - 1)
  {
    hide Sum, Tiles, Tagged;
    SumRelease(s, a);
    NoBlockAtZero(s);
    assert s.free != [] ==> s.free[|s.free| - 1] in s.free;
  }

  // The steps of a release, with and without an old head to link to.
  lemma ReleaseDone(m: Buffer, m1: Buffer, m2: Buffer, r: Buffer, s: Heap, a: nat)
    requires FreePoint(m, s, a)
    requires var g := Release(s, a);
      && Step(m, m1, g, a, Ctl(m, s.w, a).(prev := 0, next := First(s.free)))
      && (if s.free == [] then m2 == m1 else Step(m1, m2, g, s.free[0], Ctl(m1, s.w, s.free[0]).(prev := a)))
      && Step(m2, r, g, a, Ctl(m2, s.w, a).(flags := KindFlags(s.w, Free)))
    ensures Released(m, r, s, a)
  {
    hide WF, Mirrors, Quiet, Ctl, KindFlags;
    FreeFacts(m, s, a);
    var g := Release(s, a);
    if s.free == [] {
      QuietChain(m, m1, r, g);
    } else {
      QuietChain(m, m1, m2, g);
      QuietChain(m, m2, r, g);
    }
  }

  // ---- looking back --------------------------------------------------------------------

  // The header at q reads as that of a free block of z bytes.
  predicate LooksFree(m: Buffer, w: nat, q: nat, z: nat) {
    var d := Get(m, q, 1);
    AddressBits(d) == AddressCode(w) && AllocBit(d) && LinkedBit(d) && TypeBits(d) == 0 && SizeRead(m, w, q) == z
  }

  // The tag in front of a leads to something that reads as a free block of the
  // size it names.
  predicate TagLeads(m: Buffer, w: nat, a: nat) {
    var z := FootAt(m, a);
    FootMin(w) <= z < a && HeaderSize(w) <= a - z && LooksFree(m, w, a - z, z)
  }

  // What the look back answers.
  function LookBack(m: Buffer, w: nat, a: nat): nat { if TagLeads(m, w, a) then a - FootAt(m, a) else 0 }

  /** The tag in front of a leads to bytes that imitate a free block where there
      is none. */
  predicate Decoy(m: Buffer, w: nat, blk: Blocks, a: nat) {
    TagLeads(m, w, a) && a - FootAt(m, a) !in blk
  }

  /** A block that reads as free is free, and has the size it reads. */
  lemma LooksIsFree(m: Buffer, s: Heap, q: nat, z: nat)
    requires WF(s) && Mirrors(m, s) && q in s.blk
    ensures LooksFree(m, s.w, q, z) <==> FreeAt(s.blk, q) && s.blk[q].size == z
  {
    hide Tiles, LinksOk, FeetOk, Listed, Tagged, AddressBits, AllocBit, LinkedBit, TypeBits;
    NoBlockAtZero(s);
    FitsTiles(s.w, s.end, s.blk, q);
    assert BlockOk(m, s.w, q, s.blk[q]);
    match s.blk[q].kind
    case Free => FlagsRead(AddressCode(s.w), 0, true, true);
    case Live(typ, linked) =>
      assert LiveAt(s.blk, q);
      FlagsRead(AddressCode(s.w), typ, true, linked);
  }

  /** The look back answers the free block that ends at a or nothing, and misses no
      tagged one, exactly when the tag leads to no decoy. */
  lemma TagAnswers(m: Buffer, s: Heap, a: nat)
    requires WF(s) && Mirrors(m, s)
    ensures Answers(s.blk, s.tagged, a, LookBack(m, s.w, a)) <==> !Decoy(m, s.w, s.blk, a)
  {
    hide Tiles, BlocksOk, LinksOk, Listed, LooksFree, FootAt;
    var z := FootAt(m, a);
    if TagLeads(m, s.w, a) && a - z in s.blk {
      LooksIsFree(m, s, a - z, z);
    }
    forall x | x in s.tagged && FreeAt(s.blk, x) && EndOf(s.blk, x) == a
      ensures LookBack(m, s.w, a) == x
    {
      TaggedFound(m, s, a, x);
    }
  }

  /** A block that carries its tag is found, and then nothing else can be. */
  lemma TaggedFound(m: Buffer, s: Heap, a: nat, x: nat)
    requires WF(s) && Mirrors(m, s) && FreeAt(s.blk, x) && FootMin(s.w) <= s.blk[x].size
    requires EndOf(s.blk, x) == a && FootAt(m, a) == s.blk[x].size
    ensures LookBack(m, s.w, a) == x && !Decoy(m, s.w, s.blk, a)
  {
    hide Tiles, BlocksOk, LinksOk, Listed, LooksFree, FootAt;
    LooksIsFree(m, s, x, s.blk[x].size);
    assert BASE <= x by { FitsTiles(s.w, s.end, s.blk, x); }
  }

  // ---- telling a decoy by walking the blocks --------------------------------------------

  /** Stepping from x by the sizes that read on the way comes by q. */
  predicate ComesBy(m: Buffer, w: nat, x: nat, q: nat)
    decreases if x <= q then q - x else 0
  {
    if q <= x then x == q else 0 < SizeRead(m, w, x) && ComesBy(m, w, x + SizeRead(m, w, x), q)
  }

  // The tag leads to a place the walk over the blocks does not come by.
  predicate LedAstray(m: Buffer, w: nat, a: nat) {
    TagLeads(m, w, a) && !ComesBy(m, w, BASE, a - FootAt(m, a))
  }

  lemma {:induction false} ChainComesBy(m: Buffer, s: Heap, x: nat, q: nat)
    requires WF(s) && Mirrors(m, s) && x in s.blk && q < s.end
    ensures ComesBy(m, s.w, x, q) <==> q in s.blk && x <= q
    decreases if x <= q then q - x else 0
  {
    hide WF, Mirrors, SizeRead;
    if x < q {
      SizeReads(m, s, x);
      ChainStep(s, x, q);
      ChainSize(m, s, x);
      if EndOf(s.blk, x) in s.blk {
        ChainComesBy(m, s, EndOf(s.blk, x), q);
      }
    }
  }

  lemma ChainSize(m: Buffer, s: Heap, x: nat)
    requires WF(s) && Mirrors(m, s) && x in s.blk
    ensures SizeRead(m, s.w, x) == s.blk[x].size
  {
    hide Mirrors, Tiles, Listed, Tagged;
    SizeReads(m, s, x);
  }

  // No block starts between x and where it ends; the last one ends past q.
  lemma ChainStep(s: Heap, x: nat, q: nat)
    requires WF(s) && x in s.blk && x < q < s.end
    ensures 0 < s.blk[x].size && (EndOf(s.blk, x) in s.blk || q < EndOf(s.blk, x))
    ensures q in s.blk ==> EndOf(s.blk, x) <= q
  {
    assert Fits(s.w, s.end, s.blk, x) && Chained(s.end, s.blk, x);
  }

  /** A decoy is told by a walk over the blocks. */
  lemma AstrayIsDecoy(m: Buffer, s: Heap, a: nat)
    requires WF(s) && Mirrors(m, s) && a <= s.end
    ensures LedAstray(m, s.w, a) <==> Decoy(m, s.w, s.blk, a)
  {
    hide Mirrors, Listed, Tagged, LooksFree, FootAt, ComesBy;
    if TagLeads(m, s.w, a) {
      var q := a - FootAt(m, a);
      ChainComesBy(m, s, BASE, q);
      assert q in s.blk ==> Fits(s.w, s.end, s.blk, q);
    }
  }

  // ---- what can imitate a header ----------------------------------------------------------

  // A flag byte that reads as that of a free block is just one value.
  lemma FreeByte(w: nat, d: nat)
    requires d < 256 && AddressBits(d) == AddressCode(w) && AllocBit(d) && LinkedBit(d) && TypeBits(d) == 0
    ensures d == KindFlags(w, Free)
  {
  }

  /** A decoy's flag byte is that of a free block, inside a block that ends no later
      than a, or in front of all blocks. */
  lemma DecoyPlace(m: Buffer, s: Heap, a: nat) returns (b: nat)
    requires WF(s) && Mirrors(m, s) && a <= s.end && Decoy(m, s.w, s.blk, a)
    requires a in s.blk
    ensures var q := a - FootAt(m, a);
      && q + FootMin(s.w) <= a && m[q] == KindFlags(s.w, Free)
      && (q < BASE || (b in s.blk && b < q < EndOf(s.blk, b) <= a))
  {
    hide BlocksOk, LinksOk, FeetOk, Listed, Tagged, FootAt, SizeRead, KindFlags;
    var q := a - FootAt(m, a);
    MirrorLength(m, s);
    FlagByte(m, q);
    FreeByte(s.w, Get(m, q, 1));
    b := BASE;
    if BASE <= q {
      b := BlockOver(s.w, s.end, s.blk, BASE, q);
    }
  }

  lemma {:induction false} BlockOver(w: nat, end: nat, m: Blocks, x: nat, i: nat) returns (f: nat)
    requires Tiles(w, end, m) && x in m && x <= i < end
    ensures f in m && f <= i < EndOf(m, f)
    decreases end - x
  {
    CountNext(w, end, m, x);
    if i < EndOf(m, x) {
      f := x;
    } else {
      f := BlockOver(w, end, m, EndOf(m, x), i);
    }
  }

  /** No decoy, if the flag byte of a free block occurs where blocks start only. */
  lemma NoImitation(m: Buffer, s: Heap, a: nat)
    requires WF(s) && Mirrors(m, s) && a in s.blk
    requires forall i | 0 <= i < |m| && m[i] == KindFlags(s.w, Free) :: i in s.blk
    ensures !Decoy(m, s.w, s.blk, a)
  {
    hide BlocksOk, LinksOk, FeetOk, Listed, Tagged, FootAt, LooksFree, KindFlags;
    assert Fits(s.w, s.end, s.blk, a);
    if Decoy(m, s.w, s.blk, a) {
      var b := DecoyPlace(m, s, a);
      MirrorLength(m, s);
    }
  }

  /** A header that merging cleared imitates nothing, until something covers it. */
  lemma GraveImitatesNothing(m: Buffer, w: nat, blk: Blocks, x: nat, z: nat)
    requires Grave(m, w, blk, x)
    ensures !LooksFree(m, w, x, z)
  {
  }

  // ---- glue ----------------------------------------------------------------------------

  lemma FreeKeys(s: Heap)
    ensures KeysOf(s).firstFree == First(s.free)
  {
  }

  lemma ReleaseFrame(s: Heap, a: nat)
    requires LiveAt(s.blk, a)
    ensures var g := Release(s, a); g.w == s.w && g.max == s.max && g.end == s.end
  {
  }

  // The flags a release clears are those the block had.
  lemma FrontFlags(m: Buffer, m1: Buffer, m2: Buffer, s: Heap, a: nat)
    requires FreePoint(m, s, a)
    requires var g := Release(s, a);
      && Step(m, m1, g, a, Ctl(m, s.w, a).(prev := 0, next := First(s.free)))
      && (if s.free == [] then m2 == m1 else Step(m1, m2, g, s.free[0], Ctl(m1, s.w, s.free[0]).(prev := a)))
    ensures Get(m2, a, 1) == Get(m, a, 1) && |m2| == |m|
  {
    hide WF, Mirrors, FeetSame, LiveSame, ShelterSame, Get;
    FreeFacts(m, s, a);
    assert Ctl(m2, s.w, a).flags == Ctl(m1, s.w, a).flags == Ctl(m, s.w, a).flags;
  }

  lemma FrontLinks(m: Buffer, m1: Buffer, m2: Buffer, r: Buffer, s: Heap, a: nat)
    requires FreePoint(m, s, a) && SameOutside(m, m1, a, a + ControlSize(s.w))
    requires if s.free == [] then m2 == m1
             else SameOutside(m1, m2, s.free[0] + HeaderSize(s.w), s.free[0] + ControlSize(s.w))
    requires SameOutside(m2, r, a, a + ControlSize(s.w))
    ensures LinksOnly(m, r, s.w, s.blk, a)
  {
    hide WF, Mirrors, LinksOnly, SameOutside, FreeBelow;
    var w, blk, hi := s.w, s.blk, a + ControlSize(s.w);
    LinksOnlyAbove(m, m1, w, blk, a, a, hi);
    LinksOnlyAbove(m2, r, w, blk, a, a, hi);
    LinksSelf(m1, w, blk, a);
    if s.free != [] {
      HeadFree(m, s, a);
      LinksOnlyPut(m1, m2, w, blk, a, s.free[0]);
    }
    LinksOnlyChain(m, m1, m2, w, blk, blk, a, a);
    LinksOnlyChain(m, m2, r, w, blk, blk, a, a);
  }

  lemma FrontTouched(m: Buffer, m1: Buffer, m2: Buffer, r: Buffer, s: Heap, a: nat)
    requires FreePoint(m, s, a) && SameOutside(m, m1, a, a + ControlSize(s.w))
    requires if s.free == [] then m2 == m1
             else SameOutside(m1, m2, s.free[0] + HeaderSize(s.w), s.free[0] + ControlSize(s.w))
    requires SameOutside(m2, r, a, a + ControlSize(s.w))
    ensures Touched(m, r, s.w, FreeStarts(Release(s, a).blk), {})
  {
    hide WF, Mirrors, Touched;
    var c := FreeStarts(Release(s, a).blk);
    assert a in c;
    TouchedAt(m, m1, s.w, c, {}, a);
    TouchedAt(m2, r, s.w, c, {}, a);
    TouchedSelf(m1, s.w, c, {});
    if s.free != [] {
      HeadFree(m, s, a);
      assert s.free[0] in c;
      TouchedAt(m1, m2, s.w, c, {}, s.free[0]);
    }
    TouchedChain(m, m1, m2, s.w, c, {});
    TouchedChain(m, m2, r, s.w, c, {});
  }

  lemma HeadFree(m: Buffer, s: Heap, a: nat)
    requires FreePoint(m, s, a) && s.free != []
    ensures FreeAt(s.blk, s.free[0])
  {
    assert s.free[0] in s.free;
  }

  lemma ForwardIs(s: Heap, a: nat)
    requires WF(s) && LiveAt(s.blk, a)
    ensures WF(Release(s, a)) && FreeAt(Release(s, a).blk, a) && Forward(s, a) == Collate(Release(s, a), a)
  {
    ReleaseKeeps(s, a);
  }

  // What a release and the merge forwards leave: live bytes, and below a all but links.
  lemma ForwardFrame(m0: Buffer, m1: Buffer, m: Buffer, s: Heap, a: nat)
    requires WF(s) && LiveAt(s.blk, a)
    requires LiveSame(m0, m1, Release(s, a).blk) && LinksOnly(m0, m1, s.w, s.blk, a)
    requires Kept(m1, m, Release(s, a)) && LinksOnly(m1, m, s.w, Release(s, a).blk, a)
    ensures LiveSame(m0, m, Release(s, a).blk) && LinksOnly(m0, m, s.w, s.blk, a)
    ensures Stands(Release(s, a).blk, Forward(s, a).blk)
  {
    hide WF, LiveSame, LinksOnly, ShelterSame, Stands;
    ReleaseKeeps(s, a);
    CollateStands(Release(s, a), a);
    SelfStands(Release(s, a).blk);
    LiveChain(m0, m1, m, Release(s, a).blk, Release(s, a).blk);
    LinksOnlyChain(m0, m1, m, s.w, s.blk, Release(s, a).blk, a, a);
  }

  lemma SelfStands(x: Blocks)
    ensures Stands(x, x)
  {
  }

  lemma CollateStands(s: Heap, a: nat)
    requires WF(s) && FreeAt(s.blk, a)
    ensures Stands(s.blk, Collate(s, a).blk)
  {
    CollateKeeps(s, a);
    SwallowedLive(s.blk, Collate(s, a).blk, a);
  }

  lemma BackFrame(m0: Buffer, m1: Buffer, m: Buffer, s: Heap, t: Heap, a: nat)
    requires WF(s) && LiveAt(s.blk, a) && t == Forward(s, a)
    requires LiveSame(m0, m1, Release(s, a).blk) && Stands(Release(s, a).blk, t.blk) && Kept(m1, m, t)
    ensures LiveSame(m0, m, Release(s, a).blk)
  {
    hide WF, LiveSame, ShelterSame, Stands, Forward;
    LiveChain(m0, m1, m, Release(s, a).blk, t.blk);
  }

  // ---- refusals and payload --------------------------------------------------------------

  predicate Unlinked(blk: Blocks, a: nat) { LiveAt(blk, a) && !blk[a].kind.linked }

  lemma BlockReads(m: Buffer, s: Heap, a: nat)
    requires WF(s) && Mirrors(m, s) && a in s.blk
    ensures BASE <= a && a + MinBlock(s.w) <= s.end && ValidWidth(s.w)
  {
    SizeReads(m, s, a);
  }

  lemma LiveStays(m: Buffer, s: Heap, a: nat)
    requires WF(s) && Mirrors(m, s) && LiveAt(s.blk, a)
    ensures LiveSame(m, m, Release(s, a).blk)
  {
    LiveSelf(m, s);
  }

  lemma StoreOthers(m: Buffer, r: Buffer, s: Heap, a: nat, lo: nat, hi: nat)
    requires Tiles(s.w, s.end, s.blk) && |m| == s.end && LiveAt(s.blk, a)
    requires a <= lo <= hi <= EndOf(s.blk, a) && SameOutside(m, r, lo, hi)
    ensures OthersSame(m, r, s.w, s.blk, a) && LiveSame(m, r, Release(s, a).blk)
  {
    InsideOthers(m, r, s, a, lo, hi);
    forall b | LiveAt(s.blk, b) && b != a
      ensures SameOn(m, r, b, EndOf(s.blk, b))
    {
      Apart(s.w, s.end, s.blk, a, b);
    }
  }

  lemma StoreFeet(m: Buffer, r: Buffer, s: Heap, a: nat, lo: nat, hi: nat)
    requires Tiles(s.w, s.end, s.blk) && Tagged(s.w, s.blk, s.tagged) && |m| == s.end && LiveAt(s.blk, a)
    requires a <= lo <= hi <= EndOf(s.blk, a) && SameOutside(m, r, lo, hi) && FeetOk(m, s.blk, s.tagged)
    ensures FeetOk(r, s.blk, s.tagged)
  {
    forall b | b in s.tagged
      ensures FootAt(r, EndOf(s.blk, b)) == s.blk[b].size
    {
      FitsTiles(s.w, s.end, s.blk, b);
      Apart(s.w, s.end, s.blk, a, b);
      FootSame(m, r, EndOf(s.blk, b));
    }
  }

  lemma HeaderSame(m: Buffer, r: Buffer, s: Heap, a: nat, lo: nat, hi: nat)
    requires a + HeaderSize(s.w) <= lo && SameOutside(m, r, lo, hi) && lo <= |m|
    ensures Ctl(r, s.w, a).flags == Ctl(m, s.w, a).flags && Ctl(r, s.w, a).size == Ctl(m, s.w, a).size
  {
    GetSame(m, r, a, 1);
    GetSame(m, r, a + 1, s.w);
  }

  /** A client that writes only payload disturbs nothing the heap relies on. */
  lemma StoreMirrors(m: Buffer, s: Heap, a: nat, at: nat, data: Buffer)
    requires WF(s) && Mirrors(m, s) && LiveAt(s.blk, a)
    requires a + HeaderSize(s.w) <= at && at + |data| <= EndOf(s.blk, a)
    ensures at + |data| <= |m|
    ensures var r := m[..at] + data + m[at + |data|..]; Mirrors(r, s) && LiveSame(m, r, Release(s, a).blk)
  {
    hide Tiles, Ctl, LinksOk, FeetOk, FootAt, LiveSame, OthersSame, Listed, Tagged;
    FitsTiles(s.w, s.end, s.blk, a);
    var r := m[..at] + data + m[at + |data|..];
    assert SameOutside(m, r, at, at + |data|);
    StoreOthers(m, r, s, a, at, at + |data|);
    StoreFeet(m, r, s, a, at, at + |data|);
    HeaderSame(m, r, s, a, at, at + |data|);
    assert BlockOk(m, s.w, a, s.blk[a]);
    RetypeBlocks(m, r, s, a, s.blk[a].kind);
    RetypeSelf(s, a);
    RetypeLinks(m, r, s, a);
  }
}
