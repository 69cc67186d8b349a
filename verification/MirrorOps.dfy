/** After each operation's writes the arena mirrors the heap the operation
    describes. */
module MirrorOps {
  import opened Bytes
  import opened HeapModel
  import opened Layout
  import opened Mirror
  import opened Tally

  // The links of r among the members of q are those of m with q[j] unhooked.
  ghost predicate Rehooked(m: Buffer, r: Buffer, w: nat, q: seq<nat>, j: nat)
    requires j < |q|
  {
    forall k: nat {:trigger q[k]} :: k < |q| && k != j ==>
      var c, d := Ctl(m, w, q[k]), Ctl(r, w, q[k]);
      && d.prev == (if k == j + 1 then Before(q, j) else c.prev)
      && d.next == (if k + 1 == j then After(q, j) else c.next)
  }

  lemma LinkRemoved(m: Buffer, r: Buffer, w: nat, q: seq<nat>, j: nat, i: nat)
    requires j < |q| && LinksOk(m, w, q) && Rehooked(m, r, w, q, j) && i + 1 < |q|
    ensures LinkOk(r, w, q[..j] + q[j+1..], i)
  {
    var k := if i < j then i else i + 1;
    assert (q[..j] + q[j+1..])[i] == q[k];
    assert LinkOk(m, w, q, k);
  }

  lemma LinksRemoved(m: Buffer, r: Buffer, w: nat, q: seq<nat>, j: nat)
    requires Distinct(q) && j < |q| && LinksOk(m, w, q) && Rehooked(m, r, w, q, j)
    ensures LinksOk(r, w, Remove(q, q[j]))
  {
    RemoveAt(q, j);
    forall i: nat {:trigger LinkOk(r, w, Remove(q, q[j]), i)} | i < |Remove(q, q[j])|
      ensures LinkOk(r, w, Remove(q, q[j]), i)
    {
      LinkRemoved(m, r, w, q, j, i);
    }
  }

  // r is m with q[j] unhooked and, at a, the size changed to size.
  ghost predicate JoinedBytes(m: Buffer, r: Buffer, s: Heap, j: nat, a: nat, size: nat)
    requires j < |s.free|
  {
    && Quiet(m, r, s)
    && (forall b :: b in s.blk && b != s.free[j] ==>
          var d := Unhooked(Ctl(m, s.w, b), s.w, s.free, j, b);
          Ctl(r, s.w, b) == if b == a then d.(size := size) else d)
  }

  // r and l are the arena and its key block m and k after the j-th free block x
  // was taken off the list.
  ghost predicate Delisted(m: Buffer, k: Keys, r: Buffer, l: Keys, s: Heap, j: nat, x: nat) {
    && j < |s.free| && x == s.free[j] && x in s.blk && Isolated(m, r, s, j)
    && s.blk[x].size <= k.freeSize && 0 < k.freeEntries
    && l == Delist(k, x, Before(s.free, j), After(s.free, j), s.blk[x].size)
  }

  // s, mirrored by m, has the j-th free block n right behind the free block a.
  ghost predicate MergePoint(m: Buffer, s: Heap, j: nat, a: nat, n: nat) {
    && WF(s) && Mirrors(m, s)
    && FreeAt(s.blk, a) && FreeAt(s.blk, n) && n == EndOf(s.blk, a)
    && j < |s.free| && s.free[j] == n
  }

  lemma MergeStart(m: Buffer, k: Keys, r: Buffer, l: Keys, s: Heap, j: nat, a: nat, n: nat)
    requires WF(s) && Mirrors(m, s) && FreeAt(s.blk, a) && FreeAt(s.blk, n) && n == EndOf(s.blk, a)
    requires Delisted(m, k, r, l, s, j, n)
    ensures MergePoint(m, s, j, a, n) && Isolated(m, r, s, j)
  {
  }

  lemma MergeSizes(m: Buffer, r: Buffer, s: Heap, j: nat, a: nat, n: nat)
    requires MergePoint(m, s, j, a, n) && Isolated(m, r, s, j)
    ensures Ctl(r, s.w, a).size == s.blk[a].size && Ctl(r, s.w, n).size == s.blk[n].size
    ensures s.blk[a].size + s.blk[n].size <= s.end && a != n && |r| == s.end
  {
    assert BlockOk(m, s.w, a, s.blk[a]) && BlockOk(m, s.w, n, s.blk[n]);
    assert Fits(s.w, s.end, s.blk, a) && Fits(s.w, s.end, s.blk, n);
  }

  lemma MergePlace(m: Buffer, r: Buffer, s: Heap, j: nat, a: nat, n: nat)
    requires MergePoint(m, s, j, a, n) && Isolated(m, r, s, j)
    ensures Laid(s) && FreeAt(s.blk, a) && FreeAt(s.blk, n) && n == EndOf(s.blk, a) && |r| == s.end
  {
    MergeSizes(m, r, s, j, a, n);
  }

  // The bytes after a merge: n unhooked and its size added to that of a.
  ghost predicate Merged(m: Buffer, r: Buffer, s: Heap, j: nat, a: nat, n: nat) {
    && MergePoint(m, s, j, a, n)
    && JoinedBytes(m, r, s, j, a, s.blk[a].size + s.blk[n].size)
    && Ctl(r, s.w, n).size == s.blk[n].size && Ctl(r, s.w, n).flags == 0
  }

  lemma MergeSteps(m: Buffer, r: Buffer, t: Buffer, u: Buffer, s: Heap, j: nat, a: nat, n: nat)
    requires MergePoint(m, s, j, a, n) && Isolated(m, r, s, j)
    requires Step(r, t, s, a, Ctl(r, s.w, a).(size := Ctl(r, s.w, a).size + Ctl(r, s.w, n).size))
    requires Step(t, u, s, n, Ctl(t, s.w, n).(flags := 0))
    ensures Merged(m, u, s, j, a, n)
  {
    MergeSizes(m, r, s, j, a, n);
    hide Mirrors, WF;
    TwoSteps(r, t, u, s, a, Ctl(t, s.w, a), n, Ctl(u, s.w, n));
    QuietChain(m, r, u, s);
  }

  lemma JoinedRehooks(m: Buffer, r: Buffer, s: Heap, j: nat, a: nat, size: nat)
    requires WF(s) && j < |s.free| && JoinedBytes(m, r, s, j, a, size)
    ensures Rehooked(m, r, s.w, s.free, j)
  {
    var q := s.free;
    NoBlockAtZero(s);
    forall k: nat {:trigger q[k]} | k < |q| && k != j
      ensures var c, d := Ctl(m, s.w, q[k]), Ctl(r, s.w, q[k]);
        && d.prev == (if k == j + 1 then Before(q, j) else c.prev)
        && d.next == (if k + 1 == j then After(q, j) else c.next)
    {
      assert q[k] in q && q[k] != q[j];
      assert (q[k] == Before(q, j) <==> k + 1 == j) && (q[k] == After(q, j) <==> k == j + 1);
    }
  }

  lemma BlockIsLong(s: Heap, a: nat)
    requires WF(s) && a in s.blk
    ensures 0 < s.blk[a].size
  {
    assert Fits(s.w, s.end, s.blk, a);
  }

  lemma JoinedBlocks(m: Buffer, r: Buffer, s: Heap, j: nat, a: nat)
    requires WF(s) && BlocksOk(m, s.w, s.blk) && FreeAt(s.blk, a) && FreeAt(s.blk, EndOf(s.blk, a))
    requires j < |s.free| && s.free[j] == EndOf(s.blk, a)
    requires JoinedBytes(m, r, s, j, a, s.blk[a].size + s.blk[EndOf(s.blk, a)].size)
    ensures BlocksOk(r, s.w, Join(s.blk, a))
  {
    hide Tiles, Listed, Tagged, Ctl, Quiet;
    var t := Join(s.blk, a);
    assert 0 < s.blk[a].size by { BlockIsLong(s, a); }
    forall b | b in t
      ensures BlockOk(r, s.w, b, t[b])
    {
      assert b in s.blk && b != s.free[j] && BlockOk(m, s.w, b, s.blk[b]);
    }
  }

  // Tags of blocks that neither grew nor went are still in place.
  lemma JoinedFeet(m: Buffer, r: Buffer, s: Heap, a: nat)
    requires WF(s) && FeetOk(m, s.blk, s.tagged) && FeetSame(m, r, s.blk, s.tagged)
    requires FreeAt(s.blk, a) && FreeAt(s.blk, EndOf(s.blk, a))
    ensures FeetOk(r, Join(s.blk, a), s.tagged - {a, EndOf(s.blk, a)})
  {
  }

  // The heap after a merge whose new tag is not yet written.
  function Unstamped(s: Heap, a: nat): Heap
    requires FreeAt(s.blk, a) && FreeAt(s.blk, EndOf(s.blk, a))
  {
    Absorb(s, a).(tagged := s.tagged - {a, EndOf(s.blk, a)})
  }

  /** A merge leaves the key block of the merged heap. */
  lemma MergedKeys(m: Buffer, r: Buffer, l: Keys, s: Heap, j: nat, a: nat, n: nat)
    requires MergePoint(m, s, j, a, n) && Delisted(m, KeysOf(s), r, l, s, j, n)
    ensures l.(freeSize := l.freeSize + s.blk[n].size) == KeysOf(Unstamped(s, a))
  {
    hide WF, Mirrors, Sum, First, Last, Remove, RootAfter, Forget, Join, Isolated;
    Hooked(m, s, j);
    DelistedKeys(s, j, n, Before(s.free, j), After(s.free, j));
    SumAbsorb(s, a);
    SameSum(Unstamped(s, a), Absorb(s, a));
  }

  /** Once the neighbour is off the list, the size added and the neighbour's flags
      cleared, the arena mirrors the merged heap but for the tag. */
  lemma MergedMirrors(m: Buffer, r: Buffer, s: Heap, j: nat, a: nat, n: nat)
    requires Merged(m, r, s, j, a, n)
    ensures var u := Unstamped(s, a);
      && WF(u) && Mirrors(r, u) && Kept(m, r, s)
      && u.w == s.w && u.max == s.max && u.end == s.end
  {
    AbsorbKeeps(s, a);
    JoinedBlocks(m, r, s, j, a);
    JoinedRehooks(m, r, s, j, a, s.blk[a].size + s.blk[n].size);
    LinksRemoved(m, r, s.w, s.free, j);
    JoinedFeet(m, r, s, a);
  }

  lemma MergedGrave(m: Buffer, r: Buffer, s: Heap, j: nat, a: nat, n: nat)
    requires Merged(m, r, s, j, a, n) && FOOT < s.blk[n].size
    ensures Grave(r, s.w, Unstamped(s, a).blk, n)
  {
    assert Fits(s.w, s.end, s.blk, a);
    assert FreeAt(Unstamped(s, a).blk, a) && a + ControlSize(s.w) <= n && n + FOOT < EndOf(Unstamped(s, a).blk, a);
  }

  // Stamping what Unstamped left is all that is missing.
  lemma AbsorbParts(s: Heap, a: nat)
    requires WF(s) && FreeAt(s.blk, a) && FreeAt(s.blk, EndOf(s.blk, a))
    ensures var u, t := Unstamped(s, a), Absorb(s, a);
      && FreeAt(u.blk, a) && Stamped(u, a) == t && WF(t) && KeysOf(u) == KeysOf(t)
      && Covers(s.blk, u.blk) && FreeBelow(s.blk, u.blk, a) && t.w == s.w && t.max == s.max && t.end == s.end == u.end
  {
    hide WF, Grown, Covers, FreeBelow, Join, Remove, Sum, First, Last, RootAfter;
    AbsorbKeeps(s, a);
    AbsorbCovers(s, a);
    AbsorbBelow(s, a);
    UnstampedStamps(s, a);
    assert Sum(Unstamped(s, a)) == Sum(Absorb(s, a)) by { SameSum(Unstamped(s, a), Absorb(s, a)); }
  }

  lemma SameSum(s: Heap, t: Heap)
    requires s.end == t.end && s.blk == t.blk
    ensures Sum(s) == Sum(t)
  {
  }

  lemma UnstampedStamps(s: Heap, a: nat)
    requires WF(s) && FreeAt(s.blk, a) && FreeAt(s.blk, EndOf(s.blk, a))
    ensures FreeAt(Unstamped(s, a).blk, a) && Stamped(Unstamped(s, a), a) == Absorb(s, a)
  {
    hide Tiles, Listed, Remove;
    if a in s.tagged {
      assert FootMin(s.w) <= s.blk[a].size;
    }
  }

  lemma AbsorbBelow(s: Heap, a: nat)
    requires FreeAt(s.blk, a) && FreeAt(s.blk, EndOf(s.blk, a))
    ensures FreeBelow(s.blk, Absorb(s, a).blk, a)
  {
  }

  lemma AbsorbCovers(s: Heap, a: nat)
    requires WF(s) && FreeAt(s.blk, a) && FreeAt(s.blk, EndOf(s.blk, a))
    ensures Covers(s.blk, Absorb(s, a).blk)
  {
    AbsorbKeeps(s, a);
    SwallowedCovers(s.blk, Absorb(s, a).blk, a);
  }

  // ---- tags ------------------------------------------------------------------

  lemma StampFrame(m: Buffer, r: Buffer, s: Heap, a: nat)
    requires Laid(s) && |m| == s.end && FreeAt(s.blk, a) && FootMin(s.w) <= s.blk[a].size
    requires SameOutside(m, r, EndOf(s.blk, a) - FOOT, EndOf(s.blk, a))
    ensures Kept(m, r, s) && FeetSame(m, r, s.blk, s.tagged - {a})
    ensures forall b :: b in s.blk ==> Ctl(r, s.w, b) == Ctl(m, s.w, b)
  {
    var lo, hi := EndOf(s.blk, a) - FOOT, EndOf(s.blk, a);
    assert Fits(s.w, s.end, s.blk, a);
    InsideOthers(m, r, s, a, lo, hi);
    InsideLive(m, r, s, a, lo, hi);
    InsideShelter(m, r, s, a, lo, hi);
    CtlSame(m, r, s.w, a);
    forall b | b in s.tagged - {a}
      ensures FootAt(m, EndOf(s.blk, b)) == FootAt(r, EndOf(s.blk, b))
    {
      Apart(s.w, s.end, s.blk, a, b);
      FootSame(m, r, EndOf(s.blk, b));
    }
  }

  // The heap once the block at a carries its tag.
  function Stamped(s: Heap, a: nat): Heap
    requires a in s.blk
  {
    s.(tagged := Stamp(s.w, s.tagged, a, s.blk[a].size))
  }

  lemma SameControls(m: Buffer, r: Buffer, s: Heap)
    requires Listed(s.blk, s.free) && BlocksOk(m, s.w, s.blk) && LinksOk(m, s.w, s.free)
    requires forall b :: b in s.blk ==> Ctl(r, s.w, b) == Ctl(m, s.w, b)
    ensures BlocksOk(r, s.w, s.blk) && LinksOk(r, s.w, s.free)
  {
    forall b | b in s.blk
      ensures BlockOk(r, s.w, b, s.blk[b])
    {
      assert BlockOk(m, s.w, b, s.blk[b]);
    }
    forall i: nat {:trigger LinkOk(r, s.w, s.free, i)} | i < |s.free|
      ensures LinkOk(r, s.w, s.free, i)
    {
      assert s.free[i] in s.free && LinkOk(m, s.w, s.free, i);
    }
  }

  lemma FootFits(s: Heap, a: nat)
    requires Laid(s) && a in s.blk
    ensures s.blk[a].size < Range(8) && BASE <= a && EndOf(s.blk, a) <= s.end
  {
    assert Fits(s.w, s.end, s.blk, a);
    assert Range(4) == 0x1_0000_0000 && Range(8) == 256 * 256 * 256 * 256 * Range(4);
  }

  lemma StampFeet(m: Buffer, r: Buffer, s: Heap, a: nat)
    requires FeetOk(m, s.blk, s.tagged) && FeetSame(m, r, s.blk, s.tagged - {a})
    requires a in s.blk && FootAt(r, EndOf(s.blk, a)) == s.blk[a].size
    ensures FeetOk(r, s.blk, s.tagged + {a})
  {
  }

  // r is m with the free block at a tagged, if it has room for a tag.
  ghost predicate StampedBytes(m: Buffer, r: Buffer, s: Heap, a: nat)
    requires a in s.blk
  {
    && Kept(m, r, s) && Touched(m, r, s.w, {}, {EndOf(s.blk, a)})
    && (forall b :: b in s.blk ==> Ctl(r, s.w, b) == Ctl(m, s.w, b))
    && FeetSame(m, r, s.blk, s.tagged - {a})
    && (if FootMin(s.w) <= s.blk[a].size then FootAt(r, EndOf(s.blk, a)) == s.blk[a].size else r == m)
  }

  // Nothing but the room for the tag of the block at a changed.
  ghost predicate Footed(m: Buffer, r: Buffer, w: nat, blk: Blocks, a: nat)
    requires a in blk
  {
    if FootMin(w) <= blk[a].size then
      FOOT <= EndOf(blk, a) && SameOutside(m, r, EndOf(blk, a) - FOOT, EndOf(blk, a))
    else
      r == m
  }

  /** Writing a tag leaves every live byte and control field alone. */
  lemma StampWrites(m: Buffer, s: Heap, a: nat)
    requires Laid(s) && |m| == s.end && FreeAt(s.blk, a) && FootMin(s.w) <= s.blk[a].size
    ensures StampedBytes(m, SetFoot(m, EndOf(s.blk, a), s.blk[a].size), s, a)
    ensures LinksOnly(m, SetFoot(m, EndOf(s.blk, a), s.blk[a].size), s.w, s.blk, a)
    ensures Footed(m, SetFoot(m, EndOf(s.blk, a), s.blk[a].size), s.w, s.blk, a)
  {
    hide LinksOnly, Laid, SetFoot, Ctl, FootAt, Range, Touched;
    FootFits(s, a);
    TouchedTag(m, SetFoot(m, EndOf(s.blk, a), s.blk[a].size), s.w, {}, {EndOf(s.blk, a)}, EndOf(s.blk, a)) by {
      PutFoot(m, EndOf(s.blk, a), s.blk[a].size);
    }
    PutFoot(m, EndOf(s.blk, a), s.blk[a].size);
    StampFrame(m, SetFoot(m, EndOf(s.blk, a), s.blk[a].size), s, a);
    LinksOnlyAbove(m, SetFoot(m, EndOf(s.blk, a), s.blk[a].size), s.w, s.blk, a,
                   EndOf(s.blk, a) - FOOT, EndOf(s.blk, a));
  }

  lemma StampSkips(m: Buffer, s: Heap, a: nat)
    requires Laid(s) && |m| == s.end && a in s.blk && s.blk[a].size < FootMin(s.w)
    ensures StampedBytes(m, m, s, a) && Stamped(s, a) == s && LinksOnly(m, m, s.w, s.blk, a)
      && Footed(m, m, s.w, s.blk, a)
  {
    hide Ctl, FootAt, Touched;
    QuietSelf(m, s);
    TouchedSelf(m, s.w, {}, {EndOf(s.blk, a)});
  }

  lemma StampedMirrors(m: Buffer, r: Buffer, s: Heap, a: nat)
    requires WF(s) && Mirrors(m, s) && FreeAt(s.blk, a) && StampedBytes(m, r, s, a)
    ensures Mirrors(r, Stamped(s, a))
  {
    hide Tiles, Tagged, Ctl, FootAt;
    SameControls(m, r, s);
    if FootMin(s.w) <= s.blk[a].size {
      StampFeet(m, r, s, a);
    }
  }

  lemma SizeReads(m: Buffer, s: Heap, a: nat)
    requires WF(s) && Mirrors(m, s) && a in s.blk
    ensures Get(m, a + 1, s.w) == s.blk[a].size && s.blk[a].size <= 0xFFFF_FFFF
    ensures BASE <= a && a + MinBlock(s.w) <= s.end
  {
    hide LinksOk, FeetOk, Listed, Tagged;
    FitsTiles(s.w, s.end, s.blk, a);
    assert BlockOk(m, s.w, a, s.blk[a]);
  }

  // ---- the tag as the code writes it -------------------------------------------

  /** What tagging the block at a makes of an arena of end bytes: nothing, unless it
      reads as a free block with room for a tag. */
  function StampOf(m: Buffer, w: nat, end: nat, a: nat): Buffer {
    var z := SizeRead(m, w, a);
    if a != 0 && a < end && TypeBits(Get(m, a, 1)) == 0 && FootMin(w) <= z && a + z <= end
    then SetFoot(m, a + z, z) else m
  }

  // The block at a reads as the free block it is in g.
  ghost predicate FreeReading(m: Buffer, g: Heap, a: nat) {
    && FreeAt(g.blk, a) && SizeRead(m, g.w, a) == g.blk[a].size && TypeBits(Get(m, a, 1)) == 0
    && 0 < a < g.end && EndOf(g.blk, a) <= g.end
  }

  lemma StampLaid(m: Buffer, g: Heap, a: nat)
    requires Laid(g) && |m| == g.end && FreeReading(m, g, a)
    ensures var r := StampOf(m, g.w, g.end, a);
      StampedBytes(m, r, g, a) && LinksOnly(m, r, g.w, g.blk, a) && Footed(m, r, g.w, g.blk, a)
  {
    hide Laid, SetFoot, StampedBytes, LinksOnly, Footed, SizeRead, TypeBits;
    if FootMin(g.w) <= g.blk[a].size {
      StampWrites(m, g, a);
    } else {
      StampSkips(m, g, a);
    }
  }

  lemma FreeReads(m: Buffer, s: Heap, a: nat)
    requires WF(s) && Mirrors(m, s) && FreeAt(s.blk, a)
    ensures FreeReading(m, s, a) && Laid(s) && |m| == s.end && BASE <= a
  {
    hide Tiles, LinksOk, FeetOk, Listed, Tagged, AddressBits, AllocBit, LinkedBit, TypeBits;
    KindReads(m, s, a);
    SizeReads(m, s, a);
    FitsTiles(s.w, s.end, s.blk, a);
  }

  /** After tagging, the arena mirrors the heap with that block tagged. */
  lemma StampSound(m: Buffer, s: Heap, a: nat)
    requires WF(s) && Mirrors(m, s) && FreeAt(s.blk, a)
    ensures var r := StampOf(m, s.w, s.end, a);
      && Mirrors(r, Stamped(s, a)) && Kept(m, r, s) && LinksOnly(m, r, s.w, s.blk, a)
      && Footed(m, r, s.w, s.blk, a) && Touched(m, r, s.w, {}, {EndOf(s.blk, a)})
  {
    hide WF, Mirrors, Laid, Kept, Stamped, StampOf, LinksOnly, Footed, FreeReading;
    FreeReads(m, s, a);
    StampLaid(m, s, a);
    StampedMirrors(m, StampOf(m, s.w, s.end, a), s, a);
    FootedTouches(m, StampOf(m, s.w, s.end, a), s.w, s.blk, a);
  }

  lemma FootedTouches(m: Buffer, r: Buffer, w: nat, blk: Blocks, a: nat)
    requires a in blk && Footed(m, r, w, blk, a)
    ensures Touched(m, r, w, {}, {EndOf(blk, a)})
  {
    if FootMin(w) <= blk[a].size {
      TouchedTag(m, r, w, {}, {EndOf(blk, a)}, EndOf(blk, a));
    }
  }

  lemma MirrorLength(m: Buffer, s: Heap)
    requires Mirrors(m, s)
    ensures |m| == s.end
  {
  }

  // ---- reading a block's flags -------------------------------------------------

  lemma KindReads(m: Buffer, s: Heap, a: nat)
    requires WF(s) && Mirrors(m, s) && a in s.blk
    ensures var d := Ctl(m, s.w, a).flags;
      && AddressBits(d) == AddressCode(s.w) && AllocBit(d)
      && (LinkedBit(d) <==> s.blk[a].kind.Free? || s.blk[a].kind.linked)
      && (TypeBits(d) == 0 <==> FreeAt(s.blk, a))
  {
    NoBlockAtZero(s);
    assert BlockOk(m, s.w, a, s.blk[a]);
    match s.blk[a].kind
    case Free => FlagsRead(AddressCode(s.w), 0, true, true);
    case Live(typ, linked) =>
      assert LiveAt(s.blk, a);
      FlagsRead(AddressCode(s.w), typ, true, linked);
  }

  // ---- the collation loop --------------------------------------------------------

  lemma CollateStart(m: Buffer, s: Heap, a: nat)
    requires WF(s) && Mirrors(m, s) && FreeAt(s.blk, a)
    ensures Kept(m, m, s) && Swallowed(s.blk, s.blk, a) && Buried(m, s, s)
  {
    QuietSelf(m, s);
  }

  // One turn of the loop: stop at the end, stop at a live block and tag, or merge.
  lemma CollateStep(s: Heap, a: nat)
    requires WF(s) && FreeAt(s.blk, a)
    ensures var n, t := EndOf(s.blk, a), Stamped(s, a);
      && (n == s.end ==> Collate(s, a) == s)
      && (n != s.end && !FreeAt(s.blk, n) ==> Collate(s, a) == t && WF(t) && KeysOf(t) == KeysOf(s))
    ensures FreeAt(s.blk, EndOf(s.blk, a)) ==> var t := Absorb(s, a);
      && WF(t) && FreeAt(t.blk, a) && |t.free| < |s.free|
      && Swallowed(s.blk, t.blk, a) && Covers(s.blk, t.blk) && Collate(t, a) == Collate(s, a)
  {
    if FreeAt(s.blk, EndOf(s.blk, a)) {
      AbsorbKeeps(s, a);
      AbsorbCovers(s, a);
      NothingAtEnd(s.w, s.end, s.blk);
    }
  }

  lemma BuriedStep(m: Buffer, r: Buffer, was: Heap, s: Heap, a: nat)
    requires WF(s) && Mirrors(m, s) && FreeAt(s.blk, a) && FreeAt(s.blk, EndOf(s.blk, a)) && was.w == s.w
    requires Swallowed(was.blk, s.blk, a) && Buried(m, was, s) && Kept(m, r, s)
    requires FOOT < s.blk[EndOf(s.blk, a)].size ==> Grave(r, s.w, Absorb(s, a).blk, EndOf(s.blk, a))
    ensures Buried(r, was, Absorb(s, a)) && Swallowed(was.blk, Absorb(s, a).blk, a) && Covers(was.blk, s.blk)
  {
    hide WF, Mirrors, Kept, Covers, Grave, Buried, Swallowed, Absorb;
    var t, n := Absorb(s, a), EndOf(s.blk, a);
    MirrorLength(m, s);
    AbsorbCovers(s, a);
    AbsorbKeeps(s, a);
    AbsorbLoses(s, a);
    SwallowedChain(was.blk, s.blk, t.blk, a);
    SwallowedCovers(was.blk, s.blk, a);
    BuriedNext(m, r, was, s, t, a, n);
  }

  lemma AbsorbLoses(s: Heap, a: nat)
    requires WF(s) && FreeAt(s.blk, a) && FreeAt(s.blk, EndOf(s.blk, a))
    ensures EndOf(s.blk, a) != a && Absorb(s, a).w == s.w
    ensures forall x :: x in s.blk && x != EndOf(s.blk, a) ==> x in Absorb(s, a).blk
  {
    assert Fits(s.w, s.end, s.blk, a);
  }

  lemma BuriedNext(m: Buffer, r: Buffer, was: Heap, s: Heap, t: Heap, a: nat, n: nat)
    requires WF(s) && |m| == s.end && was.w == s.w == t.w
    requires Swallowed(was.blk, s.blk, a) && Buried(m, was, s) && Kept(m, r, s) && Covers(s.blk, t.blk)
    requires forall x :: x in s.blk && x != n ==> x in t.blk
    requires n in s.blk && n != a && (FOOT < s.blk[n].size ==> Grave(r, s.w, t.blk, n))
    ensures Buried(r, was, t)
  {
    hide WF, Kept, Covers, Grave;
    forall x: nat | FreeAt(was.blk, x) && FOOT < was.blk[x].size && x !in t.blk
      ensures Grave(r, t.w, t.blk, x)
    {
      if x !in s.blk {
        GraveStays(m, r, s, t, x);
      }
    }
  }

  lemma StampEnds(m: Buffer, r: Buffer, u: Buffer, was: Heap, s: Heap, a: nat)
    requires WF(s) && Mirrors(r, s) && a in s.blk && was.w == s.w
    requires Kept(m, r, was) && Swallowed(was.blk, s.blk, a) && Buried(r, was, s) && Kept(r, u, s)
    ensures Kept(m, u, was) && Buried(u, was, Stamped(s, a))
  {
    hide WF, Kept, Covers, Grave;
    SwallowedCovers(was.blk, s.blk, a);
    KeptChain(m, r, u, was, s);
    CoversSelf(s.blk);
    forall x: nat | FreeAt(was.blk, x) && FOOT < was.blk[x].size && x !in s.blk
      ensures Grave(u, s.w, s.blk, x)
    {
      GraveStays(r, u, s, s, x);
    }
  }
}
