/** The bytes of growth: the arena gains a free block at its end, at the tail of
    the list. */
module MirrorGrow {
  import opened Bytes
  import opened HeapModel
  import opened Layout
  import opened Mirror
  import opened MirrorOps
  import opened MirrorTake
  import opened Tally

  // The grown heap before the new block is tagged.
  function Untagged(s: Heap, extra: nat): Heap {
    Grow(s, extra).(tagged := s.tagged)
  }

  // s, mirrored by m, may grow by extra.
  ghost predicate GrowPoint(m: Buffer, s: Heap, extra: nat) {
    WF(s) && Mirrors(m, s) && MinBlock(s.w) <= extra && s.end + extra <= s.max
  }

  lemma GrowFacts(m: Buffer, s: Heap, extra: nat)
    requires GrowPoint(m, s, extra)
    ensures var g := Untagged(s, extra);
      && Laid(g) && |m| == s.end && FreeAt(g.blk, s.end) && g.blk[s.end].size == extra && 0 !in g.blk && s.end !in s.blk
      && Last(s.free) <= g.end && (Last(s.free) != 0 ==> FreeAt(s.blk, Last(s.free)))
    ensures s.end !in s.tagged && 0 < s.end && s.end !in s.free
  {
    hide Mirrors, Tiles;
    GrowTiles(s.w, s.end, s.blk, extra);
    NoBlockAtZero(s);
    SomeRoom(s);
    MirrorLength(m, s);
    if s.free != [] {
      assert Last(s.free) in s.free;
      SplitRoom(s, Last(s.free));
    }
  }

  lemma SomeRoom(s: Heap)
    requires WF(s)
    ensures 0 < s.end
  {
    assert Fits(s.w, s.end, s.blk, BASE);
  }

  // The longer arena starts with the bytes of the shorter.
  lemma Extended(m: Buffer, z: Buffer, s: Heap)
    requires Tiles(s.w, s.end, s.blk) && Tagged(s.w, s.blk, s.tagged) && |m| == s.end
    ensures forall b :: b in s.blk ==> Ctl(m + z, s.w, b) == Ctl(m, s.w, b)
    ensures FeetSame(m, m + z, s.blk, s.tagged) && LiveSame(m, m + z, s.blk)
  {
    forall b | b in s.blk
      ensures Ctl(m + z, s.w, b) == Ctl(m, s.w, b)
    {
      assert Fits(s.w, s.end, s.blk, b);
      CtlSame(m, m + z, s.w, b);
    }
    forall b | b in s.tagged
      ensures FootAt(m, EndOf(s.blk, b)) == FootAt(m + z, EndOf(s.blk, b))
    {
      assert Fits(s.w, s.end, s.blk, b);
      FootSame(m, m + z, EndOf(s.blk, b));
    }
    assert forall b :: b in s.blk ==> Fits(s.w, s.end, s.blk, b);
  }

  // The stages after the arena got longer: the new block, its place on the list,
  // its tag.
  ghost predicate GrowStages(m: Buffer, m1: Buffer, m2: Buffer, r: Buffer, g: Heap, x: nat, p: nat)
    requires x in g.blk
  {
    && Step(m, m1, g, x, Control(KindFlags(g.w, Free), g.blk[x].size, p, 0))
    && Relinked(m1, m2, g, x, p, 0)
    && StampedBytes(m2, r, g, x)
  }

  // Live bytes and tags through each stage.
  lemma StagesQuiet(m: Buffer, m1: Buffer, m2: Buffer, r: Buffer, g: Heap, x: nat, p: nat)
    requires x in g.blk && GrowStages(m, m1, m2, r, g, x, p)
    ensures Kept(m, m1, g) && Kept(m1, m2, g) && Kept(m2, r, g)
    ensures FeetSame(m, m1, g.blk, g.tagged) && FeetSame(m1, m2, g.blk, g.tagged)
    ensures FeetSame(m2, r, g.blk, g.tagged - {x})
    ensures FootMin(g.w) <= g.blk[x].size ==> FootAt(r, EndOf(g.blk, x)) == g.blk[x].size
  {
    hide Ctl, FootAt, KindFlags, LiveSame, ShelterSame, OthersSame, Touched, SameOutside, FreeStarts, FeetSame;
  }

  lemma StagesFrame(m: Buffer, m1: Buffer, m2: Buffer, r: Buffer, g: Heap, x: nat, p: nat)
    requires x in g.blk && x !in g.tagged && GrowStages(m, m1, m2, r, g, x, p)
    ensures Kept(m, r, g) && FeetSame(m, r, g.blk, g.tagged)
    ensures FootMin(g.w) <= g.blk[x].size ==> FootAt(r, EndOf(g.blk, x)) == g.blk[x].size
  {
    hide FootAt, Kept, Covers, FeetSame, GrowStages;
    StagesQuiet(m, m1, m2, r, g, x, p);
    CoversSelf(g.blk);
    KeptChain(m, m1, m2, g, g);
    KeptChain(m, m2, r, g, g);
    assert g.tagged - {x} == g.tagged;
    FeetChain(m, m1, m2, g.blk, g.tagged);
    FeetChain(m, m2, r, g.blk, g.tagged);
  }

  lemma StagesTouch(m: Buffer, m1: Buffer, m2: Buffer, r: Buffer, g: Heap, x: nat, p: nat)
    requires FreeAt(g.blk, x) && GrowStages(m, m1, m2, r, g, x, p)
    ensures Touched(m, r, g.w, FreeStarts(g.blk), {EndOf(g.blk, x)})
  {
    hide Ctl, Kept, FeetSame, FootAt, KindFlags, Quiet, OthersSame, Touched;
    var c, e := FreeStarts(g.blk), {EndOf(g.blk, x)};
    TouchedAt(m, m1, g.w, c, e, x);
    TouchedMore(m1, m2, g.w, c, {}, c, e);
    TouchedMore(m2, r, g.w, {}, e, c, e);
    TouchedChain(m, m1, m2, g.w, c, e);
    TouchedChain(m, m2, r, g.w, c, e);
  }

  // What was touched of the longer arena, seen from the shorter.
  lemma TouchedShort(m: Buffer, z: Buffer, r: Buffer, w: nat, c: set<nat>, e: set<nat>, d: set<nat>)
    requires Touched(m + z, r, w, c, e) && |r| == |m| + |z| && z != []
    requires (forall x :: x in c ==> x in d || |m| <= x) && (forall x :: x in e ==> |m| < x)
    ensures Touched(m, r, w, d, {})
  {
    forall i: nat {:trigger r[i]} | i < |m| && m[i] != r[i]
      ensures InControls(w, d, i) || InTags({}, i) || (|m| < |r| && |m| <= i + FOOT)
    {
      assert (m + z)[i] == m[i];
      if x :| x in c && x <= i < x + ControlSize(w) {
        assert x in d;
      }
    }
  }

  // What the control fields are after growth.
  ghost predicate Appended(m: Buffer, r: Buffer, w: nat, g: Blocks, x: nat, p: nat)
    requires x in g
  {
    && Ctl(r, w, x) == Control(KindFlags(w, Free), g[x].size, p, 0)
    && (forall b :: b in g && b != x && b == p ==> Ctl(r, w, b) == Ctl(m, w, b).(next := x))
    && (forall b :: b in g && b != x && b != p ==> Ctl(r, w, b) == Ctl(m, w, b))
  }

  lemma StagesAppend(m: Buffer, m1: Buffer, m2: Buffer, r: Buffer, g: Heap, x: nat, p: nat)
    requires x in g.blk && 0 !in g.blk && x != p && GrowStages(m, m1, m2, r, g, x, p)
    ensures Appended(m, r, g.w, g.blk, x, p)
  {
    hide Ctl, Kept, FeetSame, FootAt, KindFlags;
  }

  lemma AppendLinks(m: Buffer, r: Buffer, w: nat, g: Blocks, q: seq<nat>, x: nat)
    requires x in g && LinksOk(m, w, q) && Distinct(q) && x !in q && 0 !in q && (forall b :: b in q ==> b in g)
    requires Appended(m, r, w, g, x, Last(q))
    ensures LinksOk(r, w, q + [x])
  {
    hide Ctl, KindFlags;
    var t := q + [x];
    forall i: nat {:trigger LinkOk(r, w, t, i)} | i < |t|
      ensures LinkOk(r, w, t, i)
    {
      if i < |q| {
        assert q[i] in q && LinkOk(m, w, q, i);
        assert q[i] == Last(q) <==> i + 1 == |q|;
      }
    }
  }

  lemma AppendBlocks(m: Buffer, r: Buffer, w: nat, blk: Blocks, g: Blocks, x: nat, p: nat)
    requires BlocksOk(m, w, blk) && x in g && g[x].kind.Free? && Appended(m, r, w, g, x, p)
    requires forall b :: b in g && b != x ==> b in blk && g[b] == blk[b]
    ensures BlocksOk(r, w, g)
  {
    hide Ctl;
    forall b | b in g
      ensures BlockOk(r, w, b, g[b])
    {
      assert b != x ==> BlockOk(m, w, b, blk[b]);
    }
  }

  lemma ExtendedMirrors(m: Buffer, z: Buffer, s: Heap)
    requires WF(s) && Mirrors(m, s)
    ensures BlocksOk(m + z, s.w, s.blk) && LinksOk(m + z, s.w, s.free) && FeetOk(m + z, s.blk, s.tagged)
    ensures LiveSame(m, m + z, s.blk)
  {
    hide Ctl, FootAt, SameOn, Tiles, Tagged, Listed;
    Extended(m, z, s);
    SameControls(m, m + z, s);
  }

  lemma GrowFeet(m: Buffer, r: Buffer, s: Heap, extra: nat)
    requires s.end !in s.blk && FeetOk(m, s.blk, s.tagged)
    requires FeetSame(m, r, Untagged(s, extra).blk, s.tagged)
    requires FootMin(s.w) <= extra ==> FootAt(r, s.end + extra) == extra
    ensures FeetOk(r, Grow(s, extra).blk, Grow(s, extra).tagged)
  {
    hide FootAt;
  }

  lemma GrowLive(m: Buffer, n: Buffer, r: Buffer, s: Heap, extra: nat)
    requires LiveSame(m, n, s.blk) && LiveSame(n, r, Untagged(s, extra).blk) && s.end !in s.blk
    ensures LiveSame(m, r, s.blk)
  {
    forall b | LiveAt(s.blk, b)
      ensures SameOn(m, r, b, EndOf(s.blk, b))
    {
      assert LiveAt(Untagged(s, extra).blk, b);
      assert SameOn(m, n, b, EndOf(s.blk, b)) && SameOn(n, r, b, EndOf(s.blk, b));
    }
  }

  /** The stages of growth together: the arena mirrors the grown heap and no live
      byte changed. */
  lemma GrowMirrors(m: Buffer, z: Buffer, m1: Buffer, m2: Buffer, r: Buffer, s: Heap, extra: nat)
    requires GrowPoint(m, s, extra) && |z| == extra && s.end in Untagged(s, extra).blk
    requires GrowStages(m + z, m1, m2, r, Untagged(s, extra), s.end, Last(s.free))
    ensures Mirrors(r, Grow(s, extra)) && LiveSame(m, r, s.blk) && Touched(m, r, s.w, FreeStarts(s.blk), {})
    ensures |r| == s.end + extra
  {
    hide Ctl, FootAt, KindFlags, SameOn, ShelterSame, GrowStages, Tiles, Tagged,
      BlocksOk, LinksOk, FeetOk, FeetSame, LiveSame, Appended, Touched;
    var g, n := Untagged(s, extra), m + z;
    GrowFacts(m, s, extra);
    ExtendedMirrors(m, z, s);
    StagesFrame(n, m1, m2, r, g, s.end, Last(s.free));
    StagesAppend(n, m1, m2, r, g, s.end, Last(s.free));
    AppendLinks(n, r, s.w, g.blk, s.free, s.end);
    AppendBlocks(n, r, s.w, s.blk, g.blk, s.end, Last(s.free));
    GrowFeet(n, r, s, extra);
    GrowLive(m, n, r, s, extra);
    StagesTouch(n, m1, m2, r, g, s.end, Last(s.free));
    TouchedShort(m, z, r, s.w, FreeStarts(g.blk), {EndOf(g.blk, s.end)}, FreeStarts(s.blk));
  }

  // Before the tag is written the new block reads as it should.
  lemma AfterAppend(m: Buffer, m1: Buffer, m2: Buffer, g: Heap, x: nat, p: nat)
    requires x in g.blk && 0 !in g.blk && x != p
    requires Step(m, m1, g, x, Control(KindFlags(g.w, Free), g.blk[x].size, p, 0)) && Relinked(m1, m2, g, x, p, 0)
    ensures Ctl(m2, g.w, x).flags == KindFlags(g.w, Free) && Ctl(m2, g.w, x).size == g.blk[x].size && |m2| == |m|
  {
    hide Ctl, KindFlags, FeetSame, LiveSame, ShelterSame;
  }

  lemma GrowStart(m: Buffer, s: Heap)
    requires WF(s) && Mirrors(m, s)
    ensures LiveSame(m, m, s.blk) && s.end <= s.max && |m| == s.end && KeysOf(s).lastFree == Last(s.free)
  {
    QuietSelf(m, s);
  }

  /** Growth leaves the key block of the grown heap. */
  lemma GrowthKeys(m: Buffer, s: Heap, extra: nat)
    requires WF(s) && Mirrors(m, s) && MinBlock(s.w) <= extra && s.end + extra <= s.max
    ensures GrowPoint(m, s, extra) && WF(Grow(s, extra))
    ensures var k, g := KeysOf(s), Grow(s, extra);
      && g.w == s.w && g.max == s.max && g.end == s.end + extra
      && k.(freeSize := k.freeSize + extra, freeEntries := k.freeEntries + 1, lastFree := s.end,
            firstFree := if k.firstFree == 0 then s.end else k.firstFree) == KeysOf(g)
  {
    hide Laid, Mirrors, Sum;
    GrowKeeps(s, extra);
    SumGrow(s, extra);
    NoBlockAtZero(s);
    assert First(s.free) == 0 <==> s.free == [] by { assert s.free != [] ==> s.free[0] in s.free; }
  }

  lemma GrowRoams(m: Buffer, r: Buffer, s: Heap, extra: nat)
    requires WF(s) && |m| == s.end && |r| == s.end + extra && 0 < extra
    requires Touched(m, r, s.w, FreeStarts(s.blk), {})
    ensures Roams(m, r, s, Grow(s, extra))
  {
    hide Touched, Listed, Tagged;
    var g := Grow(s, extra).blk;
    NothingAtEnd(s.w, s.end, s.blk);
    TouchedMore(m, r, s.w, FreeStarts(s.blk), {}, FreeStarts(s.blk), FreeEnds(s.blk));
    forall e | e in FreeEnds(g)
      ensures e in FreeEnds(s.blk) || s.end < e
    {
      var x :| x in g && FreeAt(g, x) && e == EndOf(g, x);
      if x != s.end {
        assert x in s.blk && FreeAt(s.blk, x) && EndOf(s.blk, x) == e;
      }
    }
  }
}
