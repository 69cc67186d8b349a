/** The bytes of a split: the remainder becomes a block of its own in the place
    the whole block had on the list. */
module MirrorTake {
  import opened Bytes
  import opened HeapModel
  import opened Layout
  import opened Mirror
  import opened MirrorOps
  import opened Tally

  // The free block at a seen as two free blocks, of n bytes and of the rest.
  function Halved(s: Heap, a: nat, n: nat): Heap
    requires FreeAt(s.blk, a) && n <= s.blk[a].size
  {
    s.(blk := Carve(s.blk, a, n)[a := Block(n, Free)], tagged := s.tagged - {a})
  }

  // s has the j-th free block a, which splits at n into a and x, between p and q.
  ghost predicate SplitPoint(m: Buffer, s: Heap, j: nat, a: nat, n: nat) {
    && WF(s) && Mirrors(m, s) && j < |s.free| && a == s.free[j]
    && FreeAt(s.blk, a) && MinBlock(s.w) <= n <= s.blk[a].size && Splits(s.w, s.blk, a, n)
  }

  // The blocks of s, a among them, and the new one.
  lemma HalvedShape(s: Heap, a: nat, n: nat)
    requires Tiles(s.w, s.end, s.blk) && FreeAt(s.blk, a) && 0 < n < s.blk[a].size
    ensures var g := Halved(s, a, n).blk;
      && FreeAt(g, a) && FreeAt(g, a + n) && a + n !in s.blk && 0 < a
      && g[a].size == n && g[a + n].size == s.blk[a].size - n
      && (forall b :: b in g <==> b in s.blk || b == a + n)
      && (forall b :: b in s.blk && b != a ==> g[b] == s.blk[b])
  {
    CarveOrder(s.blk, a, n);
    assert Fits(s.w, s.end, s.blk, a);
  }

  lemma HalvedTagged(w: nat, m: Blocks, g: Blocks, tags: set<nat>, a: nat)
    requires Tagged(w, m, tags) && (forall b :: b in m && b != a ==> b in g && g[b] == m[b])
    ensures Tagged(w, g, tags - {a})
  {
  }

  lemma HalvedLaid(m: Buffer, s: Heap, j: nat, a: nat, n: nat)
    requires SplitPoint(m, s, j, a, n)
    ensures Laid(Halved(s, a, n)) && 0 < n < s.blk[a].size && 0 !in s.blk && a + n !in s.tagged
  {
    hide Mirrors, Listed;
    HalvedShape(s, a, n);
    CarveTiles(s.w, s.end, s.blk, a, n);
    RetypeTiles(s.w, s.end, Carve(s.blk, a, n), a, Free);
    HalvedTagged(s.w, s.blk, Halved(s, a, n).blk, s.tagged, a);
    NoBlockAtZero(s);
  }

  // What the control fields at b are after the split.
  function Resplit(c: Control, w: nat, q: seq<nat>, j: nat, n: nat, rest: nat, b: nat): Control
    requires j < |q|
  {
    var a, x := q[j], q[j] + n;
    if b == a then Control(KindFlags(w, PENDING), n, 0, 0)
    else if b == x then Control(KindFlags(w, Free), rest, Before(q, j), After(q, j))
    else if b == Before(q, j) then c.(next := x)
    else if b == After(q, j) then c.(prev := x)
    else c
  }

  ghost predicate Resplits(m: Buffer, r: Buffer, w: nat, g: Blocks, q: seq<nat>, j: nat, n: nat, rest: nat)
    requires j < |q|
  {
    forall b :: b in g ==> Ctl(r, w, b) == Resplit(Ctl(m, w, b), w, q, j, n, rest, b)
  }

  // What the split of the block at a leaves, and the tag behind the rest if there is room.
  ghost predicate SplitLeaves(m: Buffer, r: Buffer, w: nat, blk: Blocks, tagged: set<nat>, a: nat, n: nat)
    requires a in blk
  {
    && LiveSame(m, r, blk) && Touched(m, r, w, FreeStarts(blk) + {a + n}, {EndOf(blk, a)})
    && FeetSame(m, r, blk, tagged - {a})
    && (FootMin(w) <= blk[a].size - n ==> FootAt(r, EndOf(blk, a)) == blk[a].size - n)
  }

  ghost predicate SplitBytes(m: Buffer, r: Buffer, s: Heap, j: nat, a: nat, n: nat) {
    && SplitPoint(m, s, j, a, n) && |r| == |m| && n <= s.blk[a].size
    && Resplits(m, r, s.w, Halved(s, a, n).blk, s.free, j, n, s.blk[a].size - n)
    && SplitLeaves(m, r, s.w, s.blk, s.tagged, a, n)
  }

  lemma Places(q: seq<nat>, j: nat, i: nat)
    requires Distinct(q) && j < |q| && i < |q| && i != j && 0 !in q
    ensures q[i] != q[j] && (q[i] == Before(q, j) <==> i + 1 == j) && (q[i] == After(q, j) <==> i == j + 1)
  {
    assert q[i] in q;
  }

  lemma SplitLink(m: Buffer, r: Buffer, w: nat, q: seq<nat>, j: nat, n: nat, rest: nat, i: nat)
    requires Distinct(q) && j < |q| && i < |q| && LinkOk(m, w, q, i) && 0 !in q && 0 < n && q[j] + n !in q
    requires Ctl(r, w, q[j] + n) == Resplit(Ctl(m, w, q[j] + n), w, q, j, n, rest, q[j] + n)
    requires Ctl(r, w, q[i]) == Resplit(Ctl(m, w, q[i]), w, q, j, n, rest, q[i])
    ensures LinkOk(r, w, Replace(q, q[j], q[j] + n), i)
  {
    hide Ctl, Distinct, KindFlags;
    var x, t := q[j] + n, Replace(q, q[j], q[j] + n);
    assert q[i] in q;
    if i != j {
      Places(q, j, i);
    }
    if i > 0 && i - 1 != j {
      Places(q, j, i - 1);
    }
    if i + 1 < |q| && i + 1 != j {
      Places(q, j, i + 1);
    }
  }

  lemma SplitLinks(m: Buffer, r: Buffer, s: Heap, j: nat, a: nat, n: nat)
    requires SplitBytes(m, r, s, j, a, n)
    ensures LinksOk(r, s.w, Replace(s.free, a, a + n))
  {
    hide LiveSame, FeetSame, FootAt, BlocksOk, FeetOk, Tiles, Ctl, Resplit;
    var t := Replace(s.free, a, a + n);
    HalvedLaid(m, s, j, a, n);
    HalvedShape(s, a, n);
    forall i: nat {:trigger LinkOk(r, s.w, t, i)} | i < |t|
      ensures LinkOk(r, s.w, t, i)
    {
      assert s.free[i] in s.free && a in s.free && LinkOk(m, s.w, s.free, i);
      SplitLink(m, r, s.w, s.free, j, n, s.blk[a].size - n, i);
    }
  }

  lemma SplitBlocks(m: Buffer, r: Buffer, s: Heap, j: nat, a: nat, n: nat)
    requires SplitBytes(m, r, s, j, a, n)
    ensures BlocksOk(r, s.w, Take(s, a, n).blk)
  {
    hide LiveSame, FeetSame, FootAt, FeetOk, Tiles, Ctl, LinksOk, Listed;
    var t := Take(s, a, n);
    HalvedLaid(m, s, j, a, n);
    HalvedShape(s, a, n);
    forall b | b in t.blk
      ensures BlockOk(r, s.w, b, t.blk[b])
    {
      assert b in s.blk ==> BlockOk(m, s.w, b, s.blk[b]);
    }
  }

  lemma SplitFeet(m: Buffer, r: Buffer, s: Heap, j: nat, a: nat, n: nat)
    requires SplitBytes(m, r, s, j, a, n)
    ensures Typed(Take(s, a, n).blk, a) && FeetOk(r, Take(s, a, n).blk, Take(s, a, n).tagged)
  {
    hide LiveSame, FootAt, Tiles, LinksOk, Listed, Resplits, BlocksOk, Tagged;
    HalvedLaid(m, s, j, a, n);
    HalvedShape(s, a, n);
  }

  /** After the writes of a split the arena mirrors the heap with the front of the
      block handed over. */
  lemma SplitMirrors(m: Buffer, r: Buffer, s: Heap, j: nat, a: nat, n: nat)
    requires SplitBytes(m, r, s, j, a, n)
    ensures MirrorsBut(r, Take(s, a, n), a)
  {
    SplitLinks(m, r, s, j, a, n);
    SplitBlocks(m, r, s, j, a, n);
    SplitFeet(m, r, s, j, a, n);
  }

  // ---- the writes of a split, one after the other ----------------------------------

  // The list neighbours p and q of a new block x point at it.
  ghost predicate Relinked(m: Buffer, r: Buffer, g: Heap, x: nat, p: nat, q: nat) {
    && Quiet(m, r, g) && Touched(m, r, g.w, FreeStarts(g.blk), {})
    && forall b :: b in g.blk ==> var c := Ctl(m, g.w, b);
         Ctl(r, g.w, b) == if b == p then c.(next := x) else if b == q then c.(prev := x) else c
  }

  lemma LaidQuiet(m: Buffer, g: Heap)
    requires Laid(g) && |m| == g.end
    ensures Quiet(m, m, g)
  {
    QuietSelf(m, g);
  }

  lemma RelinkPrev(m: Buffer, r: Buffer, g: Heap, x: nat, p: nat)
    requires Step(m, r, g, p, Ctl(m, g.w, p).(next := x)) && 0 !in g.blk && FreeAt(g.blk, p)
    ensures Relinked(m, r, g, x, p, 0)
  {
    TouchedAt(m, r, g.w, FreeStarts(g.blk), {}, p);
  }

  lemma RelinkNext(m: Buffer, r: Buffer, t: Buffer, g: Heap, x: nat, p: nat, q: nat)
    requires Relinked(m, r, g, x, p, 0) && Step(r, t, g, q, Ctl(r, g.w, q).(prev := x))
    requires 0 !in g.blk && p != q && FreeAt(g.blk, q)
    ensures Relinked(m, t, g, x, p, q)
  {
    hide Ctl, Touched;
    TouchedAt(r, t, g.w, FreeStarts(g.blk), {}, q);
    TouchedChain(m, r, t, g.w, FreeStarts(g.blk), {});
    QuietChain(m, r, t, g);
  }

  // What the writes of a split rely on: g is laid out, holds a, x and the list
  // neighbours as free blocks, and the fields of a read as they should.
  lemma SplitFacts(m: Buffer, s: Heap, j: nat, a: nat, n: nat)
    requires SplitPoint(m, s, j, a, n)
    ensures FreeAt(s.blk, a) && n < s.blk[a].size < 0x1_0000_0000 && j < |s.free|
    ensures var g, p, q := Halved(s, a, n), Before(s.free, j), After(s.free, j);
      && Laid(g) && |m| == g.end && FreeAt(g.blk, a) && FreeAt(g.blk, a + n) && 0 !in g.blk
      && (p != 0 ==> FreeAt(g.blk, p)) && (q != 0 ==> FreeAt(g.blk, q)) && (p != 0 ==> p != q)
      && p <= g.end && q <= g.end && 0 < a && a + s.blk[a].size <= g.end
      && g.blk[a].size == n && g.blk[a + n].size == s.blk[a].size - n
    ensures Ctl(m, s.w, a) == Control(KindFlags(s.w, Free), s.blk[a].size, Before(s.free, j), After(s.free, j))
  {
    hide Tiles, Listed, Tagged, BlocksOk, LinksOk, FeetOk, Ctl;
    HalvedLaid(m, s, j, a, n);
    HalvedShape(s, a, n);
    Hooked(m, s, j);
    SplitRoom(s, a);
  }

  lemma SplitRoom(s: Heap, a: nat)
    requires WF(s) && a in s.blk
    ensures EndOf(s.blk, a) <= s.end
  {
    assert Fits(s.w, s.end, s.blk, a);
  }

  // The claims of the four stages of a split, over the halved heap g.
  ghost predicate SplitStages(m: Buffer, m1: Buffer, m2: Buffer, m3: Buffer, r: Buffer,
                              g: Heap, a: nat, x: nat, p: nat, q: nat)
    requires a in g.blk && x in g.blk
  {
    && Step(m, m1, g, x, Control(KindFlags(g.w, Free), g.blk[x].size, p, q))
    && Relinked(m1, m2, g, x, p, q)
    && StampedBytes(m2, m3, g, x)
    && Step(m3, r, Stamped(g, x), a, Control(KindFlags(g.w, PENDING), g.blk[a].size, 0, 0))
  }

  lemma StagesControls(m: Buffer, m1: Buffer, m2: Buffer, m3: Buffer, r: Buffer, g: Heap, q: seq<nat>, j: nat, n: nat)
    requires j < |q| && q[j] in g.blk && q[j] + n in g.blk && 0 !in g.blk
    requires SplitStages(m, m1, m2, m3, r, g, q[j], q[j] + n, Before(q, j), After(q, j))
    requires g.blk[q[j]].size == n && 0 < n && q[j] != Before(q, j) && q[j] != After(q, j)
    requires q[j] + n != Before(q, j) && q[j] + n != After(q, j)
    ensures Resplits(m, r, g.w, g.blk, q, j, n, g.blk[q[j] + n].size)
  {
    hide Ctl, Kept, FeetSame, FootAt, KindFlags;
  }

  lemma ReadsFree(m: Buffer, g: Heap, x: nat)
    requires Laid(g) && FreeAt(g.blk, x)
    requires Ctl(m, g.w, x).flags == KindFlags(g.w, Free) && Ctl(m, g.w, x).size == g.blk[x].size
    ensures FreeReading(m, g, x)
  {
    FlagsRead(AddressCode(g.w), 0, true, true);
    assert Fits(g.w, g.end, g.blk, x);
  }

  // Before the tag is written: the new block reads as it should, a as it did.
  lemma AfterRelink(m: Buffer, m1: Buffer, m2: Buffer, s: Heap, j: nat, a: nat, n: nat)
    requires SplitPoint(m, s, j, a, n) && FreeAt(Halved(s, a, n).blk, a) && FreeAt(Halved(s, a, n).blk, a + n)
    requires Step(m, m1, Halved(s, a, n), a + n,
                  Control(KindFlags(s.w, Free), s.blk[a].size - n, Before(s.free, j), After(s.free, j)))
    requires Relinked(m1, m2, Halved(s, a, n), a + n, Before(s.free, j), After(s.free, j))
    ensures Ctl(m2, s.w, a + n).flags == Ctl(m2, s.w, a).flags == KindFlags(s.w, Free)
    ensures Ctl(m2, s.w, a + n).size == s.blk[a].size - n && |m2| == |m|
  {
    hide Laid, Listed, Mirrors, KindFlags, Ctl, FeetSame, LiveSame, ShelterSame;
    HalvedLaid(m, s, j, a, n);
    LaidTiles(s);
    HalvedShape(s, a, n);
    Hooked(m, s, j);
  }

  lemma AfterStamp(m: Buffer, r: Buffer, g: Heap, x: nat, a: nat)
    requires Laid(g) && FreeAt(g.blk, x) && FreeAt(g.blk, a) && StampedBytes(m, r, g, x)
    ensures |r| == |m| && Ctl(r, g.w, a) == Ctl(m, g.w, a)
    ensures Laid(Stamped(g, x)) && Stamped(g, x).blk == g.blk && Stamped(g, x).w == g.w && Stamped(g, x).end == g.end
  {
    hide Tiles, Ctl, FootAt, LiveSame, ShelterSame;
  }

  lemma FeetChain(m: Buffer, r: Buffer, t: Buffer, blk: Blocks, tags: set<nat>)
    requires FeetSame(m, r, blk, tags) && FeetSame(r, t, blk, tags)
    ensures FeetSame(m, t, blk, tags)
  {
  }

  // Live bytes and tags through each stage.
  lemma StagesQuiet(m: Buffer, m1: Buffer, m2: Buffer, m3: Buffer, r: Buffer, g: Heap, a: nat, x: nat, p: nat, q: nat)
    requires a in g.blk && x in g.blk && SplitStages(m, m1, m2, m3, r, g, a, x, p, q)
    ensures Kept(m, m1, g) && Kept(m1, m2, g) && Kept(m2, m3, g) && Kept(m3, r, Stamped(g, x))
    ensures FeetSame(m, m1, g.blk, g.tagged) && FeetSame(m1, m2, g.blk, g.tagged)
    ensures FeetSame(m2, m3, g.blk, g.tagged - {x}) && FeetSame(m3, r, g.blk, Stamped(g, x).tagged)
    ensures FootMin(g.w) <= g.blk[x].size ==> FootAt(m3, EndOf(g.blk, x)) == g.blk[x].size
  {
    hide Ctl, FootAt, KindFlags, LiveSame, ShelterSame, OthersSame, Touched, SameOutside, FreeStarts, FeetSame;
  }

  lemma StagesFrame(m: Buffer, m1: Buffer, m2: Buffer, m3: Buffer, r: Buffer, g: Heap, a: nat, x: nat, p: nat, q: nat)
    requires a in g.blk && x in g.blk && x !in g.tagged && SplitStages(m, m1, m2, m3, r, g, a, x, p, q)
    ensures Kept(m, r, g) && FeetSame(m, r, g.blk, g.tagged)
    ensures FootMin(g.w) <= g.blk[x].size ==> FootAt(r, EndOf(g.blk, x)) == g.blk[x].size
  {
    hide FootAt, Kept, Covers, FeetSame, SplitStages;
    var h := Stamped(g, x);
    StagesQuiet(m, m1, m2, m3, r, g, a, x, p, q);
    CoversSelf(g.blk);
    assert Kept(m3, r, g) by { SameFrame(m3, r, h, g); }
    KeptChain(m, m1, m2, g, g);
    KeptChain(m, m2, m3, g, g);
    KeptChain(m, m3, r, g, g);
    assert g.tagged - {x} == g.tagged;
    FeetChain(m, m1, m2, g.blk, g.tagged);
    FeetChain(m, m2, m3, g.blk, g.tagged);
    assert FeetSame(m3, r, g.blk, g.tagged) by { FewerFeet(m3, r, g.blk, h.tagged, g.tagged); }
    FeetChain(m, m3, r, g.blk, g.tagged);
    if FootMin(g.w) <= g.blk[x].size {
      OneFoot(m3, r, g.blk, h.tagged, x);
    }
  }

  lemma OneFoot(m: Buffer, r: Buffer, blk: Blocks, tags: set<nat>, x: nat)
    requires FeetSame(m, r, blk, tags) && x in tags && x in blk
    ensures FootAt(m, EndOf(blk, x)) == FootAt(r, EndOf(blk, x))
  {
  }

  lemma StagesTouch(m: Buffer, m1: Buffer, m2: Buffer, m3: Buffer, r: Buffer, g: Heap, a: nat, x: nat, p: nat, q: nat)
    requires FreeAt(g.blk, a) && FreeAt(g.blk, x) && SplitStages(m, m1, m2, m3, r, g, a, x, p, q)
    ensures Touched(m, r, g.w, FreeStarts(g.blk), {EndOf(g.blk, x)})
  {
    hide Ctl, Kept, FeetSame, FootAt, KindFlags, Quiet, OthersSame, Touched;
    var c, e := FreeStarts(g.blk), {EndOf(g.blk, x)};
    TouchedAt(m, m1, g.w, c, e, x);
    TouchedMore(m1, m2, g.w, c, {}, c, e);
    TouchedMore(m2, m3, g.w, {}, e, c, e);
    TouchedAt(m3, r, g.w, c, e, a);
    TouchedChain(m, m1, m2, g.w, c, e);
    TouchedChain(m, m2, m3, g.w, c, e);
    TouchedChain(m, m3, r, g.w, c, e);
  }

  lemma HalvedStarts(s: Heap, a: nat, n: nat)
    requires Tiles(s.w, s.end, s.blk) && FreeAt(s.blk, a) && 0 < n < s.blk[a].size
    ensures var g := Halved(s, a, n).blk;
      a + n in g && FreeStarts(g) <= FreeStarts(s.blk) + {a + n} && EndOf(g, a + n) == EndOf(s.blk, a)
  {
    HalvedShape(s, a, n);
  }

  lemma SameFrame(m: Buffer, r: Buffer, s: Heap, t: Heap)
    requires Kept(m, r, s) && s.w == t.w && s.blk == t.blk
    ensures Kept(m, r, t)
  {
  }

  lemma FewerFeet(m: Buffer, r: Buffer, blk: Blocks, tags: set<nat>, fewer: set<nat>)
    requires FeetSame(m, r, blk, tags) && fewer <= tags
    ensures FeetSame(m, r, blk, fewer)
  {
  }

  lemma HalvedFrame(m: Buffer, r: Buffer, s: Heap, a: nat, n: nat)
    requires Laid(s) && FreeAt(s.blk, a) && 0 < n < s.blk[a].size
    requires LiveSame(m, r, Halved(s, a, n).blk) && FeetSame(m, r, Halved(s, a, n).blk, s.tagged - {a})
    ensures LiveSame(m, r, s.blk) && FeetSame(m, r, s.blk, s.tagged - {a})
  {
    hide FootAt, SameOn;
    HalvedShape(s, a, n);
    assert forall b :: LiveAt(s.blk, b) ==> LiveAt(Halved(s, a, n).blk, b);
  }

  /** The four stages of a split together. */
  lemma SplitDone(m: Buffer, m1: Buffer, m2: Buffer, m3: Buffer, r: Buffer, s: Heap, j: nat, a: nat, n: nat)
    requires SplitPoint(m, s, j, a, n) && FreeAt(Halved(s, a, n).blk, a) && FreeAt(Halved(s, a, n).blk, a + n)
    requires SplitStages(m, m1, m2, m3, r, Halved(s, a, n), a, a + n, Before(s.free, j), After(s.free, j))
    ensures SplitBytes(m, r, s, j, a, n)
  {
    hide Ctl, FootAt, KindFlags, Laid, Listed, Mirrors, LiveSame, FeetSame, ShelterSame, Resplits, SplitStages, Touched,
      FreeStarts;
    var g := Halved(s, a, n);
    StagesTouch(m, m1, m2, m3, r, g, a, a + n, Before(s.free, j), After(s.free, j));
    HalvedLaid(m, s, j, a, n);
    LaidTiles(s);
    HalvedShape(s, a, n);
    Hooked(m, s, j);
    HalvedStarts(s, a, n);
    TouchedMore(m, r, s.w, FreeStarts(g.blk), {EndOf(g.blk, a + n)}, FreeStarts(s.blk) + {a + n}, {EndOf(s.blk, a)});
    StagesControls(m, m1, m2, m3, r, g, s.free, j, n);
    StagesFrame(m, m1, m2, m3, r, g, a, a + n, Before(s.free, j), After(s.free, j));
    HalvedFrame(m, r, s, a, n);
  }

  lemma LaidTiles(s: Heap)
    requires Laid(s)
    ensures Tiles(s.w, s.end, s.blk)
  {
  }

  lemma SplitIndex(m: Buffer, s: Heap, a: nat, n: nat) returns (j: nat)
    requires WF(s) && Mirrors(m, s) && FreeAt(s.blk, a)
    requires MinBlock(s.w) <= n <= s.blk[a].size && Splits(s.w, s.blk, a, n)
    ensures SplitPoint(m, s, j, a, n)
  {
    hide Laid, Listed, Mirrors;
    j := FreeIndex(s, a);
  }

  lemma SplitLive(m: Buffer, r: Buffer, s: Heap, j: nat, a: nat, n: nat)
    requires SplitBytes(m, r, s, j, a, n)
    ensures LiveSame(m, r, s.blk)
  {
  }

  // What taking s's free block a for n bytes may touch: free blocks before and after.
  ghost predicate TakeTouches(m: Buffer, r: Buffer, s: Heap, t: Heap) {
    Touched(m, r, s.w, FreeStarts(s.blk) + FreeStarts(t.blk), FreeEnds(s.blk))
  }

  lemma SplitTouches(m: Buffer, r: Buffer, s: Heap, j: nat, a: nat, n: nat)
    requires SplitBytes(m, r, s, j, a, n)
    ensures TakeTouches(m, r, s, Take(s, a, n))
  {
    hide WF, Mirrors, Resplits, LiveSame, FeetSame, Touched, FootAt;
    var t := Take(s, a, n);
    assert FreeAt(t.blk, a + n) && a + n in FreeStarts(t.blk);
    assert EndOf(s.blk, a) in FreeEnds(s.blk);
    TouchedMore(m, r, s.w, FreeStarts(s.blk) + {a + n}, {EndOf(s.blk, a)}, FreeStarts(s.blk) + FreeStarts(t.blk),
                FreeEnds(s.blk));
  }

  lemma AdoptTouches(m: Buffer, k: Keys, r: Buffer, l: Keys, s: Heap, j: nat, a: nat, t: Heap)
    requires Delisted(m, k, r, l, s, j, a)
    ensures TakeTouches(m, r, s, t)
  {
    hide Quiet, Touched, KindFlags;
    TouchedMore(m, r, s.w, FreeStarts(s.blk), {}, FreeStarts(s.blk) + FreeStarts(t.blk), FreeEnds(s.blk));
  }

  lemma TakeTouchesOn(m: Buffer, r: Buffer, u: Buffer, s: Heap, t: Heap, a: nat)
    requires TakeTouches(m, r, s, t) && SameOutside(r, u, a, a + ControlSize(s.w)) && FreeAt(s.blk, a)
    ensures TakeTouches(m, u, s, t)
  {
    hide Touched;
    var c := FreeStarts(s.blk) + FreeStarts(t.blk);
    assert a in c;
    TouchedAt(r, u, s.w, c, FreeEnds(s.blk), a);
    TouchedChain(m, r, u, s.w, c, FreeEnds(s.blk));
  }

  lemma TakeTouchesSame(m: Buffer, r: Buffer, s: Heap, t: Heap, u: Heap)
    requires TakeTouches(m, r, s, t) && u.blk == t.blk
    ensures TakeTouches(m, r, s, u)
  {
  }

  // ---- handing over the whole block ------------------------------------------------

  lemma AdoptBlocks(m: Buffer, k: Keys, r: Buffer, l: Keys, s: Heap, j: nat, a: nat)
    requires WF(s) && Mirrors(m, s) && Delisted(m, k, r, l, s, j, a) && FreeAt(s.blk, a)
    ensures BlocksOk(r, s.w, Adopt(s.blk, a)) && FeetOk(r, Adopt(s.blk, a), s.tagged - {a})
  {
    hide Kept, LinksOk, Tiles, Listed, Ctl, Tagged, FootAt;
    var t := Adopt(s.blk, a);
    forall b | b in t
      ensures BlockOk(r, s.w, b, t[b])
    {
      assert BlockOk(m, s.w, b, s.blk[b]);
    }
  }

  lemma AdoptLinks(m: Buffer, k: Keys, r: Buffer, l: Keys, s: Heap, j: nat, a: nat)
    requires WF(s) && Mirrors(m, s) && Delisted(m, k, r, l, s, j, a)
    ensures LinksOk(r, s.w, Remove(s.free, a))
  {
    hide Kept, BlocksOk, Tiles, Ctl, Tagged, FeetOk, FeetSame;
    NoBlockAtZero(s);
    assert JoinedBytes(m, r, s, j, 0, 0);
    JoinedRehooks(m, r, s, j, 0, 0);
    LinksRemoved(m, r, s.w, s.free, j);
  }

  /** A block taken off the list whole is already in the state of one handed over. */
  lemma AdoptMirrors(m: Buffer, k: Keys, r: Buffer, l: Keys, s: Heap, j: nat, a: nat, n: nat)
    requires WF(s) && Mirrors(m, s) && Delisted(m, k, r, l, s, j, a)
    requires FreeAt(s.blk, a) && n <= s.blk[a].size && !Splits(s.w, s.blk, a, n)
    ensures MirrorsBut(r, Take(s, a, n), a) && LiveSame(m, r, s.blk)
  {
    hide BlocksOk, LinksOk, FeetOk, FeetSame, Tiles, Listed, Tagged, Ctl, SameOn, ShelterSame, Remove;
    AdoptBlocks(m, k, r, l, s, j, a);
    AdoptLinks(m, k, r, l, s, j, a);
    NoBlockAtZero(s);
  }

  // ---- the key block after an allocation -------------------------------------------

  lemma TakeParts(s: Heap, a: nat, n: nat)
    requires WF(s) && FreeAt(s.blk, a) && MinBlock(s.w) <= n <= s.blk[a].size
    ensures var t := Take(s, a, n);
      && WF(t) && t.w == s.w && t.max == s.max && t.end == s.end
      && a in t.blk && t.blk[a] == Block(if Splits(s.w, s.blk, a, n) then n else s.blk[a].size, PENDING)
  {
    hide WF;
    TakeKeeps(s, a, n);
  }

  lemma AdoptKeys(m: Buffer, k: Keys, r: Buffer, l: Keys, s: Heap, j: nat, a: nat, n: nat)
    requires WF(s) && Mirrors(m, s) && k == KeysOf(s) && Delisted(m, k, r, l, s, j, a)
    requires FreeAt(s.blk, a) && MinBlock(s.w) <= n <= s.blk[a].size && !Splits(s.w, s.blk, a, n)
    ensures l.(allocSize := l.allocSize + s.blk[a].size, allocEntries := l.allocEntries + 1) == KeysOf(Take(s, a, n))
  {
    hide Laid, Listed, Mirrors, Sum, First, Last, Remove, RootAfter, Forget, Isolated;
    Hooked(m, s, j);
    DelistedKeys(s, j, a, Before(s.free, j), After(s.free, j));
    SumTake(s, a, n);
  }

  // The key block once the free block a was split and x is in its place.
  function CarveKeys(k: Keys, a: nat, x: nat, n: nat): Keys
    requires n <= k.freeSize
  {
    k.(allocSize := k.allocSize + n, allocEntries := k.allocEntries + 1, freeSize := k.freeSize - n,
       firstFree := if k.firstFree == a then x else k.firstFree, lastFree := if k.lastFree == a then x else k.lastFree)
  }

  lemma CarvedKeys(s: Heap, a: nat, n: nat)
    requires WF(s) && FreeAt(s.blk, a) && MinBlock(s.w) <= n <= s.blk[a].size && Splits(s.w, s.blk, a, n)
    ensures n <= KeysOf(s).freeSize && CarveKeys(KeysOf(s), a, a + n, n) == KeysOf(Take(s, a, n))
  {
    hide Laid, Sum;
    assert a in s.free;
    SumCovers(s, a);
    SumTake(s, a, n);
  }
}
