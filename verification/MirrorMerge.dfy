/** One merge on bytes, and the pass over a run of free blocks it is a turn of. */
module MirrorMerge {
  import opened Bytes
  import opened HeapModel
  import opened Layout
  import opened Mirror
  import opened MirrorOps

  // The size of n is added to that of a and n stops looking like a block.
  function MergeOf(m: Buffer, w: nat, a: nat, n: nat): Buffer {
    SetFlags(SetSize(m, w, a, Get(m, a + 1, w) + Get(m, n + 1, w)), n, 0)
  }

  // A merge and the tag it leaves.
  function AbsorbOf(m: Buffer, w: nat, end: nat, a: nat, n: nat): Buffer {
    StampOf(MergeOf(m, w, a, n), w, end, a)
  }

  // The header at a reads the same.
  predicate SameHeader(m: Buffer, r: Buffer, w: nat, a: nat) {
    Get(m, a, 1) == Get(r, a, 1) && Get(m, a + 1, w) == Get(r, a + 1, w)
  }

  // s, mirrored by m, has the j-th free block n behind the free block a, and n
  // was taken off the list.
  ghost predicate MergeReady(m: Buffer, k: Keys, iso: Buffer, l: Keys, s: Heap, j: nat, a: nat, n: nat) {
    && MergePoint(m, s, j, a, n) && k == KeysOf(s)
    && Delisted(m, k, iso, l, s, j, n) && LinksOnly(m, iso, s.w, s.blk, n)
  }

  lemma MergeHeader(m: Buffer, k: Keys, iso: Buffer, l: Keys, s: Heap, j: nat, a: nat, n: nat)
    requires MergeReady(m, k, iso, l, s, j, a, n)
    ensures SameHeader(m, iso, s.w, a) && Get(iso, n + 1, s.w) == s.blk[n].size == SizeRead(iso, s.w, n)
  {
    hide WF, Mirrors, LinksOnly, Quiet, Touched, Delist, KeysOf, Ctl;
    MergeSizes(m, iso, s, j, a, n);
    SmallEnd(m, s, j, a, n);
    HeaderSame(m, iso, s.w, a);
    HeaderSame(iso, iso, s.w, n);
  }

  lemma SmallEnd(m: Buffer, s: Heap, j: nat, a: nat, n: nat)
    requires MergePoint(m, s, j, a, n)
    ensures s.end <= 0xFFFF_FFFF
  {
  }

  lemma HeaderSame(m: Buffer, r: Buffer, w: nat, a: nat)
    requires Ctl(r, w, a).flags == Ctl(m, w, a).flags && Ctl(r, w, a).size == Ctl(m, w, a).size
    ensures SameHeader(m, r, w, a) && Get(r, a + 1, w) == Ctl(r, w, a).size
  {
  }

  // The two writes of a merge.
  lemma MergeWrites(m: Buffer, s: Heap, a: nat, n: nat)
    requires Laid(s) && |m| == s.end && FreeAt(s.blk, a) && FreeAt(s.blk, n) && a < n
    requires Get(m, a + 1, s.w) + Get(m, n + 1, s.w) <= s.end
    ensures var t := SetSize(m, s.w, a, Get(m, a + 1, s.w) + Get(m, n + 1, s.w)); var u := MergeOf(m, s.w, a, n);
      && Step(m, t, s, a, Ctl(m, s.w, a).(size := Ctl(m, s.w, a).size + Ctl(m, s.w, n).size))
      && Step(t, u, s, n, Ctl(t, s.w, n).(flags := 0))
      && LinksOnly(m, u, s.w, s.blk, a) && Touched(m, u, s.w, FreeStarts(s.blk), {})
  {
    hide Laid, Step, Rewrites, LinksOnly, Touched, SetSize, SetFlags, FreeStarts;
    var v := Get(m, a + 1, s.w) + Get(m, n + 1, s.w);
    var t, u := SetSize(m, s.w, a, v), MergeOf(m, s.w, a, n);
    FitsField(s, a);
    FitsField(s, v);
    FitsField(s, n);
    PutSize(m, s.w, a, v);
    RewritesOutside(m, t, s.w, a, Ctl(m, s.w, a).(size := v));
    ControlStep(m, t, s, a, Ctl(m, s.w, a).(size := v));
    PutFlags(t, s.w, n, 0);
    RewritesOutside(t, u, s.w, n, Ctl(t, s.w, n).(flags := 0));
    ControlStep(t, u, s, n, Ctl(t, s.w, n).(flags := 0));
    LinksAbove(m, t, u, s.w, s.blk, a, n);
    StartsIn(s.blk, a);
    StartsIn(s.blk, n);
    TouchedTwice(m, t, u, s.w, FreeStarts(s.blk), {}, a, n);
  }

  lemma StartsIn(m: Blocks, a: nat)
    requires FreeAt(m, a)
    ensures a in FreeStarts(m)
  {
  }

  lemma RewritesOutside(m: Buffer, r: Buffer, w: nat, a: nat, c: Control)
    requires Rewrites(m, r, w, a, c)
    ensures SameOutside(m, r, a, a + ControlSize(w)) && |r| == |m|
  {
  }

  /** The merge before its tag is written. */
  lemma MergeSound(m: Buffer, k: Keys, iso: Buffer, l: Keys, s: Heap, j: nat, a: nat, n: nat)
    requires MergeReady(m, k, iso, l, s, j, a, n)
    ensures var u, t := MergeOf(iso, s.w, a, n), Unstamped(s, a);
      && WF(t) && Mirrors(u, t) && Kept(m, u, s) && LinksOnly(m, u, s.w, s.blk, a)
      && Touched(m, u, s.w, FreeStarts(s.blk), {})
      && l.(freeSize := l.freeSize + SizeRead(iso, s.w, n)) == KeysOf(t)
      && (FOOT < s.blk[n].size ==> Grave(u, s.w, t.blk, n))
  {
    hide WF, Mirrors, Laid, Isolated, Merged, Unstamped, Kept, LinksOnly, Touched, MergeOf, KeysOf, Step, Delist,
      Grave, FreeStarts;
    var u := MergeOf(iso, s.w, a, n);
    MergeHeader(m, k, iso, l, s, j, a, n);
    MergePlace(m, iso, s, j, a, n);
    MergeSizes(m, iso, s, j, a, n);
    BlockIsLong(s, a);
    MergeWrites(iso, s, a, n);
    MergeSteps(m, iso, SetSize(iso, s.w, a, Get(iso, a + 1, s.w) + Get(iso, n + 1, s.w)), u, s, j, a, n);
    LinksOnlyChain(m, iso, u, s.w, s.blk, s.blk, a, n) by { LinksSelf(m, s.w, s.blk, a); }
    IsolatedTouches(m, iso, s, j);
    TouchedChain(m, iso, u, s.w, FreeStarts(s.blk), {});
    MergedMirrors(m, u, s, j, a, n);
    MergedKeys(m, iso, l, s, j, a, n);
    if FOOT < s.blk[n].size {
      MergedGrave(m, u, s, j, a, n);
    }
  }

  lemma IsolatedTouches(m: Buffer, r: Buffer, s: Heap, j: nat)
    requires j < |s.free| && Isolated(m, r, s, j)
    ensures Touched(m, r, s.w, FreeStarts(s.blk), {})
  {
  }

  // What one merge of a collation leaves.
  ghost predicate AbsorbLeaves(m: Buffer, r: Buffer, l: Keys, s: Heap, a: nat)
    requires FreeAt(s.blk, a) && FreeAt(s.blk, EndOf(s.blk, a))
  {
    var n, t := EndOf(s.blk, a), Absorb(s, a);
    && WF(t) && Mirrors(r, t) && l == KeysOf(t) && Kept(m, r, s) && LinksOnly(m, r, s.w, s.blk, a)
    && Touched(m, r, s.w, FreeStarts(s.blk), {EndOf(s.blk, n)})
    && (FOOT < s.blk[n].size ==> Grave(r, s.w, t.blk, n))
  }

  /** A merge and its tag: the bytes and the key block become those of the merged
      heap. */
  lemma AbsorbSound(m: Buffer, k: Keys, iso: Buffer, l: Keys, s: Heap, j: nat, a: nat, n: nat)
    requires MergeReady(m, k, iso, l, s, j, a, n)
    ensures AbsorbLeaves(m, AbsorbOf(iso, s.w, s.end, a, n), l.(freeSize := l.freeSize + SizeRead(iso, s.w, n)), s, a)
  {
    hide WF, Mirrors, Laid, Isolated, Delisted, Unstamped, Stamped, Kept, LinksOnly, Touched, MergeOf, KeysOf, Covers,
      FreeBelow, Absorb, StampOf, Grave, Footed, FreeStarts;
    MergePlaceOf(m, k, iso, l, s, j, a, n);
    var u, v := MergeOf(iso, s.w, a, n), Unstamped(s, a);
    MergeSound(m, k, iso, l, s, j, a, n);
    AbsorbParts(s, a);
    UnstampedEnd(s, a);
    StampSound(u, v, a);
    var r := StampOf(u, s.w, s.end, a);
    KeptChain(m, u, r, s, v);
    LinksOnlyChain(m, u, r, s.w, s.blk, v.blk, a, a);
    TouchedMore(m, u, s.w, FreeStarts(s.blk), {}, FreeStarts(s.blk), {EndOf(s.blk, n)});
    TouchedMore(u, r, s.w, {}, {EndOf(v.blk, a)}, FreeStarts(s.blk), {EndOf(s.blk, n)});
    TouchedChain(m, u, r, s.w, FreeStarts(s.blk), {EndOf(s.blk, n)});
    if FOOT < s.blk[n].size {
      MirrorLength(u, v);
      CoversSelf(v.blk);
      GraveStays(u, r, v, Absorb(s, a), n);
    }
  }

  lemma MergePlaceOf(m: Buffer, k: Keys, iso: Buffer, l: Keys, s: Heap, j: nat, a: nat, n: nat)
    requires MergeReady(m, k, iso, l, s, j, a, n)
    ensures WF(s) && FreeAt(s.blk, a) && n == EndOf(s.blk, a) && FreeAt(s.blk, n)
  {
  }

  lemma UnstampedEnd(s: Heap, a: nat)
    requires FreeAt(s.blk, a) && FreeAt(s.blk, EndOf(s.blk, a))
    ensures var u, t := Unstamped(s, a), Absorb(s, a);
      && FreeAt(u.blk, a) && EndOf(u.blk, a) == EndOf(s.blk, EndOf(s.blk, a)) && u.w == s.w && u.end == s.end
      && t.blk == u.blk && t.w == s.w
  {
  }

  // ---- a collation in progress -----------------------------------------------------------

  // Where the blocks of m that n lost ended.
  ghost function GoneEnds(m: Blocks, n: Blocks): set<nat> {
    set x | x in m && FreeAt(m, x) && x !in n :: EndOf(m, x)
  }

  // Where collating the block at a writes tags: at the ends of what it swallowed,
  // or at its own if it swallowed nothing.
  ghost function CollateEnds(m: Blocks, n: Blocks, a: nat): set<nat>
    requires a in m && a in n
  {
    GoneEnds(m, n) + if n[a] == m[a] then {EndOf(m, a)} else {}
  }

  /** The collation of the free block at a, begun at was, mirrored by m0, stands at
      s, mirrored by m. */
  ghost predicate CollateAt(m0: Buffer, m: Buffer, was: Heap, s: Heap, a: nat) {
    && WF(was) && WF(s) && FreeAt(was.blk, a) && FreeAt(s.blk, a) && s.w == was.w && |m0| == was.end == s.end
    && Collate(s, a) == Collate(was, a)
    && Kept(m0, m, was) && Swallowed(was.blk, s.blk, a) && Buried(m, was, s) && LinksOnly(m0, m, was.w, was.blk, a)
    && Touched(m0, m, was.w, FreeStarts(was.blk), GoneEnds(was.blk, s.blk))
    && EndOf(s.blk, a) in CollateEnds(was.blk, s.blk, a)
  }

  /** What a collation leaves: free blocks merged, swallowed headers that read as no
      block, live bytes kept, and only fields and tags touched. */
  ghost predicate Collated(m0: Buffer, m: Buffer, was: Heap, s: Heap, a: nat) {
    && WF(was) && FreeAt(was.blk, a) && s == Collate(was, a) && FreeAt(s.blk, a)
    && Kept(m0, m, was) && Buried(m, was, s) && LinksOnly(m0, m, was.w, was.blk, a)
    && Touched(m0, m, was.w, FreeStarts(was.blk), CollateEnds(was.blk, s.blk, a))
    && EndOf(s.blk, a) in CollateEnds(was.blk, s.blk, a)
  }

  lemma CollateBegins(m: Buffer, s: Heap, a: nat)
    requires WF(s) && Mirrors(m, s) && FreeAt(s.blk, a)
    ensures CollateAt(m, m, s, s, a)
  {
    hide WF, Kept, Buried, LinksOnly, Touched, Collate;
    MirrorLength(m, s);
    CollateStart(m, s, a);
    LinksSelf(m, s.w, s.blk, a);
    TouchedSelf(m, s.w, FreeStarts(s.blk), GoneEnds(s.blk, s.blk));
  }

  lemma GoneMore(m: Blocks, s: Blocks, t: Blocks, a: nat, n: nat)
    requires Swallowed(m, s, a) && FreeAt(s, n) && n != a && t.Keys == s.Keys - {n} && a in t && t[a] != m[a]
    ensures EndOf(s, n) in GoneEnds(m, t)
    ensures GoneEnds(m, s) <= GoneEnds(m, t) == CollateEnds(m, t, a)
  {
    assert FreeAt(m, n) && n !in t && EndOf(s, n) == EndOf(m, n);
  }

  lemma AbsorbShape(was: Heap, s: Heap, a: nat)
    requires WF(s) && FreeAt(s.blk, a) && FreeAt(s.blk, EndOf(s.blk, a)) && Swallowed(was.blk, s.blk, a)
    ensures var n, t := EndOf(s.blk, a), Absorb(s, a);
      && n != a && t.blk.Keys == s.blk.Keys - {n} && a in t.blk && a in was.blk && t.blk[a] != was.blk[a]
      && EndOf(t.blk, a) == EndOf(s.blk, n)
  {
    FitsTiles(s.w, s.end, s.blk, a);
    FitsTiles(s.w, s.end, s.blk, EndOf(s.blk, a));
  }

  // One turn of the loop that merges.
  lemma CollateTurn(m0: Buffer, m: Buffer, r: Buffer, l: Keys, was: Heap, s: Heap, a: nat)
    requires CollateAt(m0, m, was, s, a) && Mirrors(m, s)
    requires FreeAt(s.blk, EndOf(s.blk, a)) && AbsorbLeaves(m, r, l, s, a)
    ensures CollateAt(m0, r, was, Absorb(s, a), a)
  {
    hide WF, Mirrors, Kept, Covers, Grave, Buried, Swallowed, Absorb, LinksOnly, Touched, Collate, KeysOf, FreeBelow,
      FreeStarts, GoneEnds, CollateEnds;
    var t, n := Absorb(s, a), EndOf(s.blk, a);
    CollateStep(s, a);
    BuriedStep(m, r, was, s, a);
    KeptChain(m0, m, r, was, s);
    SwallowedBelow(was.blk, s.blk, a);
    LinksOnlyChain(m0, m, r, was.w, was.blk, s.blk, a, a);
    AbsorbShape(was, s, a);
    GoneMore(was.blk, s.blk, t.blk, a, n);
    var c, e := FreeStarts(was.blk), GoneEnds(was.blk, t.blk);
    SwallowedStarts(was.blk, s.blk, a);
    TouchedMore(m0, m, was.w, c, GoneEnds(was.blk, s.blk), c, e);
    TouchedMore(m, r, was.w, FreeStarts(s.blk), {EndOf(s.blk, n)}, c, e);
    TouchedChain(m0, m, r, was.w, c, e);
    AbsorbFrame(s, a);
  }

  lemma AbsorbFrame(s: Heap, a: nat)
    requires FreeAt(s.blk, a) && FreeAt(s.blk, EndOf(s.blk, a))
    ensures Absorb(s, a).w == s.w && Absorb(s, a).end == s.end
  {
  }

  lemma SwallowedStarts(m: Blocks, n: Blocks, a: nat)
    requires Swallowed(m, n, a)
    ensures FreeStarts(n) <= FreeStarts(m)
  {
  }

  // The end of the loop at the end of the arena.
  lemma CollateAtEnd(m0: Buffer, m: Buffer, was: Heap, s: Heap, a: nat)
    requires CollateAt(m0, m, was, s, a) && EndOf(s.blk, a) == s.end
    ensures Collated(m0, m, was, s, a)
  {
    hide WF, Kept, Buried, LinksOnly, Touched, FreeStarts, GoneEnds;
    CollateStep(s, a);
    TouchedMore(m0, m, was.w, FreeStarts(was.blk), GoneEnds(was.blk, s.blk),
                FreeStarts(was.blk), CollateEnds(was.blk, s.blk, a));
  }

  // The end of the loop before a live block: the block is tagged.
  lemma CollateTags(m0: Buffer, m: Buffer, was: Heap, s: Heap, a: nat)
    requires CollateAt(m0, m, was, s, a) && Mirrors(m, s) && EndOf(s.blk, a) != s.end && !FreeAt(s.blk, EndOf(s.blk, a))
    ensures var r, t := StampOf(m, s.w, s.end, a), Stamped(s, a);
      Collated(m0, r, was, t, a) && WF(t) && Mirrors(r, t) && KeysOf(t) == KeysOf(s) && t.w == s.w && t.end == s.end
      && t.max == s.max
  {
    hide WF, Mirrors, Kept, Covers, Grave, Buried, Swallowed, LinksOnly, Touched, Collate, KeysOf, FreeBelow,
      FreeStarts, GoneEnds, CollateEnds, StampOf, Footed;
    var r, t, c, e := StampOf(m, s.w, s.end, a), Stamped(s, a), FreeStarts(was.blk), CollateEnds(was.blk, s.blk, a);
    CollateStep(s, a);
    StampSound(m, s, a);
    StampEnds(m0, m, r, was, s, a);
    SwallowedBelow(was.blk, s.blk, a);
    LinksOnlyChain(m0, m, r, was.w, was.blk, s.blk, a, a);
    TouchedMore(m0, m, was.w, c, GoneEnds(was.blk, s.blk), c, e) by { EndsMore(was.blk, s.blk, a); }
    TouchedMore(m, r, was.w, {}, {EndOf(s.blk, a)}, c, e);
    TouchedChain(m0, m, r, was.w, c, e);
  }

  lemma EndsMore(m: Blocks, n: Blocks, a: nat)
    requires a in m && a in n
    ensures GoneEnds(m, n) <= CollateEnds(m, n, a)
  {
  }

  lemma CollatedKeeps(m0: Buffer, m: Buffer, was: Heap, s: Heap, a: nat)
    requires Collated(m0, m, was, s, a)
    ensures WF(was) && FreeAt(was.blk, a) && s == Collate(was, a) && FreeAt(s.blk, a)
    ensures Kept(m0, m, was) && Buried(m, was, s) && LinksOnly(m0, m, was.w, was.blk, a)
  {
  }

  lemma CollatedTouches(m0: Buffer, m: Buffer, was: Heap, s: Heap, a: nat)
    requires Collated(m0, m, was, s, a)
    ensures a in was.blk && a in s.blk && EndOf(s.blk, a) in CollateEnds(was.blk, s.blk, a)
    ensures Touched(m0, m, was.w, FreeStarts(was.blk), CollateEnds(was.blk, s.blk, a))
  {
  }

  /** A collation only roams over free blocks. */
  lemma CollatedRoams(m0: Buffer, m: Buffer, was: Heap, s: Heap, a: nat)
    requires Collated(m0, m, was, s, a) && |m0| == was.end && |m| == s.end
    ensures Roams(m0, m, was, s)
  {
    hide WF, Kept, Buried, LinksOnly, Touched, Collate, TidyAt;
    CollateKeeps(was, a);
    GrownEnds(was.blk, s.blk, a);
    TouchedMore(m0, m, was.w, FreeStarts(was.blk), CollateEnds(was.blk, s.blk, a),
                FreeStarts(was.blk), FreeEnds(was.blk));
  }

  lemma GrownEnds(m: Blocks, n: Blocks, a: nat)
    requires Swallowed(m, n, a) && EndOf(n, a) in CollateEnds(m, n, a)
    ensures CollateEnds(m, n, a) <= FreeEnds(m) && FreeStarts(n) <= FreeStarts(m) && FreeEnds(n) <= FreeEnds(m)
  {
    forall e | e in CollateEnds(m, n, a)
      ensures e in FreeEnds(m)
    {
      if e in GoneEnds(m, n) {
        var x :| x in m && FreeAt(m, x) && x !in n && e == EndOf(m, x);
        assert x in m && FreeAt(m, x);
      }
    }
    forall e | e in FreeEnds(n)
      ensures e in FreeEnds(m)
    {
      var x :| x in n && FreeAt(n, x) && e == EndOf(n, x);
      if x != a {
        assert x in m && FreeAt(m, x) && EndOf(m, x) == e;
      }
    }
  }
}
