/** When the bytes of an arena mirror a heap, and what a write inside one free
    block leaves alone. */
module Mirror {
  import opened Bytes
  import opened HeapModel
  import opened Layout
  import opened Tally

  ghost predicate BlockOk(m: Buffer, w: nat, a: nat, b: Block) {
    Ctl(m, w, a).flags == KindFlags(w, b.kind) && Ctl(m, w, a).size == b.size
  }

  ghost predicate BlocksOk(m: Buffer, w: nat, blk: Blocks) {
    forall a :: a in blk ==> BlockOk(m, w, a, blk[a])
  }

  function Before(q: seq<nat>, i: nat): nat
    requires i < |q|
  {
    if i == 0 then 0 else q[i - 1]
  }

  function After(q: seq<nat>, i: nat): nat
    requires i < |q|
  {
    if i + 1 < |q| then q[i + 1] else 0
  }

  ghost predicate LinkOk(m: Buffer, w: nat, q: seq<nat>, i: nat)
    requires i < |q|
  {
    Ctl(m, w, q[i]).prev == Before(q, i) && Ctl(m, w, q[i]).next == After(q, i)
  }

  // The prev and next fields of the free blocks spell out the list, both ways.
  ghost predicate LinksOk(m: Buffer, w: nat, q: seq<nat>) {
    forall i: nat {:trigger LinkOk(m, w, q, i)} :: i < |q| ==> LinkOk(m, w, q, i)
  }

  ghost predicate FeetOk(m: Buffer, blk: Blocks, tags: set<nat>) {
    forall a :: a in tags ==> a in blk && FootAt(m, EndOf(blk, a)) == blk[a].size
  }

  // Live blocks, other than one just handed over, have been given their type.
  ghost predicate Typed(blk: Blocks, pending: nat) {
    forall a :: LiveAt(blk, a) && a != pending ==> 0 < blk[a].kind.typ < 16
  }

  ghost predicate MirrorsBut(m: Buffer, s: Heap, pending: nat) {
    && |m| == s.end
    && Typed(s.blk, pending)
    && BlocksOk(m, s.w, s.blk)
    && LinksOk(m, s.w, s.free)
    && FeetOk(m, s.blk, s.tagged)
  }

  ghost predicate Mirrors(m: Buffer, s: Heap) { MirrorsBut(m, s, 0) }

  // ---- frames ------------------------------------------------------------------

  ghost predicate LiveSame(m: Buffer, r: Buffer, blk: Blocks) {
    forall a :: LiveAt(blk, a) ==> SameOn(m, r, a, EndOf(blk, a))
  }

  ghost predicate FeetSame(m: Buffer, r: Buffer, blk: Blocks, tags: set<nat>) {
    forall a :: a in tags && a in blk ==> FootAt(m, EndOf(blk, a)) == FootAt(r, EndOf(blk, a))
  }

  // The dead space of free blocks, past the links and short of a tag, is untouched.
  ghost predicate ShelterSame(m: Buffer, r: Buffer, w: nat, blk: Blocks) {
    forall c: nat, i: nat {:trigger FreeAt(blk, c), r[i]} ::
      FreeAt(blk, c) && c + ControlSize(w) <= i && i + FOOT < EndOf(blk, c) && i < |m| && i < |r| ==> m[i] == r[i]
  }

  ghost predicate Kept(m: Buffer, r: Buffer, s: Heap) {
    |m| == |r| && LiveSame(m, r, s.blk) && ShelterSame(m, r, s.w, s.blk)
  }

  // Live blocks are the same, and every free block lies within a free block.
  ghost predicate Covers(m: Blocks, n: Blocks) {
    && SameLive(m, n)
    && forall c: nat :: FreeAt(m, c) ==> exists d: nat :: FreeAt(n, d) && d <= c && EndOf(m, c) <= EndOf(n, d)
  }

  lemma SwallowedCovers(m: Blocks, n: Blocks, a: nat)
    requires Swallowed(m, n, a)
    ensures Covers(m, n)
  {
    forall c: nat | FreeAt(m, c)
      ensures exists d: nat :: FreeAt(n, d) && d <= c && EndOf(m, c) <= EndOf(n, d)
    {
      var d := if c in n then c else a;
      assert FreeAt(n, d);
    }
  }

  lemma CoversSelf(m: Blocks)
    ensures Covers(m, m)
  {
  }

  lemma CoversChain(m: Blocks, n: Blocks, p: Blocks)
    requires Covers(m, n) && Covers(n, p)
    ensures Covers(m, p)
  {
    forall c: nat | FreeAt(m, c)
      ensures exists d: nat :: FreeAt(p, d) && d <= c && EndOf(m, c) <= EndOf(p, d)
    {
      var e: nat :| FreeAt(n, e) && e <= c && EndOf(m, c) <= EndOf(n, e);
      var d: nat :| FreeAt(p, d) && d <= e && EndOf(n, e) <= EndOf(p, d);
      assert FreeAt(p, d) && d <= c && EndOf(m, c) <= EndOf(p, d);
    }
  }

  lemma KeptChain(m: Buffer, r: Buffer, t: Buffer, s: Heap, u: Heap)
    requires Kept(m, r, s) && Kept(r, t, u) && Covers(s.blk, u.blk) && u.w == s.w
    ensures Kept(m, t, s)
  {
    forall a | LiveAt(s.blk, a)
      ensures SameOn(m, t, a, EndOf(s.blk, a))
    {
      assert SameOn(m, r, a, EndOf(s.blk, a)) && SameOn(r, t, a, EndOf(u.blk, a));
    }
    forall c: nat, i: nat {:trigger FreeAt(s.blk, c), t[i]} |
      FreeAt(s.blk, c) && c + ControlSize(s.w) <= i && i + FOOT < EndOf(s.blk, c) && i < |m|
      ensures m[i] == t[i]
    {
      var d: nat :| FreeAt(u.blk, d) && d <= c && EndOf(s.blk, c) <= EndOf(u.blk, d);
      assert m[i] == r[i];
      assert r[i] == t[i];
    }
  }

  // ---- which bytes a step touches ------------------------------------------------

  // i lies in the control fields of a block at one of c.
  ghost predicate InControls(w: nat, c: set<nat>, i: nat) { exists x :: x in c && x <= i < x + ControlSize(w) }

  // i is one of the bytes of a tag that ends at one of e.
  ghost predicate InTags(e: set<nat>, i: nat) { exists x :: x in e && i < x <= i + FOOT }

  /** r is m, perhaps longer, with nothing changed but control fields at c and tags
      that end at e; where the arena grew, a tag may reach back into its old end. */
  ghost predicate Touched(m: Buffer, r: Buffer, w: nat, c: set<nat>, e: set<nat>) {
    |m| <= |r| && forall i: nat {:trigger r[i]} :: i < |m| && m[i] != r[i] ==>
      InControls(w, c, i) || InTags(e, i) || (|m| < |r| && |m| <= i + FOOT)
  }

  lemma TouchedChain(m: Buffer, r: Buffer, t: Buffer, w: nat, c: set<nat>, e: set<nat>)
    requires Touched(m, r, w, c, e) && Touched(r, t, w, c, e)
    ensures Touched(m, t, w, c, e)
  {
    hide InControls, InTags;
    forall i: nat {:trigger t[i]} | i < |m| && m[i] != t[i]
      ensures InControls(w, c, i) || InTags(e, i) || (|m| < |t| && |m| <= i + FOOT)
    {
      assert m[i] != r[i] || r[i] != t[i];
    }
  }

  lemma TouchedMore(m: Buffer, r: Buffer, w: nat, c: set<nat>, e: set<nat>, d: set<nat>, f: set<nat>)
    requires Touched(m, r, w, c, e) && (forall x :: x in c && x < |m| ==> x in d)
    requires forall x :: x in e ==> x in f || (|m| < |r| && |m| < x)
    ensures Touched(m, r, w, d, f)
  {
    forall i: nat {:trigger r[i]} | i < |m| && m[i] != r[i]
      ensures InControls(w, d, i) || InTags(f, i) || (|m| < |r| && |m| <= i + FOOT)
    {
      if x :| x in c && x <= i < x + ControlSize(w) {
        assert x in d;
      }
    }
  }

  lemma TouchedAt(m: Buffer, r: Buffer, w: nat, c: set<nat>, e: set<nat>, a: nat)
    requires SameOutside(m, r, a, a + ControlSize(w)) && a in c
    ensures Touched(m, r, w, c, e)
  {
  }

  lemma TouchedTag(m: Buffer, r: Buffer, w: nat, c: set<nat>, e: set<nat>, x: nat)
    requires FOOT <= x && SameOutside(m, r, x - FOOT, x) && x in e
    ensures Touched(m, r, w, c, e)
  {
  }

  // Two control fields.
  lemma TouchedTwice(m: Buffer, r: Buffer, t: Buffer, w: nat, c: set<nat>, e: set<nat>, a: nat, b: nat)
    requires SameOutside(m, r, a, a + ControlSize(w)) && SameOutside(r, t, b, b + ControlSize(w)) && a in c && b in c
    ensures Touched(m, t, w, c, e)
  {
    hide Touched;
    TouchedAt(m, r, w, c, e, a);
    TouchedAt(r, t, w, c, e, b);
    TouchedChain(m, r, t, w, c, e);
  }

  lemma TouchedSelf(m: Buffer, w: nat, c: set<nat>, e: set<nat>)
    ensures Touched(m, m, w, c, e)
  {
  }

  // Where free blocks start and end.
  ghost function FreeStarts(m: Blocks): set<nat> { set x | x in m && FreeAt(m, x) }

  ghost function FreeEnds(m: Blocks): set<nat> { set x | x in m && FreeAt(m, x) :: EndOf(m, x) }

  /** From was to s, mirrored by m0 and m, free blocks were only merged and the
      arena perhaps grew: no other bytes were touched than theirs. */
  ghost predicate Roams(m0: Buffer, m: Buffer, was: Heap, s: Heap) {
    && Touched(m0, m, was.w, FreeStarts(was.blk), FreeEnds(was.blk))
    && |m0| == was.end <= s.end == |m|
    && (forall x :: x in FreeStarts(s.blk) ==> x in FreeStarts(was.blk) || was.end <= x)
    && (forall x :: x in FreeEnds(s.blk) ==> x in FreeEnds(was.blk) || (was.end < s.end && was.end < x))
  }

  lemma RoamsSelf(m: Buffer, s: Heap)
    requires |m| == s.end
    ensures Roams(m, m, s, s)
  {
  }

  lemma RoamsChain(m0: Buffer, m: Buffer, r: Buffer, was: Heap, s: Heap, t: Heap)
    requires Roams(m0, m, was, s) && Roams(m, r, s, t) && s.w == was.w
    ensures Roams(m0, r, was, t)
  {
    hide InControls, InTags, FreeStarts, FreeEnds;
    var c, e := FreeStarts(was.blk) + FreeStarts(s.blk), FreeEnds(was.blk) + FreeEnds(s.blk);
    TouchedMore(m0, m, was.w, FreeStarts(was.blk), FreeEnds(was.blk), c, e);
    TouchedMore(m, r, was.w, FreeStarts(s.blk), FreeEnds(s.blk), c, e);
    TouchedChain(m0, m, r, was.w, c, e);
    TouchedMore(m0, r, was.w, c, e, FreeStarts(was.blk), FreeEnds(was.blk));
  }

  // x holds a cleared flag byte in the sheltered dead space of a free block.
  ghost predicate Grave(m: Buffer, w: nat, blk: Blocks, x: nat) {
    Get(m, x, 1) == 0 && exists c: nat :: FreeAt(blk, c) && c + ControlSize(w) <= x && x + FOOT < EndOf(blk, c)
  }

  // Every free block of s longer than a tag that t no longer has is a grave.
  ghost predicate Buried(m: Buffer, s: Heap, t: Heap) {
    forall x: nat :: FreeAt(s.blk, x) && FOOT < s.blk[x].size && x !in t.blk ==> Grave(m, t.w, t.blk, x)
  }

  lemma GraveStays(m: Buffer, r: Buffer, s: Heap, t: Heap, x: nat)
    requires Grave(m, s.w, s.blk, x) && Kept(m, r, s) && Covers(s.blk, t.blk) && t.w == s.w
    requires WF(s) && |m| == s.end
    ensures Grave(r, t.w, t.blk, x)
  {
    var c: nat :| FreeAt(s.blk, c) && c + ControlSize(s.w) <= x && x + FOOT < EndOf(s.blk, c);
    assert Fits(s.w, s.end, s.blk, c);
    assert FreeAt(s.blk, c) && m[x] == r[x];
    GetSame(m, r, x, 1);
    var d: nat :| FreeAt(t.blk, d) && d <= c && EndOf(s.blk, c) <= EndOf(t.blk, d);
  }

  // The control fields of every block but a are as they were.
  ghost predicate OthersSame(m: Buffer, r: Buffer, w: nat, blk: Blocks, a: nat) {
    forall b :: b in blk && b != a ==> Ctl(m, w, b) == Ctl(r, w, b)
  }

  /** r is m with the control fields of the free block at a set to c: the bytes of
      live blocks, the tags and the other control fields are as they were. */
  ghost predicate Step(m: Buffer, r: Buffer, s: Heap, a: nat, c: Control) {
    && Ctl(r, s.w, a) == c
    && OthersSame(m, r, s.w, s.blk, a)
    && SameOutside(m, r, a, a + ControlSize(s.w))
    && Quiet(m, r, s)
  }

  // No byte of a live block and no tag that is known to be in place changed.
  ghost predicate Quiet(m: Buffer, r: Buffer, s: Heap) {
    Kept(m, r, s) && FeetSame(m, r, s.blk, s.tagged)
  }

  lemma QuietChain(m: Buffer, r: Buffer, t: Buffer, s: Heap)
    requires Quiet(m, r, s) && Quiet(r, t, s)
    ensures Quiet(m, t, s)
  {
    CoversSelf(s.blk);
    KeptChain(m, r, t, s, s);
  }

  lemma QuietSelf(m: Buffer, s: Heap)
    requires Tiles(s.w, s.end, s.blk) && |m| == s.end
    ensures Quiet(m, m, s)
  {
    assert forall a :: a in s.blk ==> Fits(s.w, s.end, s.blk, a);
  }

  // A block other than a lies wholly on one side of [a, EndOf(a)).
  lemma Apart(w: nat, end: nat, blk: Blocks, a: nat, b: nat)
    requires Tiles(w, end, blk) && a in blk && b in blk && a != b
    ensures EndOf(blk, b) <= a || EndOf(blk, a) <= b
    ensures b + ControlSize(w) <= EndOf(blk, b) <= end
  {
    assert Fits(w, end, blk, a) && Fits(w, end, blk, b);
  }

  lemma InsideOthers(m: Buffer, r: Buffer, s: Heap, a: nat, lo: nat, hi: nat)
    requires Tiles(s.w, s.end, s.blk) && |m| == s.end && a in s.blk
    requires a <= lo <= hi <= EndOf(s.blk, a) && SameOutside(m, r, lo, hi)
    ensures OthersSame(m, r, s.w, s.blk, a)
  {
    forall b | b in s.blk && b != a
      ensures Ctl(m, s.w, b) == Ctl(r, s.w, b)
    {
      Apart(s.w, s.end, s.blk, a, b);
      CtlSame(m, r, s.w, b);
    }
  }

  lemma InsideLive(m: Buffer, r: Buffer, s: Heap, a: nat, lo: nat, hi: nat)
    requires Tiles(s.w, s.end, s.blk) && |m| == s.end && FreeAt(s.blk, a)
    requires a <= lo <= hi <= EndOf(s.blk, a) && SameOutside(m, r, lo, hi)
    ensures LiveSame(m, r, s.blk)
  {
    forall b | LiveAt(s.blk, b)
      ensures SameOn(m, r, b, EndOf(s.blk, b))
    {
      Apart(s.w, s.end, s.blk, a, b);
    }
  }

  lemma InsideShelter(m: Buffer, r: Buffer, s: Heap, a: nat, lo: nat, hi: nat)
    requires Tiles(s.w, s.end, s.blk) && |m| == s.end && FreeAt(s.blk, a) && SameOutside(m, r, lo, hi)
    requires || (lo == a && hi == a + ControlSize(s.w))
             || (a <= lo && lo + FOOT == EndOf(s.blk, a) && hi == EndOf(s.blk, a))
    ensures ShelterSame(m, r, s.w, s.blk)
  {
    forall c: nat, i: nat {:trigger FreeAt(s.blk, c), r[i]} |
      FreeAt(s.blk, c) && c + ControlSize(s.w) <= i && i + FOOT < EndOf(s.blk, c) && i < |m|
      ensures m[i] == r[i]
    {
      assert Fits(s.w, s.end, s.blk, a);
      if c != a {
        Apart(s.w, s.end, s.blk, a, c);
      }
    }
  }

  lemma ControlFeet(m: Buffer, r: Buffer, s: Heap, a: nat)
    requires Tiles(s.w, s.end, s.blk) && Tagged(s.w, s.blk, s.tagged) && |m| == s.end && a in s.blk
    requires SameOutside(m, r, a, a + ControlSize(s.w))
    ensures FeetSame(m, r, s.blk, s.tagged)
  {
    forall b | b in s.tagged
      ensures FootAt(m, EndOf(s.blk, b)) == FootAt(r, EndOf(s.blk, b))
    {
      assert Fits(s.w, s.end, s.blk, b) && Fits(s.w, s.end, s.blk, a);
      if b != a {
        Apart(s.w, s.end, s.blk, a, b);
      }
      FootSame(m, r, EndOf(s.blk, b));
    }
  }

  lemma ControlStep(m: Buffer, r: Buffer, s: Heap, a: nat, c: Control)
    requires Laid(s) && |m| == s.end && FreeAt(s.blk, a) && Rewrites(m, r, s.w, a, c)
    ensures Step(m, r, s, a, c)
  {
    assert Fits(s.w, s.end, s.blk, a);
    InsideOthers(m, r, s, a, a, a + ControlSize(s.w));
    InsideLive(m, r, s, a, a, a + ControlSize(s.w));
    InsideShelter(m, r, s, a, a, a + ControlSize(s.w));
    ControlFeet(m, r, s, a);
  }

  lemma FitsField(s: Heap, a: nat)
    requires Laid(s) && (a in s.blk || a <= s.end)
    ensures a < Range(s.w)
    ensures a in s.blk ==> a + ControlSize(s.w) <= s.end && s.blk[a].size < Range(s.w)
  {
    assert Range(2) == 0x1_0000 && Range(4) == 0x1_0000_0000;
    assert Range(8) == 256 * 256 * 256 * 256 * Range(4);
    assert a in s.blk ==> Fits(s.w, s.end, s.blk, a);
  }

  lemma StepOutside(m: Buffer, r: Buffer, s: Heap, a: nat, c: Control)
    requires Step(m, r, s, a, c)
    ensures SameOutside(m, r, a, a + ControlSize(s.w))
  {
  }

  // Two steps on one block.
  lemma StepAgain(m: Buffer, r: Buffer, t: Buffer, s: Heap, a: nat)
    requires Step(m, r, s, a, Ctl(r, s.w, a)) && Step(r, t, s, a, Ctl(t, s.w, a))
    ensures Step(m, t, s, a, Ctl(t, s.w, a)) && |t| == |m|
  {
    QuietChain(m, r, t, s);
  }

  /** Two steps on different blocks: each block shows its own change. */
  lemma TwoSteps(m: Buffer, r: Buffer, t: Buffer, s: Heap, a: nat, c: Control, b: nat, d: Control)
    requires Step(m, r, s, a, c) && Step(r, t, s, b, d) && a != b && a in s.blk && b in s.blk
    ensures Quiet(m, t, s) && Ctl(t, s.w, a) == c && Ctl(t, s.w, b) == d && Ctl(r, s.w, b) == Ctl(m, s.w, b)
    ensures forall x :: x in s.blk && x != a && x != b ==> Ctl(t, s.w, x) == Ctl(m, s.w, x)
  {
    QuietChain(m, r, t, s);
  }

  /** What the fields of the j-th block of the free list say. */
  lemma Hooked(m: Buffer, s: Heap, j: nat)
    requires WF(s) && Mirrors(m, s) && j < |s.free|
    ensures var x, p, n := s.free[j], Before(s.free, j), After(s.free, j);
      && FreeAt(s.blk, x) && BASE <= x && s.blk[x].size <= s.end <= 0xFFFF_FFFF
      && Ctl(m, s.w, x) == Control(KindFlags(s.w, Free), s.blk[x].size, p, n)
      && Between(s, j, x, p, n) && (p == 0 <==> j == 0) && (n == 0 <==> j + 1 == |s.free|)
  {
    var x, p, n := s.free[j], Before(s.free, j), After(s.free, j);
    assert x in s.free && (j > 0 ==> p in s.free) && (j + 1 < |s.free| ==> n in s.free);
    assert LinkOk(m, s.w, s.free, j) && BlockOk(m, s.w, x, s.blk[x]);
    HookedPlace(s, x);
    if j > 0 {
      HookedPlace(s, p);
    }
    if j + 1 < |s.free| {
      HookedPlace(s, n);
    }
  }

  lemma FreeIndex(s: Heap, x: nat) returns (j: nat)
    requires WF(s) && FreeAt(s.blk, x)
    ensures j < |s.free| && s.free[j] == x
  {
    assert x in s.free;
    j :| 0 <= j < |s.free| && s.free[j] == x;
  }

  // The neighbours of the j-th block of the free list, where there are any.
  ghost predicate Between(s: Heap, j: nat, x: nat, p: nat, n: nat) {
    && j < |s.free| && x == s.free[j] && p == Before(s.free, j) && n == After(s.free, j)
    && FreeAt(s.blk, x) && (p != 0 ==> FreeAt(s.blk, p)) && (n != 0 ==> FreeAt(s.blk, n))
    && p <= s.end && n <= s.end && p != x && n != x && (p != 0 ==> p != n) && x != 0
  }

  lemma HookedPlace(s: Heap, x: nat)
    requires WF(s) && x in s.free
    ensures FreeAt(s.blk, x) && BASE <= x <= s.end && s.blk[x].size <= s.end <= 0xFFFF_FFFF
  {
    assert Fits(s.w, s.end, s.blk, x);
  }

  // ---- what changes below an address -----------------------------------------------

  // i lies in a link field of a free block.
  ghost predicate InLinks(w: nat, blk: Blocks, i: nat) {
    exists c: nat :: FreeAt(blk, c) && c + HeaderSize(w) <= i < c + ControlSize(w)
  }

  // Below a, nothing but link fields of free blocks changed.
  ghost predicate LinksOnly(m: Buffer, r: Buffer, w: nat, blk: Blocks, a: nat) {
    |m| == |r| && forall i: nat {:trigger r[i]} :: i < a && i < |m| && m[i] != r[i] ==> InLinks(w, blk, i)
  }

  lemma LinksOnlyPut(m: Buffer, r: Buffer, w: nat, blk: Blocks, a: nat, x: nat)
    requires FreeAt(blk, x) && SameOutside(m, r, x + HeaderSize(w), x + ControlSize(w))
    ensures LinksOnly(m, r, w, blk, a)
  {
  }

  lemma LinksOnlyAbove(m: Buffer, r: Buffer, w: nat, blk: Blocks, a: nat, x: nat, hi: nat)
    requires a <= x && SameOutside(m, r, x, hi)
    ensures LinksOnly(m, r, w, blk, a)
  {
  }

  // No free block starts below a in n that did not in m.
  ghost predicate FreeBelow(m: Blocks, n: Blocks, a: nat) {
    forall c: nat :: c < a && FreeAt(n, c) ==> FreeAt(m, c)
  }

  lemma LinksOnlyChain(m: Buffer, r: Buffer, t: Buffer, w: nat, x: Blocks, y: Blocks, a: nat, b: nat)
    requires LinksOnly(m, r, w, x, b) && LinksOnly(r, t, w, y, a) && a <= b && FreeBelow(x, y, a)
    ensures LinksOnly(m, t, w, x, a)
  {
    forall i: nat {:trigger t[i]} | i < a && i < |m| && m[i] != t[i]
      ensures InLinks(w, x, i)
    {
      if m[i] == r[i] {
        assert InLinks(w, y, i);
      }
    }
  }

  lemma LinksSelf(m: Buffer, w: nat, blk: Blocks, a: nat)
    ensures LinksOnly(m, m, w, blk, a) && FreeBelow(blk, blk, a)
  {
  }

  lemma SwallowedBelow(m: Blocks, n: Blocks, a: nat)
    requires Swallowed(m, n, a)
    ensures FreeBelow(m, n, a)
  {
  }

  lemma QuietWhole(m: Buffer, s: Heap, a: nat)
    requires WF(s) && |m| == s.end
    ensures Laid(s) && Quiet(m, m, s) && LinksOnly(m, m, s.w, s.blk, a)
  {
    QuietSelf(m, s);
  }

  lemma LinksTwice(m: Buffer, r: Buffer, t: Buffer, w: nat, blk: Blocks, x: nat, y: nat)
    requires FreeAt(blk, x) && SameOutside(m, r, x + HeaderSize(w), x + ControlSize(w))
    requires FreeAt(blk, y) && SameOutside(r, t, y + HeaderSize(w), y + ControlSize(w))
    ensures LinksOnly(m, t, w, blk, y) && |t| == |m|
  {
    LinksOnlyPut(m, r, w, blk, y, x);
    LinksOnlyPut(r, t, w, blk, y, y);
    LinksOnlyChain(m, r, t, w, blk, blk, y, y);
  }

  lemma LinkFieldsTouched(m: Buffer, r: Buffer, t: Buffer, w: nat, blk: Blocks, x: nat, y: nat)
    requires FreeAt(blk, x) && SameOutside(m, r, x + HeaderSize(w), x + ControlSize(w))
    requires FreeAt(blk, y) && SameOutside(r, t, y + HeaderSize(w), y + ControlSize(w))
    ensures Touched(m, t, w, FreeStarts(blk), {})
  {
    TouchedTwice(m, r, t, w, FreeStarts(blk), {}, x, y);
  }

  lemma LinksThrice(m: Buffer, r: Buffer, t: Buffer, u: Buffer, w: nat, blk: Blocks, x: nat)
    requires LinksOnly(m, r, w, blk, x) && LinksOnly(r, t, w, blk, x) && SameOutside(t, u, x, x + ControlSize(w))
    ensures LinksOnly(m, u, w, blk, x)
  {
    LinksOnlyAbove(t, u, w, blk, x, x, x + ControlSize(w));
    LinksOnlyChain(m, r, t, w, blk, blk, x, x);
    LinksOnlyChain(m, t, u, w, blk, blk, x, x);
  }

  lemma LinksAbove(m: Buffer, r: Buffer, t: Buffer, w: nat, blk: Blocks, a: nat, n: nat)
    requires SameOutside(m, r, a, a + ControlSize(w)) && SameOutside(r, t, n, n + ControlSize(w)) && a <= n
    ensures LinksOnly(m, t, w, blk, a)
  {
    LinksOnlyAbove(m, r, w, blk, a, a, a + ControlSize(w));
    LinksOnlyAbove(r, t, w, blk, a, n, n + ControlSize(w));
    LinksOnlyChain(m, r, t, w, blk, blk, a, a);
  }

  // ---- taking a block off the list ---------------------------------------------

  function First(q: seq<nat>): nat { if q == [] then 0 else q[0] }

  function Last(q: seq<nat>): nat { if q == [] then 0 else q[|q| - 1] }

  lemma RemoveEnds(q: seq<nat>, j: nat)
    requires Distinct(q) && j < |q|
    ensures var r := Remove(q, q[j]);
      && r == q[..j] + q[j+1..]
      && First(r) == (if j == 0 then After(q, j) else First(q))
      && Last(r) == (if j + 1 == |q| then Before(q, j) else Last(q))
  {
    hide Remove, Distinct, First, Last;
    NotBefore(q, j);
    RemoveAt(q, j);
    CutEnds(q, j);
  }

  lemma CutEnds(q: seq<nat>, j: nat)
    requires j < |q|
    ensures var r := q[..j] + q[j+1..];
      && First(r) == (if j == 0 then After(q, j) else First(q))
      && Last(r) == (if j + 1 == |q| then Before(q, j) else Last(q))
  {
  }

  lemma {:induction false} NeighbourAt(q: seq<nat>, j: nat)
    requires Distinct(q) && j < |q|
    ensures Neighbour(q, q[j]) == if j > 0 then Before(q, j) else After(q, j)
  {
    if j > 1 {
      assert q[1..][j-1] == q[j] && q[1..][j-2] == q[j-1];
      assert forall i :: 0 <= i < |q[1..]| ==> q[1..][i] == q[i+1];
      NeighbourAt(q[1..], j - 1);
    }
  }

  // What isolating the free block q[j] leaves in the control fields at b: first
  // its link backwards goes, then its link forwards, then its flags.
  function Unprev(c: Control, q: seq<nat>, j: nat, b: nat): Control
    requires j < |q|
  {
    if b == q[j] then c.(prev := 0) else if b == Before(q, j) then c.(next := After(q, j)) else c
  }

  function Unnext(c: Control, q: seq<nat>, j: nat, b: nat): Control
    requires j < |q|
  {
    if b == q[j] then c.(next := 0) else if b == After(q, j) then c.(prev := Before(q, j)) else c
  }

  function Unhooked(c: Control, w: nat, q: seq<nat>, j: nat, b: nat): Control
    requires j < |q|
  {
    var d := Unnext(Unprev(c, q, j, b), q, j, b);
    if b == q[j] then d.(flags := KindFlags(w, PENDING)) else d
  }

  ghost predicate Isolated(m: Buffer, r: Buffer, s: Heap, j: nat)
    requires j < |s.free|
  {
    && Quiet(m, r, s) && Touched(m, r, s.w, FreeStarts(s.blk), {})
    && (forall b :: b in s.blk ==> Ctl(r, s.w, b) == Unhooked(Ctl(m, s.w, b), s.w, s.free, j, b))
  }

  lemma BetweenEnds(s: Heap, j: nat, x: nat, p: nat, n: nat)
    requires WF(s) && Between(s, j, x, p, n)
    ensures (First(s.free) == x <==> j == 0) && (Last(s.free) == x <==> j + 1 == |s.free|)
    ensures (p == 0 <==> j == 0) && (n == 0 <==> j + 1 == |s.free|)
  {
    NoBlockAtZero(s);
    assert j > 0 ==> s.free[j-1] in s.free;
    assert j + 1 < |s.free| ==> s.free[j+1] in s.free;
  }

  // Where an address of the key block goes when x leaves: to the first of the
  // two neighbours there is.
  function Forget(k: nat, x: nat, first: nat, second: nat): nat {
    if k != x then k else if first != 0 then first else second
  }

  lemma EndsAt(q: seq<nat>, j: nat)
    requires Distinct(q) && j < |q|
    ensures (First(q) == q[j] <==> j == 0) && (Last(q) == q[j] <==> j + 1 == |q|)
  {
  }

  lemma ForgetInList(q: seq<nat>, j: nat, k: nat)
    requires Distinct(q) && j < |q|
    requires (j == 0 <==> Before(q, j) == 0) && (j + 1 == |q| <==> After(q, j) == 0)
    ensures Forget(First(q), q[j], Before(q, j), After(q, j)) == First(Remove(q, q[j]))
    ensures Forget(Last(q), q[j], After(q, j), Before(q, j)) == Last(Remove(q, q[j]))
    ensures Forget(k, q[j], Before(q, j), After(q, j)) == RootAfter(k, q, q[j])
  {
    hide Remove, Neighbour, Distinct;
    EndsAt(q, j);
    RemoveEnds(q, j);
    NeighbourAt(q, j);
  }

  // ---- the key block -------------------------------------------------------------

  datatype Keys = Keys(
    firstAlloc: nat,             // first allocation
    allocSize: nat,
    firstFree: nat,              // head of the free list
    lastFree: nat,          // and its tail
    freeSize: nat,
    allocEntries: nat,
    freeEntries: nat)

  // The key block of a well-formed heap.
  ghost function KeysOf(s: Heap): Keys {
    var t := Sum(s);
    Keys(s.root, t.allocSize, First(s.free), Last(s.free), t.freeSize, t.allocItems, t.freeItems)
  }

  // The key block once the free block x, between p and n, is off the list.
  function Delist(k: Keys, x: nat, p: nat, n: nat, size: nat): Keys
    requires size <= k.freeSize && 0 < k.freeEntries
  {
    Keys(Forget(k.firstAlloc, x, p, n), k.allocSize, Forget(k.firstFree, x, p, n), Forget(k.lastFree, x, n, p),
         k.freeSize - size, k.allocEntries, k.freeEntries - 1)
  }

  lemma DelistedKeys(s: Heap, j: nat, x: nat, p: nat, n: nat)
    requires WF(s) && Between(s, j, x, p, n)
    ensures var k := KeysOf(s);
      && s.blk[x].size <= k.freeSize && 0 < k.freeEntries
      && var d := Delist(k, x, p, n, s.blk[x].size);
      && d.firstAlloc == RootAfter(s.root, s.free, x)
      && d.firstFree == First(Remove(s.free, x)) && d.lastFree == Last(Remove(s.free, x))
  {
    SumCovers(s, x);
    BetweenEnds(s, j, x, p, n);
    hide Forget, First, Last, Remove, RootAfter, Sum;
    ForgetInList(s.free, j, s.root);
  }

  /** The arena m and the key block k describe the heap s. */
  ghost predicate Tells(m: Buffer, k: Keys, s: Heap) { WF(s) && Mirrors(m, s) && k == KeysOf(s) }
}
