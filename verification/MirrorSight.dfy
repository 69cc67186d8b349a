/** What the look back will see, told before the block is freed: below it, a free
    changes nothing but the links of the free list. */
module MirrorSight {
  import opened Bytes
  import opened HeapModel
  import opened Layout
  import opened Mirror
  import opened MirrorOps
  import opened MirrorFree
  import opened MirrorMerge
  import opened MirrorStray
  import opened Freeing
  import opened MirrorLive

  // m with the links of the first i blocks of q rewritten to spell q.
  function Respell(m: Buffer, w: nat, q: seq<nat>, i: nat): (r: Buffer)
    requires i <= |q|
    ensures |r| == |m|
  {
    if i == 0 then m
    else SetNext(SetPrev(Respell(m, w, q, i - 1), w, q[i - 1], Before(q, i - 1)), w, q[i - 1], After(q, i - 1))
  }

  // The records at q fit into n bytes, clear of each other, and their addresses
  // into a field.
  ghost predicate Spread(w: nat, n: nat, q: seq<nat>) {
    && 0 < Range(w)
    && (forall j :: 0 <= j < |q| ==> q[j] + ControlSize(w) <= n && q[j] < Range(w))
    && (forall j, k :: 0 <= j < k < |q| ==> q[j] + ControlSize(w) <= q[k] || q[k] + ControlSize(w) <= q[j])
  }

  // i lies in a link field of one of the first k blocks of q.
  ghost predicate InSpelling(w: nat, q: seq<nat>, k: nat, i: nat)
    requires k <= |q|
  {
    exists j :: 0 <= j < k && q[j] + HeaderSize(w) <= i < q[j] + ControlSize(w)
  }

  lemma RespellOne(m: Buffer, w: nat, a: nat, p: nat, n: nat)
    requires a + ControlSize(w) <= |m| && p < Range(w) && n < Range(w)
    ensures var r := SetNext(SetPrev(m, w, a, p), w, a, n);
      && |r| == |m| && SameOutside(m, r, a + HeaderSize(w), a + ControlSize(w))
      && Get(r, a + 1 + w, w) == p && Get(r, a + 1 + 2 * w, w) == n
  {
    hide Get, Range, Put;
    PutPrev(m, w, a, p);
    PutNext(SetPrev(m, w, a, p), w, a, n);
    assert Ctl(SetNext(SetPrev(m, w, a, p), w, a, n), w, a) == Ctl(SetPrev(m, w, a, p), w, a).(next := n);
  }

  lemma {:induction false} RespellSame(m: Buffer, w: nat, q: seq<nat>, k: nat, i: nat)
    requires Spread(w, |m|, q) && k <= |q| && i < |m| && !InSpelling(w, q, k, i)
    ensures Respell(m, w, q, k)[i] == m[i]
  {
    hide SetPrev, SetNext, Range;
    if k > 0 {
      RespellSame(m, w, q, k - 1, i);
      RespellOne(Respell(m, w, q, k - 1), w, q[k - 1], Before(q, k - 1), After(q, k - 1));
    }
  }

  lemma {:induction false} RespellLinks(m: Buffer, w: nat, q: seq<nat>, k: nat, j: nat)
    requires Spread(w, |m|, q) && j < k <= |q|
    ensures var r := Respell(m, w, q, k);
      Get(r, q[j] + 1 + w, w) == Before(q, j) && Get(r, q[j] + 1 + 2 * w, w) == After(q, j)
  {
    hide SetPrev, SetNext, Range, Get;
    var p, r := Respell(m, w, q, k - 1), Respell(m, w, q, k);
    RespellOne(p, w, q[k - 1], Before(q, k - 1), After(q, k - 1));
    if j < k - 1 {
      RespellLinks(m, w, q, k - 1, j);
      GetSame(p, r, q[j] + 1 + w, w);
      GetSame(p, r, q[j] + 1 + 2 * w, w);
    }
  }

  lemma ListSpread(s: Heap)
    requires WF(s)
    ensures Spread(s.w, s.end, s.free)
  {
    hide Tagged, Chained;
    forall j | 0 <= j < |s.free|
      ensures s.free[j] + ControlSize(s.w) <= s.end && s.free[j] < Range(s.w)
    {
      assert s.free[j] in s.free;
      FitsField(s, s.free[j]);
    }
    forall j, k | 0 <= j < k < |s.free|
      ensures s.free[j] + ControlSize(s.w) <= s.free[k] || s.free[k] + ControlSize(s.w) <= s.free[j]
    {
      assert s.free[j] in s.free && s.free[k] in s.free;
      assert Fits(s.w, s.end, s.blk, s.free[j]) && Fits(s.w, s.end, s.blk, s.free[k]);
    }
    assert 0 < Range(s.w) by { FitsField(s, BASE); }
  }

  // ---- the arena foreseen ------------------------------------------------------------------

  /** The arena m of s as it will read below a, once the linked live block a is back
      on the list and merged forwards. */
  function Foreseen(m: Buffer, s: Heap, a: nat): Buffer
    requires WF(s) && LiveAt(s.blk, a)
  {
    var q := Forward(s, a).free;
    Respell(m, s.w, q, |q|)
  }

  // What the look back will answer when the block at a is freed.
  function Sight(m: Buffer, s: Heap, a: nat): nat
    requires WF(s) && LiveAt(s.blk, a)
  {
    LookBack(Foreseen(m, s, a), s.w, a)
  }

  /** Freeing the block at a will be led astray: the tag in front of it will lead to
      where the walk over the blocks does not come by. */
  predicate Misled(m: Buffer, s: Heap, a: nat)
    requires WF(s) && LiveAt(s.blk, a)
  {
    LedAstray(Foreseen(m, s, a), s.w, a)
  }

  // Merging from where the look back leads does not rewrite the header it starts from.
  predicate Steady(m: Buffer, s: Heap, a: nat)
    requires WF(s) && LiveAt(s.blk, a)
  {
    !Shifts(Forward(s, a), Sight(m, s, a))
  }

  // And it overwrites no header but that of the block freed.
  predicate Contained(m: Buffer, s: Heap, a: nat)
    requires WF(s) && LiveAt(s.blk, a)
  {
    InBody(Forward(s, a), Sight(m, s, a)) && FOOT < Forward(s, a).blk[a].size
  }

  // The free blocks below a are the same once a was freed and merged forwards.
  lemma ForwardBelow(s: Heap, a: nat, c: nat)
    requires WF(s) && LiveAt(s.blk, a) && c < a
    ensures FreeAt(s.blk, c) <==> FreeAt(Forward(s, a).blk, c)
    ensures c in s.blk <==> c in Forward(s, a).blk
    ensures Forward(s, a).w == s.w && Forward(s, a).end == s.end
  {
    hide Tiles, Listed, Tagged, Collate, TidyAt;
    ReleaseKeeps(s, a);
    CollateKeeps(Release(s, a), a);
  }

  lemma ForwardWidth(s: Heap, a: nat)
    requires WF(s) && LiveAt(s.blk, a)
    ensures Forward(s, a).w == s.w && Forward(s, a).end == s.end && Forward(s, a).max == s.max
  {
    hide Tiles, Listed, Tagged, Collate, TidyAt;
    ReleaseKeeps(s, a);
    CollateKeeps(Release(s, a), a);
  }

  // Two arenas whose free blocks below a read the same links have the same bytes there.
  lemma LinkBytes(m: Buffer, r: Buffer, w: nat, c: nat, i: nat)
    requires c + HeaderSize(w) <= i < c + ControlSize(w) <= |m| == |r|
    requires Get(m, c + 1 + w, w) == Get(r, c + 1 + w, w) && Get(m, c + 1 + 2 * w, w) == Get(r, c + 1 + 2 * w, w)
    ensures m[i] == r[i]
  {
    if i < c + 1 + 2 * w {
      GetBytes(m, r, c + 1 + w, w);
    } else {
      GetBytes(m, r, c + 1 + 2 * w, w);
    }
  }

  lemma ForeseenByte(m0: Buffer, m: Buffer, s: Heap, a: nat, i: nat)
    requires WF(s) && LiveAt(s.blk, a) && |m0| == s.end && LinksOnly(m0, m, s.w, s.blk, a)
    requires WF(Forward(s, a)) && Mirrors(m, Forward(s, a)) && i < a && i < |m0|
    ensures m[i] == Foreseen(m0, s, a)[i]
  {
    hide Forward, Tiles, Tagged, BlocksOk, FeetOk, Respell, Range, Get;
    var t := Forward(s, a);
    var q := t.free;
    ForwardBelow(s, a, 0);
    ListSpread(t);
    if InLinks(s.w, s.blk, i) {
      var c: nat :| FreeAt(s.blk, c) && c + HeaderSize(s.w) <= i < c + ControlSize(s.w);
      ForwardBelow(s, a, c);
      assert c in q;
      var j :| 0 <= j < |q| && q[j] == c;
      RespellLinks(m0, s.w, q, |q|, j);
      assert LinkOk(m, s.w, q, j);
      LinkBytes(m, Foreseen(m0, s, a), s.w, c, i);
    } else {
      if j :| 0 <= j < |q| && q[j] + HeaderSize(s.w) <= i < q[j] + ControlSize(s.w) {
        assert q[j] in q;
        ForwardBelow(s, a, q[j]);
      }
      RespellSame(m0, s.w, q, |q|, i);
    }
  }

  // The look back reads bytes below a only.
  lemma LookBackBelow(m: Buffer, r: Buffer, w: nat, a: nat)
    requires SameOn(m, r, 0, a) && |m| == |r|
    ensures FootAt(m, a) == FootAt(r, a) && (TagLeads(m, w, a) <==> TagLeads(r, w, a))
  {
    hide Get, AddressBits, AllocBit, LinkedBit, TypeBits;
    if FOOT <= a {
      FootSame(m, r, a);
    }
    var z := FootAt(m, a);
    if FootMin(w) <= z < a {
      GetSame(m, r, a - z, 1);
      GetSame(m, r, a - z + 1, w);
    }
  }

  lemma {:induction false} ComesBySame(m: Buffer, r: Buffer, t: Heap, a: nat, x: nat, q: nat)
    requires WF(t) && Mirrors(m, t) && a in t.blk && x in t.blk && q < a && SameOn(m, r, 0, a)
    ensures ComesBy(m, t.w, x, q) <==> ComesBy(r, t.w, x, q)
    decreases if x <= q then q - x else 0
  {
    hide WF, Mirrors, SizeRead;
    if x < q {
      SizeWithin(m, r, t, a, x);
      if EndOf(t.blk, x) in t.blk {
        ComesBySame(m, r, t, a, EndOf(t.blk, x), q);
      }
    }
  }

  lemma SizeWithin(m: Buffer, r: Buffer, t: Heap, a: nat, x: nat)
    requires WF(t) && Mirrors(m, t) && a in t.blk && x in t.blk && x < a && SameOn(m, r, 0, a)
    ensures SizeRead(m, t.w, x) == SizeRead(r, t.w, x) == t.blk[x].size && 0 < t.blk[x].size
    ensures EndOf(t.blk, x) in t.blk
  {
    hide Mirrors, Listed, Tagged, Get;
    ChainSize(m, t, x);
    assert Fits(t.w, t.end, t.blk, x) && Fits(t.w, t.end, t.blk, a) && Chained(t.end, t.blk, x);
    GetSame(m, r, x + 1, t.w);
  }

  /** What the look back answers is what was foreseen, and it is led astray exactly
      when that was foreseen. */
  lemma SightExact(m0: Buffer, m: Buffer, s: Heap, a: nat)
    requires WF(s) && LiveAt(s.blk, a) && |m0| == s.end && LinksOnly(m0, m, s.w, s.blk, a)
    requires WF(Forward(s, a)) && Mirrors(m, Forward(s, a))
    ensures LookBack(m, s.w, a) == Sight(m0, s, a)
    ensures Misled(m0, s, a) <==> Decoy(m, s.w, Forward(s, a).blk, a)
  {
    hide WF, Mirrors, LinksOnly, Forward, FootAt, LooksFree, Foreseen, ComesBy;
    var t, v := Forward(s, a), Foreseen(m0, s, a);
    SightPlace(m, s, a);
    forall i: nat | i < a
      ensures m[i] == v[i]
    {
      ForeseenByte(m0, m, s, a, i);
    }
    LookBackBelow(m, v, s.w, a);
    AstrayIsDecoy(m, t, a);
    if TagLeads(m, s.w, a) {
      ComesBySame(m, v, t, a, BASE, a - FootAt(m, a));
    }
  }

  lemma SightPlace(m: Buffer, s: Heap, a: nat)
    requires WF(s) && LiveAt(s.blk, a) && WF(Forward(s, a)) && Mirrors(m, Forward(s, a))
    ensures var t := Forward(s, a); t.w == s.w && t.end == s.end == |m| && a in t.blk && BASE in t.blk && a < t.end
    ensures forall m0: Buffer :: |Foreseen(m0, s, a)| == |m0|
  {
    ForwardBelow(s, a, 0);
    assert Fits(s.w, s.end, s.blk, a);
  }

  // ---- telling the answer before the free ------------------------------------------------------

  // Outside the links of free blocks the arena foreseen is the arena there is.
  lemma ForeseenSame(m: Buffer, s: Heap, a: nat, lo: nat, hi: nat)
    requires WF(s) && LiveAt(s.blk, a) && |m| == s.end && lo <= hi <= s.end
    requires forall i: nat {:trigger InLinks(s.w, Forward(s, a).blk, i)} :: lo <= i < hi ==>
      !InLinks(s.w, Forward(s, a).blk, i)
    ensures SameOn(m, Foreseen(m, s, a), lo, hi) && |Foreseen(m, s, a)| == |m|
  {
    hide Forward, Respell, WF;
    var t := Forward(s, a);
    ForwardWidth(s, a);
    ListSpread(t);
    forall i | lo <= i < hi
      ensures m[i] == Foreseen(m, s, a)[i]
    {
      if InSpelling(s.w, t.free, |t.free|, i) {
        SpellingLinks(t, i);
      }
      RespellSame(m, s.w, t.free, |t.free|, i);
    }
  }

  lemma SpellingLinks(t: Heap, i: nat)
    requires WF(t) && InSpelling(t.w, t.free, |t.free|, i)
    ensures InLinks(t.w, t.blk, i)
  {
    var j :| 0 <= j < |t.free| && t.free[j] + HeaderSize(t.w) <= i < t.free[j] + ControlSize(t.w);
    assert t.free[j] in t.free;
  }

  // No link field of a free block meets the header of a block, or what lies clear of
  // the links of the block it is in.
  lemma ClearOfLinks(t: Heap, b: nat, i: nat)
    requires WF(t) && b in t.blk && b <= i < EndOf(t.blk, b)
    requires FreeAt(t.blk, b) ==> i < b + HeaderSize(t.w) || b + ControlSize(t.w) <= i
    ensures !InLinks(t.w, t.blk, i)
  {
    if c: nat :| FreeAt(t.blk, c) && c + HeaderSize(t.w) <= i < c + ControlSize(t.w) {
      TileFacts(t, b, c);
      TileFacts(t, c, b);
    }
  }

  // Freeing a block behind which nothing reads as a tag merges nothing backwards.
  lemma SightBlank(m: Buffer, s: Heap, a: nat)
    requires WF(s) && LiveAt(s.blk, a) && |m| == s.end && FOOT <= a <= s.end
    requires m[a - FOOT] == 0 && !InLinks(s.w, Forward(s, a).blk, a - FOOT)
    ensures Sight(m, s, a) == 0 && !Misled(m, s, a)
  {
    hide WF, Forward, Foreseen, LooksFree, ComesBy, InLinks;
    var v := Foreseen(m, s, a);
    forall i: nat {:trigger InLinks(s.w, Forward(s, a).blk, i)} | a - FOOT <= i < a - FOOT + 1
      ensures !InLinks(s.w, Forward(s, a).blk, i)
    {
      assert i == a - FOOT;
    }
    ForeseenSame(m, s, a, a - FOOT, a - FOOT + 1);
    assert v[a - FOOT] == 0;
    GetNext(v, a - FOOT, 4);
  }

  // The walk over the blocks reads headers only, which are foreseen as they are.
  lemma {:induction false} ComesByForeseen(m: Buffer, s: Heap, a: nat, x: nat, q: nat)
    requires WF(s) && LiveAt(s.blk, a) && Mirrors(m, s) && x in s.blk && q < a && x <= a
    ensures ComesBy(Foreseen(m, s, a), s.w, x, q) <==> q in s.blk && x <= q
    decreases a - x
  {
    hide WF, Mirrors, SizeRead, Foreseen, Forward;
    if x < q {
      HeaderForeseen(m, s, a, x);
      TileFacts(s, x, a);
      TileFacts(s, a, x);
      ChainStep(s, x, q);
      ComesByForeseen(m, s, a, EndOf(s.blk, x), q);
    }
  }

  lemma HeaderForeseen(m: Buffer, s: Heap, a: nat, x: nat)
    requires WF(s) && LiveAt(s.blk, a) && Mirrors(m, s) && x in s.blk && x < a
    ensures var v := Foreseen(m, s, a);
      Get(v, x, 1) == Get(m, x, 1) && SizeRead(v, s.w, x) == SizeRead(m, s.w, x) == s.blk[x].size
    ensures EndOf(s.blk, x) <= a
  {
    hide WF, Mirrors, Foreseen, Forward, InLinks, Get;
    var t := Forward(s, a);
    ForwardBelow(s, a, x);
    ForwardWidth(s, a);
    MirrorLength(m, s);
    ChainSize(m, s, x);
    TileFacts(s, x, a);
    TileFacts(t, x, a);
    forall i: nat {:trigger InLinks(s.w, t.blk, i)} | x <= i < x + HeaderSize(s.w)
      ensures !InLinks(s.w, t.blk, i)
    {
      ClearOfLinks(t, x, i);
    }
    ForeseenSame(m, s, a, x, x + HeaderSize(s.w));
    GetSame(m, Foreseen(m, s, a), x, 1);
    GetSame(m, Foreseen(m, s, a), x + 1, s.w);
  }

  // A tag that lies clear of links is foreseen as it is.
  lemma TagForeseen(m: Buffer, s: Heap, a: nat, b: nat)
    requires WF(s) && LiveAt(s.blk, a) && |m| == s.end && b in s.blk && EndOf(s.blk, b) == a
    requires FootMin(s.w) <= s.blk[b].size
    ensures FootAt(Foreseen(m, s, a), a) == FootAt(m, a)
  {
    hide WF, Foreseen, Forward, InLinks;
    var t := Forward(s, a);
    ForwardBelow(s, a, b);
    ForwardWidth(s, a);
    TileFacts(s, b, a);
    TileFacts(s, a, b);
    ForwardSize(s, a, b);
    forall i: nat {:trigger InLinks(s.w, t.blk, i)} | a - FOOT <= i < a
      ensures !InLinks(s.w, t.blk, i)
    {
      ClearOfLinks(t, b, i);
    }
    ForeseenSame(m, s, a, a - FOOT, a);
    FootSame(m, Foreseen(m, s, a), a);
  }

  lemma ForwardSize(s: Heap, a: nat, b: nat)
    requires WF(s) && LiveAt(s.blk, a) && b in s.blk && b < a
    ensures b in Forward(s, a).blk && Forward(s, a).blk[b] == s.blk[b]
  {
    hide Tiles, Listed, Tagged, Collate, TidyAt, Keep;
    ReleaseKeeps(s, a);
    CollateKeeps(Release(s, a), a);
  }

  /** A free block that carries its tag in front of the block freed is found. */
  lemma SightTagged(m: Buffer, s: Heap, a: nat, x: nat)
    requires WF(s) && LiveAt(s.blk, a) && Mirrors(m, s) && FreeAt(s.blk, x) && EndOf(s.blk, x) == a
    requires FootMin(s.w) <= s.blk[x].size && FootAt(m, a) == s.blk[x].size
    ensures Sight(m, s, a) == x && !Misled(m, s, a)
  {
    hide WF, Mirrors, Foreseen, Forward, FootAt, SizeRead, Get, ComesBy;
    TileFacts(s, x, a);
    TileFacts(s, a, x);
    MirrorLength(m, s);
    TagForeseen(m, s, a, x);
    HeaderForeseen(m, s, a, x);
    LooksIsFree(m, s, x, s.blk[x].size);
    ComesByForeseen(m, s, a, BASE, x);
  }

  // ---- what a free touches ---------------------------------------------------------------

  // Where a and the free blocks above it end.
  ghost function EndsFrom(m: Blocks, a: nat): set<nat> {
    set x | x in m && (x == a || (a < x && FreeAt(m, x))) :: EndOf(m, x)
  }

  /** What giving the block at a back may touch: control fields of free blocks and of
      a, and tags at the ends of a and of free blocks above it. */
  ghost predicate FreeTouches(m0: Buffer, m: Buffer, s: Heap, a: nat) {
    Touched(m0, m, s.w, FreeStarts(s.blk) + {a}, EndsFrom(s.blk, a))
  }

  lemma ReleaseStarts(s: Heap, a: nat)
    requires LiveAt(s.blk, a)
    ensures FreeStarts(Release(s, a).blk) == FreeStarts(s.blk) + {a}
  {
  }

  lemma ForwardEnds(s: Heap, a: nat)
    requires WF(s) && LiveAt(s.blk, a)
    ensures var g, t := Release(s, a).blk, Forward(s, a).blk;
      && a in g && a in t && CollateEnds(g, t, a) <= EndsFrom(s.blk, a) && FreeStarts(t) <= FreeStarts(g)
  {
    hide Tiles, Listed, Tagged, Collate, TidyAt, Keep;
    ReleaseKeeps(s, a);
    CollateKeeps(Release(s, a), a);
    var g, t := Release(s, a).blk, Forward(s, a).blk;
    SwallowedStarts(g, t, a);
    forall e | e in CollateEnds(g, t, a)
      ensures e in EndsFrom(s.blk, a)
    {
      if e in GoneEnds(g, t) {
        var x :| x in g && FreeAt(g, x) && x !in t && e == EndOf(g, x);
        assert x in s.blk && a < x && FreeAt(s.blk, x) && EndOf(s.blk, x) == e;
      } else {
        assert a in s.blk && EndOf(s.blk, a) == e;
      }
    }
  }

  lemma ForwardTouches(m0: Buffer, m1: Buffer, m: Buffer, s: Heap, a: nat)
    requires WF(s) && LiveAt(s.blk, a) && Touched(m0, m1, s.w, FreeStarts(Release(s, a).blk), {})
    requires Collated(m1, m, Release(s, a), Forward(s, a), a)
    ensures FreeTouches(m0, m, s, a)
  {
    hide WF, Touched, Collated, Release, Forward, FreeStarts, CollateEnds, EndsFrom;
    var g, t, c, e := Release(s, a).blk, Forward(s, a).blk, FreeStarts(s.blk) + {a}, EndsFrom(s.blk, a);
    ReleaseStarts(s, a);
    ReleaseWidth(s, a);
    ForwardEnds(s, a);
    CollatedTouches(m1, m, Release(s, a), Forward(s, a), a);
    TouchedMore(m0, m1, s.w, c, {}, c, e);
    TouchedMore(m1, m, s.w, c, CollateEnds(g, t, a), c, e);
    TouchedChain(m0, m1, m, s.w, c, e);
  }

  lemma ReleaseWidth(s: Heap, a: nat)
    requires LiveAt(s.blk, a)
    ensures Release(s, a).w == s.w
  {
  }

  // Blocks of the merged heap, other than a itself, are where they were.
  lemma ForwardBlock(s: Heap, a: nat, x: nat)
    requires WF(s) && LiveAt(s.blk, a) && x in Forward(s, a).blk && x != a
    ensures x in s.blk && s.blk[x] == Forward(s, a).blk[x]
  {
    hide Tiles, Listed, Tagged, Collate, TidyAt, Keep;
    ReleaseKeeps(s, a);
    CollateKeeps(Release(s, a), a);
  }

  // The block that ends at the free block a swallows it.
  lemma BackGrows(t: Heap, u: Heap, a: nat, p: nat)
    requires WF(t) && FreeAt(t.blk, p) && EndOf(t.blk, p) == a && FreeAt(t.blk, a) && u == Collate(t, p)
    ensures p in u.blk && u.blk[p] != t.blk[p]
    ensures forall x :: x in t.blk && x !in u.blk ==> a <= x
  {
    hide Listed, Tagged, Collate, TidyAt, Keep, Chained;
    CollateKeeps(t, p);
    assert Fits(t.w, t.end, t.blk, a);
  }

  lemma BackEnds(s: Heap, t: Heap, u: Heap, a: nat, p: nat)
    requires WF(s) && LiveAt(s.blk, a) && t == Forward(s, a) && FreeAt(t.blk, p) && EndOf(t.blk, p) == a
    requires u == Collate(t, p) && p in u.blk && FreeAt(t.blk, a) && EndOf(t.blk, a) in EndsFrom(s.blk, a)
    ensures CollateEnds(t.blk, u.blk, p) <= EndsFrom(s.blk, a)
  {
    hide WF, Forward, Collate;
    BackGrows(t, u, a, p);
    forall e | e in CollateEnds(t.blk, u.blk, p)
      ensures e in EndsFrom(s.blk, a)
    {
      var x :| x in t.blk && FreeAt(t.blk, x) && x !in u.blk && e == EndOf(t.blk, x);
      if x != a {
        ForwardBlock(s, a, x);
        assert x in s.blk && a < x && FreeAt(s.blk, x) && EndOf(s.blk, x) == e;
      }
    }
  }

  lemma BackTouches(m0: Buffer, m: Buffer, r: Buffer, s: Heap, t: Heap, u: Heap, a: nat, p: nat)
    requires WF(s) && LiveAt(s.blk, a) && t == Forward(s, a) && FreeAt(t.blk, p) && EndOf(t.blk, p) == a
    requires FreeTouches(m0, m, s, a) && Collated(m, r, t, u, p) && EndOf(t.blk, a) in EndsFrom(s.blk, a)
    ensures FreeTouches(m0, r, s, a)
  {
    hide WF, Touched, Collated, Forward, FreeStarts, CollateEnds, EndsFrom;
    var c, e := FreeStarts(s.blk) + {a}, EndsFrom(s.blk, a);
    CollatedTouches(m, r, t, u, p);
    CollatedKeeps(m, r, t, u, p);
    BackEnds(s, t, u, a, p);
    ReleaseStarts(s, a);
    ForwardEnds(s, a);
    ForwardWidth(s, a);
    TouchedMore(m, r, s.w, FreeStarts(t.blk), CollateEnds(t.blk, u.blk, p), c, e);
    TouchedChain(m0, m, r, s.w, c, e);
  }

  lemma ForwardEnd(m1: Buffer, m: Buffer, s: Heap, a: nat)
    requires WF(s) && LiveAt(s.blk, a) && Collated(m1, m, Release(s, a), Forward(s, a), a)
    ensures a in Forward(s, a).blk && EndOf(Forward(s, a).blk, a) in EndsFrom(s.blk, a)
  {
    hide WF, Collated, Release, Forward, CollateEnds, EndsFrom;
    CollatedTouches(m1, m, Release(s, a), Forward(s, a), a);
    ForwardEnds(s, a);
  }

  // ---- a free led astray -------------------------------------------------------------------

  /** The arena m0 of s became r, and its key block l, by freeing the block at a from
      where a decoy led: once on the list and merged forwards, the block was merged
      into bytes that are none. */
  ghost predicate WentAstray(m0: Buffer, s: Heap, a: nat, r: Buffer, l: Keys)
    requires WF(s) && LiveAt(s.blk, a)
  {
    exists mid :: WentAstrayBy(m0, mid, s, a, r, l)
  }

  ghost predicate WentAstrayBy(m0: Buffer, mid: Buffer, s: Heap, a: nat, r: Buffer, l: Keys)
    requires WF(s) && LiveAt(s.blk, a)
  {
    var t, p := Forward(s, a), Sight(m0, s, a);
    && LinksOnly(m0, mid, s.w, s.blk, a) && StrayPoint(mid, t, p) && t.free[0] == a
    && Waylaid(mid, KeysOf(t), r, l, t, p)
  }

  // What the look back answers when it is not led astray.
  lemma SightFree(m0: Buffer, m: Buffer, s: Heap, a: nat)
    requires WF(s) && LiveAt(s.blk, a) && |m0| == s.end && LinksOnly(m0, m, s.w, s.blk, a)
    requires WF(Forward(s, a)) && Mirrors(m, Forward(s, a)) && !Misled(m0, s, a)
    ensures var t, p := Forward(s, a), Sight(m0, s, a);
      Answers(t.blk, t.tagged, a, p) && (p != 0 ==> FreeAt(t.blk, p) && EndOf(t.blk, p) == a)
  {
    hide WF, Mirrors, LinksOnly, FootAt, LooksFree, Foreseen, ComesBy, Forward, TagLeads;
    SightExact(m0, m, s, a);
    ForwardWidth(s, a);
    TagAnswers(m, Forward(s, a), a);
  }

  lemma StrayHere(m0: Buffer, m: Buffer, s: Heap, a: nat)
    requires WF(s) && LiveAt(s.blk, a) && |m0| == s.end && LinksOnly(m0, m, s.w, s.blk, a)
    requires WF(Forward(s, a)) && Mirrors(m, Forward(s, a)) && Misled(m0, s, a)
    ensures StrayPoint(m, Forward(s, a), Sight(m0, s, a)) && Forward(s, a).free[0] == a
  {
    hide WF, Mirrors, LinksOnly, FootAt, LooksFree, Foreseen, ComesBy, Forward;
    SightExact(m0, m, s, a);
    ForwardHead(s, a);
    ForwardBelow(s, a, 0);
  }

  // The freed block is at the head of the list and ends its run.
  lemma ForwardHead(s: Heap, a: nat)
    requires WF(s) && LiveAt(s.blk, a)
    ensures var t := Forward(s, a);
      && t.free != [] && t.free[0] == a && FreeAt(t.blk, a) && a <= t.end
      && (EndOf(t.blk, a) == t.end || LiveAt(t.blk, EndOf(t.blk, a)))
  {
    hide Listed, Tagged, Collate, TidyAt;
    ReleaseKeeps(s, a);
    CollateKeeps(Release(s, a), a);
    var t := Forward(s, a);
    assert Fits(t.w, t.end, t.blk, a) && Chained(t.end, t.blk, a);
  }

  lemma MergerOf(s: Heap, u: Heap, a: nat)
    requires WF(s) && LiveAt(s.blk, a) && FreedInto(s, u, a)
    ensures Merger(Forward(s, a), u) && u.w == Forward(s, a).w && u.end == Forward(s, a).end
  {
    hide WF, Forward;
    ForwardKeeps(s, a);
  }

  /** A free led astray leaves no heap in which the block was given back, and no heap
      at all if it overwrote no other header. */
  lemma AstrayRuins(m0: Buffer, s: Heap, a: nat, r: Buffer, l: Keys, u: Heap)
    requires WF(s) && LiveAt(s.blk, a) && WentAstray(m0, s, a, r, l) && u.w == s.w && u.end == s.end
    ensures FreedInto(s, u, a) ==> !Tells(r, l, u)
    ensures Contained(m0, s, a) ==> !Tells(r, l, u)
  {
    hide WF, Mirrors, LinksOnly, Forward, Sight, Waylaid, StrayPoint, InBody, KeysOf, FreedInto;
    ForwardHead(s, a);
    ForwardWidth(s, a);
    var t, p := Forward(s, a), Sight(m0, s, a);
    var mid :| WentAstrayBy(m0, mid, s, a, r, l);
    if FreedInto(s, u, a) {
      MergerOf(s, u, a);
      NoMergeEmerges(mid, KeysOf(t), r, l, t, p, u);
    }
    if Contained(m0, s, a) {
      NoHeapEmerges(mid, KeysOf(t), r, l, t, p, u);
    }
  }

  // ---- the three ways a free ends --------------------------------------------------------------

  // The free of the block at a, not led astray, as the model has it.
  ghost predicate FreedBy(m0: Buffer, m: Buffer, s: Heap, t: Heap, a: nat)
    requires WF(s) && LiveAt(s.blk, a)
  {
    var p := Sight(m0, s, a);
    && (p != 0 ==> FreeAt(Forward(s, a).blk, p)) && t == Freed(s, a, p)
    && (exists mid :: AtLookBack(m0, mid, s, a))
    && LiveSame(m0, m, Release(s, a).blk) && FreeTouches(m0, m, s, a)
  }

  // m is the arena of s, first m0, once the block at a is on the list and merged
  // forwards.
  ghost predicate AtLookBack(m0: Buffer, m: Buffer, s: Heap, a: nat)
    requires WF(s) && LiveAt(s.blk, a)
  {
    |m0| == s.end && LinksOnly(m0, m, s.w, s.blk, a) && WF(Forward(s, a)) && Mirrors(m, Forward(s, a))
  }

  /** What the look back of a free answers is right, unless it was led astray. */
  lemma FreedAnswers(m0: Buffer, m: Buffer, s: Heap, t: Heap, a: nat)
    requires WF(s) && LiveAt(s.blk, a) && FreedBy(m0, m, s, t, a) && !Misled(m0, s, a)
    ensures Answers(Forward(s, a).blk, Forward(s, a).tagged, a, Sight(m0, s, a))
  {
    hide WF, Mirrors, LinksOnly, Forward, FreeTouches, Sight, Misled, Answers, LiveSame;
    var mid :| AtLookBack(m0, mid, s, a);
    SightFree(m0, mid, s, a);
  }

  // A free led astray, followed unless the merge rewrites the header it starts from.
  ghost predicate AstrayBy(m0: Buffer, s: Heap, a: nat, r: Buffer, l: Keys)
    requires WF(s) && LiveAt(s.blk, a)
  {
    Steady(m0, s, a) ==> WentAstray(m0, s, a, r, l)
  }

  // Where a free stands before it looks back.
  ghost predicate FreeUnderway(m0: Buffer, m: Buffer, s: Heap, a: nat) {
    && WF(s) && LiveAt(s.blk, a) && |m0| == s.end && LinksOnly(m0, m, s.w, s.blk, a)
    && WF(Forward(s, a)) && Mirrors(m, Forward(s, a))
    && LiveSame(m0, m, Release(s, a).blk) && Stands(Release(s, a).blk, Forward(s, a).blk) && FreeTouches(m0, m, s, a)
    && a in Forward(s, a).blk && EndOf(Forward(s, a).blk, a) in EndsFrom(s.blk, a)
  }

  // What the look back will find, in bytes and in the model.
  ghost predicate Foretold(m0: Buffer, m: Buffer, s: Heap, a: nat)
    requires WF(s) && LiveAt(s.blk, a)
  {
    var p := Sight(m0, s, a);
    && LookBack(m, s.w, a) == p
    && (Misled(m0, s, a) ==> p != 0 && p !in Forward(s, a).blk && StrayPoint(m, Forward(s, a), p))
    && (!Misled(m0, s, a) && p != 0 ==> FreeAt(Forward(s, a).blk, p))
  }

  lemma ForwardDone(m0: Buffer, m1: Buffer, m: Buffer, s: Heap, a: nat)
    requires WF(s) && LiveAt(s.blk, a) && |m0| == s.end
    requires LiveSame(m0, m1, Release(s, a).blk) && LinksOnly(m0, m1, s.w, s.blk, a)
    requires Touched(m0, m1, s.w, FreeStarts(Release(s, a).blk), {})
    requires Collated(m1, m, Release(s, a), Forward(s, a), a) && Mirrors(m, Forward(s, a))
    ensures FreeUnderway(m0, m, s, a) && Foretold(m0, m, s, a)
  {
    hide WF, Mirrors, LiveSame, Release, LinksOnly, Forward, Collated, FreeTouches, Sight, Misled, Stands, StrayPoint,
      Touched, EndsFrom, LookBack;
    ForwardIs(s, a);
    ForwardWidth(s, a);
    ReleaseWidth(s, a);
    CollatedKeeps(m1, m, Release(s, a), Forward(s, a), a);
    ForwardFrame(m0, m1, m, s, a);
    ForwardTouches(m0, m1, m, s, a);
    ForwardEnd(m1, m, s, a);
    SightExact(m0, m, s, a);
    if Misled(m0, s, a) {
      StrayHere(m0, m, s, a);
      StrayIsNone(m, Forward(s, a), Sight(m0, s, a));
    } else {
      SightFree(m0, m, s, a);
    }
  }

  lemma StrayIsNone(m: Buffer, t: Heap, p: nat)
    requires StrayPoint(m, t, p)
    ensures p != 0 && p !in t.blk
  {
  }

  // A free that was led astray.
  lemma BackAstray(m0: Buffer, m: Buffer, r: Buffer, k: Keys, l: Keys, s: Heap, a: nat, followed: bool)
    requires FreeUnderway(m0, m, s, a) && Foretold(m0, m, s, a) && Misled(m0, s, a) && k == KeysOf(Forward(s, a))
    requires if followed then Waylaid(m, k, r, l, Forward(s, a), Sight(m0, s, a))
             else Shifts(Forward(s, a), Sight(m0, s, a))
    ensures AstrayBy(m0, s, a, r, l)
    ensures Steady(m0, s, a) ==>
      forall t: Heap :: t.w == s.w && t.end == s.end && (FreedInto(s, t, a) || Contained(m0, s, a)) ==> !Tells(r, l, t)
  {
    hide WF, Mirrors, LiveSame, LinksOnly, Forward, FreeTouches, Sight, Misled, Stands, StrayPoint, Waylaid, Shifts,
      FreedInto, Tells, KeysOf, Contained;
    if Steady(m0, s, a) {
      ForwardHead(s, a);
      assert WentAstrayBy(m0, m, s, a, r, l);
      forall t: Heap | t.w == s.w && t.end == s.end && (FreedInto(s, t, a) || Contained(m0, s, a))
        ensures !Tells(r, l, t)
      {
        AstrayRuins(m0, s, a, r, l, t);
      }
    }
  }

  // A free that merged backwards.
  lemma BackDone(m0: Buffer, m: Buffer, r: Buffer, s: Heap, t: Heap, a: nat)
    requires FreeUnderway(m0, m, s, a) && Foretold(m0, m, s, a) && !Misled(m0, s, a) && Sight(m0, s, a) != 0
    requires Collated(m, r, Forward(s, a), t, Sight(m0, s, a))
    ensures FreedBy(m0, r, s, t, a) && FreedInto(s, t, a)
  {
    hide WF, Mirrors, LiveSame, LinksOnly, Forward, FreeTouches, Sight, Misled, Stands, StrayPoint, Collated, EndsFrom,
      FreedInto, Answers, Collate;
    var p := Sight(m0, s, a);
    SightFree(m0, m, s, a);
    assert AtLookBack(m0, m, s, a);
    CollatedKeeps(m, r, Forward(s, a), t, p);
    BackFrame(m0, m, r, s, Forward(s, a), a);
    BackTouches(m0, m, r, s, Forward(s, a), t, a, p);
    FreedMerges(s, a, p);
  }

  // A free that found nothing behind.
  lemma NoBackDone(m0: Buffer, m: Buffer, s: Heap, a: nat)
    requires FreeUnderway(m0, m, s, a) && Foretold(m0, m, s, a) && Sight(m0, s, a) == 0
    ensures !Misled(m0, s, a) && FreedBy(m0, m, s, Forward(s, a), a) && FreedInto(s, Forward(s, a), a)
  {
    hide WF, Mirrors, LiveSame, LinksOnly, Forward, FreeTouches, Sight, Misled, Stands, StrayPoint, FreedInto, Answers;
    SightFree(m0, m, s, a);
    assert AtLookBack(m0, m, s, a);
    FreedMerges(s, a, 0);
  }

  // ---- foreseeing, step by step ------------------------------------------------------------------

  lemma ListHasNoZero(s: Heap)
    requires WF(s)
    ensures forall i :: 0 <= i < |s.free| ==> s.free[i] != 0
  {
    NoBlockAtZero(s);
    forall i | 0 <= i < |s.free|
      ensures s.free[i] != 0
    {
      assert s.free[i] in s.free;
    }
  }

  // g is the heap s, mirrored by m, with a on the list and some free blocks behind it
  // merged; those behind that are as they were.
  ghost predicate MergedSoFar(m: Buffer, s: Heap, g: Heap, a: nat) {
    && WF(s) && Mirrors(m, s) && LiveAt(s.blk, a) && WF(g) && FreeAt(g.blk, a)
    && g.w == s.w && g.end == s.end && Collate(g, a) == Forward(s, a)
    && (forall x :: x in g.blk && x != a ==> x in s.blk && s.blk[x] == g.blk[x])
  }

  // What reads at the end of the run merged so far.
  lemma RunReads(m: Buffer, s: Heap, g: Heap, a: nat)
    requires MergedSoFar(m, s, g, a)
    ensures var n := EndOf(g.blk, a);
      && n <= s.end
      && (n < s.end ==> n in s.blk && n in g.blk && n != a && g.blk[n] == s.blk[n])
      && (n < s.end ==> (TypeBits(Get(m, n, 1)) == 0 <==> FreeAt(g.blk, n)) && SizeRead(m, s.w, n) == s.blk[n].size)
  {
    hide Mirrors, Forward, Listed, Tagged, Collate;
    var n := EndOf(g.blk, a);
    assert Fits(g.w, g.end, g.blk, a) && Chained(g.end, g.blk, a);
    if n < s.end {
      KindReads(m, s, n);
      ChainSize(m, s, n);
    }
  }

  lemma MergeBegins(m: Buffer, s: Heap, a: nat)
    requires WF(s) && Mirrors(m, s) && LiveAt(s.blk, a)
    ensures MergedSoFar(m, s, Release(s, a), a) && Release(s, a).free == [a] + s.free
    ensures EndOf(Release(s, a).blk, a) == EndOf(s.blk, a) == a + SizeRead(m, s.w, a)
    ensures var n := EndOf(s.blk, a); n < s.end ==> (TypeBits(Get(m, n, 1)) == 0 <==> FreeAt(Release(s, a).blk, n))
  {
    hide Mirrors;
    ReleaseKeeps(s, a);
    ForwardIs(s, a);
    ChainSize(m, s, a);
    RunReads(m, s, Release(s, a), a);
  }

  lemma MergesOn(m: Buffer, s: Heap, g: Heap, a: nat)
    requires MergedSoFar(m, s, g, a) && EndOf(g.blk, a) < s.end && FreeAt(g.blk, EndOf(g.blk, a))
    ensures var n, h := EndOf(g.blk, a), Absorb(g, a);
      && MergedSoFar(m, s, h, a) && h.free == Remove(g.free, n) && |h.free| < |g.free|
      && SizeRead(m, s.w, n) == s.blk[n].size && EndOf(h.blk, a) == n + SizeRead(m, s.w, n)
      && (EndOf(h.blk, a) < s.end ==> (TypeBits(Get(m, EndOf(h.blk, a), 1)) == 0 <==> FreeAt(h.blk, EndOf(h.blk, a))))
  {
    hide Mirrors, Forward, Tiles, Listed, Tagged, SizeRead, TypeBits;
    RunReads(m, s, g, a);
    AbsorbKeeps(g, a);
    NothingAtEnd(g.w, g.end, g.blk) by { TilesOf(g); }
    RunReads(m, s, Absorb(g, a), a);
  }

  lemma MergedAll(m: Buffer, s: Heap, g: Heap, a: nat)
    requires MergedSoFar(m, s, g, a) && (EndOf(g.blk, a) < s.end ==> !FreeAt(g.blk, EndOf(g.blk, a)))
    ensures Forward(s, a).free == g.free
  {
    hide Mirrors, Forward, Listed, Tagged;
    RunReads(m, s, g, a);
    NothingAtEnd(g.w, g.end, g.blk) by { TilesOf(g); }
  }
}
