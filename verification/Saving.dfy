/** Taking the tags out of the free blocks before the arena is saved, and putting
    them back. */
module Saving {
  import opened Bytes
  import opened HeapModel
  import opened Layout
  import opened Mirror
  import opened MirrorOps
  import opened MirrorFree

  // A free block with room for a tag.
  predicate Roomy(w: nat, blk: Blocks, a: nat) { FreeAt(blk, a) && FootMin(w) <= blk[a].size }

  /** The heap after a pass over the free blocks in q. */
  function Swept(s: Heap, restore: bool, q: seq<nat>): Heap {
    if restore then s.(tagged := s.tagged + set a | a in q && Roomy(s.w, s.blk, a))
    else s.(tagged := set a | a in s.tagged && a !in q)
  }

  /** The heap once it was saved: every free block with room carries its tag. */
  function Retagged(s: Heap): Heap { s.(tagged := set a | a in s.blk && Roomy(s.w, s.blk, a)) }

  // i lies where the tag of a free block goes.
  ghost predicate InFoot(w: nat, blk: Blocks, i: nat) {
    exists c: nat :: Roomy(w, blk, c) && EndOf(blk, c) <= i + FOOT && i < EndOf(blk, c)
  }

  // The two arenas differ at most where tags go.
  ghost predicate FeetOnly(m: Buffer, r: Buffer, w: nat, blk: Blocks) {
    |m| == |r| && forall i: nat {:trigger r[i]} :: i < |m| && !InFoot(w, blk, i) ==> r[i] == m[i]
  }

  ghost predicate Blank(m: Buffer, e: nat) {
    FOOT <= e <= |m| && forall i :: e - FOOT <= i < e ==> m[i] == 0
  }

  // The tags of the free blocks in q are zeroed.
  ghost predicate Blanked(m: Buffer, w: nat, blk: Blocks, q: seq<nat>) {
    forall a :: a in q && Roomy(w, blk, a) ==> Blank(m, EndOf(blk, a))
  }

  // ---- tags and the rest of the heap ---------------------------------------------------

  lemma TagsKeys(s: Heap, tags: set<nat>)
    requires WF(s) && Tagged(s.w, s.blk, tags)
    ensures WF(s.(tagged := tags)) && KeysOf(s.(tagged := tags)) == KeysOf(s)
  {
    SameSum(s, s.(tagged := tags));
  }

  lemma SweptTagged(s: Heap, restore: bool, q: seq<nat>)
    requires WF(s)
    ensures WF(Swept(s, restore, q)) && KeysOf(Swept(s, restore, q)) == KeysOf(s)
  {
    TagsKeys(s, Swept(s, restore, q).tagged);
  }

  /** Taken out, no block is tagged; put back, every free block with room is. */
  lemma SweptAll(s: Heap)
    requires WF(s)
    ensures Swept(s, false, s.free) == s.(tagged := {})
    ensures Swept(s, true, s.free) == Retagged(s)
    ensures Swept(Swept(s, false, s.free), true, s.free) == Retagged(s) == s.(tagged := Retagged(s).tagged)
  {
    forall a
      ensures a in s.tagged ==> a in s.free && Roomy(s.w, s.blk, a)
      ensures a in s.free && Roomy(s.w, s.blk, a) <==> a in Retagged(s).tagged
    {
    }
    assert Swept(s, false, s.free).tagged == {};
    assert Swept(s, true, s.free).tagged == Retagged(s).tagged;
    assert Swept(Swept(s, false, s.free), true, s.free).tagged == Retagged(s).tagged;
  }

  /** Saving a coalesced heap leaves it coalesced, with nothing but tags changed. */
  lemma RetaggedKeeps(s: Heap)
    requires WF(s)
    ensures WF(Retagged(s)) && KeysOf(Retagged(s)) == KeysOf(s)
    ensures Tidy(s) ==> Tidy(Retagged(s))
  {
    TagsKeys(s, Retagged(s).tagged);
    forall a | Tidy(s) && FreeAt(s.blk, a)
      ensures TidyAt(Retagged(s), a)
    {
      assert TidyAt(s, a);
    }
  }

  // ---- one block -------------------------------------------------------------------------

  lemma FootedFeet(m: Buffer, r: Buffer, s: Heap, a: nat)
    requires FreeAt(s.blk, a) && Footed(m, r, s.w, s.blk, a)
    ensures FeetOnly(m, r, s.w, s.blk)
  {
    if FootMin(s.w) <= s.blk[a].size {
      forall i: nat {:trigger r[i]} | i < |m| && !InFoot(s.w, s.blk, i)
        ensures r[i] == m[i]
      {
        assert Roomy(s.w, s.blk, a);
      }
    }
  }

  lemma FeetOnlyChain(m: Buffer, r: Buffer, t: Buffer, w: nat, blk: Blocks)
    requires FeetOnly(m, r, w, blk) && FeetOnly(r, t, w, blk)
    ensures FeetOnly(m, t, w, blk)
  {
    forall i: nat {:trigger t[i]} | i < |m| && !InFoot(w, blk, i)
      ensures t[i] == m[i]
    {
      assert r[i] == m[i];
    }
  }

  // Writing at the tag of one block leaves those of the others blank.
  lemma BlankStays(m: Buffer, r: Buffer, s: Heap, a: nat, q: seq<nat>)
    requires Laid(s) && FreeAt(s.blk, a) && |m| == s.end && Footed(m, r, s.w, s.blk, a)
    requires Blanked(m, s.w, s.blk, q) && (Roomy(s.w, s.blk, a) ==> Blank(r, EndOf(s.blk, a)))
    ensures Blanked(r, s.w, s.blk, q + [a])
  {
    forall b | b in q + [a] && Roomy(s.w, s.blk, b)
      ensures Blank(r, EndOf(s.blk, b))
    {
      if b != a {
        assert Blank(m, EndOf(s.blk, b));
        Apart(s.w, s.end, s.blk, a, b);
        Apart(s.w, s.end, s.blk, b, a);
      }
    }
  }

  lemma BlankMirrors(m: Buffer, r: Buffer, s: Heap, a: nat)
    requires WF(s) && Mirrors(m, s) && FreeAt(s.blk, a) && Footed(m, r, s.w, s.blk, a)
    ensures Mirrors(r, s.(tagged := s.tagged - {a}))
  {
    hide Tiles, Listed, Ctl, FootAt;
    if FootMin(s.w) <= s.blk[a].size {
      StampFrame(m, r, s, a);
      SameControls(m, r, s);
    }
  }

  // What a pass over q comes to one block later.
  lemma SweptNext(s: Heap, restore: bool, q: seq<nat>, a: nat)
    requires WF(s) && FreeAt(s.blk, a)
    ensures var t := Swept(s, restore, q);
      Swept(s, restore, q + [a]) == if restore then Stamped(t, a) else t.(tagged := t.tagged - {a})
  {
    var t, u := Swept(s, restore, q), Swept(s, restore, q + [a]);
    assert u.tagged == if restore then Stamped(t, a).tagged else t.tagged - {a};
  }

  // Where a pass starts.
  lemma SweepStart(m: Buffer, s: Heap, restore: bool)
    requires WF(s)
    ensures Swept(s, restore, []) == s && FeetOnly(m, m, s.w, s.blk) && Blanked(m, s.w, s.blk, [])
    ensures KeysOf(s).firstFree == if |s.free| > 0 then s.free[0] else 0
  {
    assert Swept(s, restore, []).tagged == s.tagged;
  }

  // One block later.
  lemma SweepStep(o: Buffer, m: Buffer, r: Buffer, s: Heap, restore: bool, q: seq<nat>, a: nat)
    requires WF(s) && |m| == s.end && FreeAt(s.blk, a) && Footed(m, r, s.w, s.blk, a)
    requires FeetOnly(o, m, s.w, s.blk)
    requires !restore ==> Blanked(m, s.w, s.blk, q) && (Roomy(s.w, s.blk, a) ==> Blank(r, EndOf(s.blk, a)))
    ensures var t, u := Swept(s, restore, q), Swept(s, restore, q + [a]);
      && u == (if restore then Stamped(t, a) else t.(tagged := t.tagged - {a}))
      && WF(u) && KeysOf(u) == KeysOf(s)
    ensures FeetOnly(o, r, s.w, s.blk)
    ensures !restore ==> Blanked(r, s.w, s.blk, q + [a])
  {
    hide WF, KeysOf, Swept, FeetOnly, Footed, Blank, Blanked;
    SweptNext(s, restore, q, a);
    SweptTagged(s, restore, q + [a]);
    FootedFeet(m, r, s, a);
    FeetOnlyChain(o, m, r, s.w, s.blk);
    if !restore {
      LaidOf(s);
      BlankStays(m, r, s, a, q);
    }
  }

  lemma LaidOf(s: Heap)
    requires WF(s)
    ensures Laid(s)
  {
  }

  // A pass is over when the list is.
  lemma WholeList(s: Heap, q: seq<nat>)
    requires WF(s) && |q| <= |s.free| && q == s.free[..|q|]
    requires |q| < |s.free| ==> s.free[|q|] == 0
    ensures q == s.free
  {
    NoBlockAtZero(s);
    forall i | 0 <= i < |s.free|
      ensures s.free[i] != 0
    {
      assert s.free[i] in s.free;
    }
  }

  // ---- what saving promises ----------------------------------------------------------------

  /** Live blocks, headers and links are left alone: only tags change. */
  lemma FeetOnlyLive(m: Buffer, r: Buffer, s: Heap)
    requires Laid(s) && |m| == s.end && FeetOnly(m, r, s.w, s.blk)
    ensures LiveSame(m, r, s.blk)
    ensures forall a :: a in s.blk ==> Ctl(m, s.w, a) == Ctl(r, s.w, a)
  {
    forall a, i: nat | a in s.blk && a <= i < EndOf(s.blk, a) && (LiveAt(s.blk, a) || i < a + ControlSize(s.w))
      ensures i < |m| && m[i] == r[i]
    {
      FootsTail(s, a, i);
    }
    forall a | a in s.blk
      ensures Ctl(m, s.w, a) == Ctl(r, s.w, a)
    {
      assert Fits(s.w, s.end, s.blk, a);
      CtlSame(m, r, s.w, a);
    }
    assert forall a :: a in s.blk ==> Fits(s.w, s.end, s.blk, a);
  }

  // Taking the tags out and putting them back, seen from the arena before.
  lemma SavedFrame(m: Buffer, x: Buffer, r: Buffer, s: Heap)
    requires WF(s) && |m| == s.end && FeetOnly(m, x, s.w, s.blk) && FeetOnly(x, r, s.w, s.blk)
    ensures FeetOnly(m, r, s.w, s.blk) && LiveSame(m, x, s.blk) && LiveSame(m, r, s.blk)
  {
    hide FeetOnly, LiveSame, Ctl;
    LaidOf(s);
    FeetOnlyChain(m, x, r, s.w, s.blk);
    FeetOnlyLive(m, x, s);
    FeetOnlyLive(m, r, s);
  }

  lemma FootsTail(s: Heap, a: nat, i: nat)
    requires Laid(s) && a in s.blk && a <= i < EndOf(s.blk, a)
    requires LiveAt(s.blk, a) || i < a + ControlSize(s.w)
    ensures i < s.end && !InFoot(s.w, s.blk, i)
  {
    assert Fits(s.w, s.end, s.blk, a);
    if c: nat :| Roomy(s.w, s.blk, c) && EndOf(s.blk, c) <= i + FOOT && i < EndOf(s.blk, c) {
      if c != a {
        Apart(s.w, s.end, s.blk, a, c);
        Apart(s.w, s.end, s.blk, c, a);
      }
    }
  }

  /** The image that is saved does not depend on which tags are in place: arenas
      that differ only in tags are saved alike. */
  lemma SameImage(m: Buffer, r: Buffer, x: Buffer, y: Buffer, s: Heap)
    requires WF(s) && FeetOnly(m, r, s.w, s.blk) && FeetOnly(m, x, s.w, s.blk) && FeetOnly(r, y, s.w, s.blk)
    requires Blanked(x, s.w, s.blk, s.free) && Blanked(y, s.w, s.blk, s.free)
    ensures x == y
  {
    forall i: nat | i < |x|
      ensures x[i] == y[i]
    {
      if InFoot(s.w, s.blk, i) {
        var c: nat :| Roomy(s.w, s.blk, c) && EndOf(s.blk, c) <= i + FOOT && i < EndOf(s.blk, c);
        assert c in s.free;
        assert Blank(x, EndOf(s.blk, c)) && Blank(y, EndOf(s.blk, c));
      } else {
        assert r[i] == m[i] && x[i] == m[i] && y[i] == r[i];
      }
    }
  }

  /** In the image nothing behind a free block reads as its tag. */
  lemma ImageUntagged(m: Buffer, s: Heap, a: nat)
    requires WF(s) && Blanked(m, s.w, s.blk, s.free) && FreeAt(s.blk, a)
    requires FootMin(s.w) <= s.blk[a].size
    ensures FootAt(m, EndOf(s.blk, a)) == 0 && !TagLeads(m, s.w, EndOf(s.blk, a))
  {
    var e := EndOf(s.blk, a);
    assert Blank(m, e);
    assert m[e - FOOT..e - 8] == [0, 0, 0, 0];
    assert Get(m, e - FOOT, 4) == Decode([0, 0, 0, 0]) == 0;
  }

  // The bytes in front of e read as a tag.
  predicate HasTag(m: Buffer, e: nat) { FOOT <= e <= |m| && Get(m, e - FOOT, 4) == FOOT_MAGIC }

  // No byte of the magic is 0.
  lemma MagicBytes(m: Buffer, e: nat)
    requires HasTag(m, e)
    ensures forall i | e - FOOT <= i < e - 8 :: m[i] != 0
  {
    GetNext(m, e - 12, 4);
    GetNext(m, e - 11, 3);
    GetNext(m, e - 10, 2);
    GetNext(m, e - 9, 1);
    assert m[e - 8..e - 8] == [];
  }

  /** Exactly those ends read as a tag in the image that read as one in the arena and
      whose magic lies clear of where the tags of free blocks go; and a tag wholly clear
      of them names the same size. */
  lemma StaleTags(m: Buffer, x: Buffer, s: Heap, e: nat)
    requires WF(s) && FeetOnly(m, x, s.w, s.blk) && Blanked(x, s.w, s.blk, s.free) && FOOT <= e
    ensures HasTag(x, e) <==> HasTag(m, e) && forall i: nat :: e - FOOT <= i < e - 8 ==> !InFoot(s.w, s.blk, i)
    ensures e <= |m| && (forall i: nat :: e - FOOT <= i < e ==> !InFoot(s.w, s.blk, i)) ==> FootAt(x, e) == FootAt(m, e)
  {
    hide Tiles, Tagged, InFoot, Get;
    if HasTag(x, e) {
      MagicBytes(x, e);
      forall i: nat | e - FOOT <= i < e - 8
        ensures !InFoot(s.w, s.blk, i)
      {
        if InFoot(s.w, s.blk, i) {
          BlankByte(x, s, i);
        }
      }
    }
    if e <= |m| && forall i: nat :: e - FOOT <= i < e - 8 ==> !InFoot(s.w, s.blk, i) {
      assert SameOn(m, x, e - FOOT, e - 8);
      GetSame(m, x, e - FOOT, 4);
      if forall i: nat :: e - FOOT <= i < e ==> !InFoot(s.w, s.blk, i) {
        assert SameOn(m, x, e - FOOT, e);
        FootSame(m, x, e);
      }
    }
  }

  // Where the tags of free blocks go the image is blank.
  lemma BlankByte(x: Buffer, s: Heap, i: nat)
    requires WF(s) && Blanked(x, s.w, s.blk, s.free) && InFoot(s.w, s.blk, i)
    ensures i < |x| && x[i] == 0
  {
    var c: nat :| Roomy(s.w, s.blk, c) && EndOf(s.blk, c) <= i + FOOT && i < EndOf(s.blk, c);
    assert c in s.free;
  }
}
