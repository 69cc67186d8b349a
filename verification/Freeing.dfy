/** Freeing a block: it joins the head of the list, merges forwards through
    headers, and backwards if its predecessor was found through a tag. */
module Freeing {
  import opened HeapModel

  // What a look behind a may answer: nothing, or a free block that ends at a;
  // and a free block there that certainly carries its tag is not missed.
  ghost predicate Answers(m: Blocks, tags: set<nat>, a: nat, p: nat) {
    && (p != 0 ==> FreeAt(m, p) && EndOf(m, p) == a)
    && (forall x :: x in tags && FreeAt(m, x) && EndOf(m, x) == a ==> p == x)
  }

  // The heap once the block at a is on the list and merged forwards.
  function Forward(s: Heap, a: nat): (t: Heap)
    requires WF(s) && LiveAt(s.blk, a)
    ensures WF(t) && FreeAt(t.blk, a)
  {
    ReleaseKeeps(s, a);
    CollateKeeps(Release(s, a), a);
    Collate(Release(s, a), a)
  }

  // p is the free predecessor the tag in front of a led to, or 0.
  function Freed(s: Heap, a: nat, p: nat): Heap
    requires WF(s) && LiveAt(s.blk, a)
    requires p != 0 ==> FreeAt(Forward(s, a).blk, p)
  {
    if p == 0 then Forward(s, a) else Collate(Forward(s, a), p)
  }

  // The block was given back and nothing else that was live was touched.
  ghost predicate GivenBack(s: Heap, t: Heap, a: nat) {
    && WF(t) && t.w == s.w && t.max == s.max && t.end == s.end
    && SameLive(s.blk - {a}, t.blk)
    && (RootSafe(s) && s.root != a ==> t.root == s.root)
  }

  /** The block was given back, and beyond the merge forwards free blocks were only
      merged. */
  ghost predicate FreedInto(s: Heap, t: Heap, a: nat)
    requires WF(s) && LiveAt(s.blk, a)
  {
    GivenBack(s, t, a) && t.blk.Keys <= Forward(s, a).blk.Keys
  }

  lemma FreedMerges(s: Heap, a: nat, p: nat)
    requires WF(s) && LiveAt(s.blk, a) && Answers(Forward(s, a).blk, Forward(s, a).tagged, a, p)
    ensures FreedInto(s, Freed(s, a, p), a)
  {
    hide Forward, GivenBack;
    FreedKeeps(s, a, p);
    if p != 0 {
      CollateKeeps(Forward(s, a), p);
    }
  }

  lemma ForwardKeeps(s: Heap, a: nat)
    requires WF(s) && LiveAt(s.blk, a)
    ensures GivenBack(s, Forward(s, a), a) && TidyAt(Forward(s, a), a)
  {
    hide WF, Collate, TidyAt;
    ReleaseKeeps(s, a);
    if RootSafe(s) && s.root != a {
      ReleaseRoot(s, a);
    }
    CollateKeeps(Release(s, a), a);
    SwallowedLive(Release(s, a).blk, Forward(s, a).blk, a);
  }

  lemma ReleaseRoot(s: Heap, a: nat)
    requires LiveAt(s.blk, a) && RootSafe(s) && s.root != a
    ensures RootSafe(Release(s, a))
  {
  }

  lemma GivenBackGrows(s: Heap, t: Heap, u: Heap, a: nat, p: nat)
    requires GivenBack(s, t, a) && Grown(t, u, p) && WF(u)
    ensures GivenBack(s, u, a)
  {
    hide WF, Keep, TagsKept;
    SwallowedLive(t.blk, u.blk, p);
  }

  lemma FreedKeeps(s: Heap, a: nat, p: nat)
    requires WF(s) && LiveAt(s.blk, a) && Answers(Forward(s, a).blk, Forward(s, a).tagged, a, p)
    ensures GivenBack(s, Freed(s, a, p), a)
  {
    hide Forward;
    ForwardKeeps(s, a);
    if p != 0 {
      CollateKeeps(Forward(s, a), p);
      GivenBackGrows(s, Forward(s, a), Freed(s, a, p), a, p);
    }
  }

  // Tagged free blocks that end where a starts: there is at most one.
  ghost function Behind(m: Blocks, tags: set<nat>, a: nat): set<nat> {
    set x | x in tags && x in m && EndOf(m, x) == a
  }

  lemma ReleaseTidy(s: Heap, a: nat)
    requires WF(s) && LiveAt(s.blk, a) && Tidy(s)
    ensures var r := Release(s, a); TidyBut(r, Behind(r.blk, r.tagged, a) + {a})
  {
    var r := Release(s, a);
    forall x | FreeAt(r.blk, x) && x !in Behind(r.blk, r.tagged, a) + {a}
      ensures TidyAt(r, x)
    {
      assert TidyAt(s, x);
    }
  }

  // Before the merge backwards only a tagged predecessor of a is untidy.
  lemma ForwardTidy(s: Heap, a: nat)
    requires WF(s) && LiveAt(s.blk, a) && Tidy(s)
    ensures var t := Forward(s, a); TidyBut(t, Behind(t.blk, t.tagged, a))
  {
    var r := Release(s, a);
    ReleaseKeeps(s, a);
    ReleaseTidy(s, a);
    CollateKeeps(r, a);
    var t := Forward(s, a);
    GrownTidy(r, t, a, Behind(r.blk, r.tagged, a) + {a});
  }

  /** Freeing keeps the coalescing guarantee: two adjacent free blocks can remain
      only if the lower one is too small to carry a tag. */
  lemma FreedTidy(s: Heap, a: nat, p: nat)
    requires WF(s) && LiveAt(s.blk, a) && Tidy(s)
    requires Answers(Forward(s, a).blk, Forward(s, a).tagged, a, p)
    ensures Tidy(Freed(s, a, p))
  {
    hide Forward;
    var t := Forward(s, a);
    ForwardTidy(s, a);
    if p != 0 {
      CollateKeeps(t, p);
      GrownTidy(t, Collate(t, p), p, {p});
    }
  }
}
