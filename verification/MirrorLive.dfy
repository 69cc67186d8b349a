/** Rewriting the header of a live block: giving it its type and linking it. */
module MirrorLive {
  import opened Bytes
  import opened HeapModel
  import opened Layout
  import opened Mirror
  import opened MirrorTake
  import opened MirrorWalk
  import opened AllocGuarantee
  import opened Allocator
  import opened Tally

  // The live block at a gets the kind k.
  function Retype(s: Heap, a: nat, k: Kind): Heap
    requires LiveAt(s.blk, a) && k.Live?
  {
    s.(blk := s.blk[a := Block(s.blk[a].size, k)])
  }

  // Live blocks of m stand in n, unchanged.
  ghost predicate Stands(m: Blocks, n: Blocks) {
    forall b :: LiveAt(m, b) ==> LiveAt(n, b) && n[b] == m[b]
  }

  lemma LiveChain(m: Buffer, r: Buffer, t: Buffer, x: Blocks, y: Blocks)
    requires LiveSame(m, r, x) && LiveSame(r, t, y) && Stands(x, y)
    ensures LiveSame(m, t, x)
  {
    forall a | LiveAt(x, a)
      ensures SameOn(m, t, a, EndOf(x, a))
    {
      assert SameOn(r, t, a, EndOf(y, a));
    }
  }

  lemma RetypeKeeps(s: Heap, a: nat, k: Kind)
    requires WF(s) && LiveAt(s.blk, a) && k.Live?
    ensures var t := Retype(s, a, k); WF(t) && SameLive(s.blk - {a}, t.blk - {a})
  {
    hide Tiles;
    RetypeTiles(s.w, s.end, s.blk, a, k);
  }

  lemma RetypeTidy(s: Heap, a: nat, k: Kind)
    requires LiveAt(s.blk, a) && k.Live? && Tidy(s)
    ensures Tidy(Retype(s, a, k))
  {
    var t := Retype(s, a, k);
    forall x | FreeAt(t.blk, x)
      ensures TidyAt(t, x)
    {
      assert TidyAt(s, x);
    }
  }

  lemma RetypeKeys(s: Heap, a: nat, k: Kind)
    requires WF(s) && LiveAt(s.blk, a) && k.Live?
    ensures KeysOf(Retype(s, a, k)) == KeysOf(s)
  {
    RetypeKeeps(s, a, k);
    CountRecast(s.w, s.end, s.blk, Retype(s, a, k).blk, BASE);
  }

  lemma ReleasedLaid(s: Heap, a: nat)
    requires WF(s) && LiveAt(s.blk, a)
    ensures var g := Release(s, a); Laid(g) && g.w == s.w && g.end == s.end && FreeAt(g.blk, a)
    ensures 0 < a < s.end
  {
    ReleaseKeeps(s, a);
    assert Fits(s.w, s.end, s.blk, a);
  }

  lemma RetypeBlocks(m: Buffer, r: Buffer, s: Heap, a: nat, k: Kind)
    requires LiveAt(s.blk, a) && k.Live? && BlocksOk(m, s.w, s.blk) && OthersSame(m, r, s.w, s.blk, a)
    requires Ctl(r, s.w, a).flags == KindFlags(s.w, k) && Ctl(r, s.w, a).size == s.blk[a].size
    ensures BlocksOk(r, s.w, Retype(s, a, k).blk)
  {
    var t := Retype(s, a, k);
    forall b | b in t.blk
      ensures BlockOk(r, s.w, b, t.blk[b])
    {
      assert BlockOk(m, s.w, b, s.blk[b]);
    }
  }

  lemma RetypeLinks(m: Buffer, r: Buffer, s: Heap, a: nat)
    requires Listed(s.blk, s.free) && LiveAt(s.blk, a) && LinksOk(m, s.w, s.free) && OthersSame(m, r, s.w, s.blk, a)
    ensures LinksOk(r, s.w, s.free)
  {
    forall i: nat {:trigger LinkOk(r, s.w, s.free, i)} | i < |s.free|
      ensures LinkOk(r, s.w, s.free, i)
    {
      assert LinkOk(m, s.w, s.free, i) && s.free[i] in s.free;
    }
  }

  lemma RetypeFeet(m: Buffer, r: Buffer, s: Heap, a: nat, k: Kind)
    requires LiveAt(s.blk, a) && k.Live? && Tagged(s.w, s.blk, s.tagged)
    requires FeetOk(m, s.blk, s.tagged) && FeetSame(m, r, Release(s, a).blk, s.tagged)
    ensures FeetOk(r, Retype(s, a, k).blk, s.tagged)
  {
  }

  // The header (and perhaps the links' room) of the live block at a was rewritten.
  ghost predicate Headed(m: Buffer, r: Buffer, s: Heap, a: nat, k: Kind)
    requires LiveAt(s.blk, a)
  {
    && Step(m, r, Release(s, a), a, Ctl(r, s.w, a))
    && Ctl(r, s.w, a).flags == KindFlags(s.w, k) && Ctl(r, s.w, a).size == s.blk[a].size
  }

  /** Rewriting the header of one live block leaves every other block, link and tag
      as it was. */
  lemma RetypeMirrors(m: Buffer, r: Buffer, s: Heap, a: nat, k: Kind)
    requires WF(s) && LiveAt(s.blk, a) && k.Live? && MirrorsBut(m, s, a) && Headed(m, r, s, a, k)
    ensures MirrorsBut(r, Retype(s, a, k), a)
    ensures LiveSame(m, r, Release(s, a).blk)
    ensures 0 < k.typ < 16 ==> Mirrors(r, Retype(s, a, k))
  {
    hide Tiles, Ctl, BlocksOk, LinksOk, FeetOk, OthersSame, FeetSame, LiveSame, ShelterSame, Listed, Tagged;
    assert OthersSame(m, r, s.w, s.blk, a) by { ReleasedOthers(m, r, s, a); }
    RetypeBlocks(m, r, s, a, k);
    RetypeLinks(m, r, s, a);
    RetypeFeet(m, r, s, a, k);
  }

  lemma ReleasedOthers(m: Buffer, r: Buffer, s: Heap, a: nat)
    requires LiveAt(s.blk, a) && OthersSame(m, r, s.w, Release(s, a).blk, a)
    ensures OthersSame(m, r, s.w, s.blk, a)
  {
  }

  lemma RetypeSelf(s: Heap, a: nat)
    requires LiveAt(s.blk, a)
    ensures Retype(s, a, s.blk[a].kind) == s
  {
    assert s.blk[a := s.blk[a]] == s.blk;
  }

  // ---- handing a block out -----------------------------------------------------------

  lemma TakeStands(s: Heap, a: nat, n: nat)
    requires WF(s) && FreeAt(s.blk, a) && MinBlock(s.w) <= n <= s.blk[a].size
    ensures Stands(s.blk, Release(Take(s, a, n), a).blk)
  {
    TakeKeeps(s, a, n);
    assert forall b :: LiveAt(s.blk, b) ==> b != a && b in s.blk - {a};
  }

  lemma RootKeys(s: Heap, a: nat)
    ensures KeysOf(s.(root := a)) == KeysOf(s).(firstAlloc := a)
  {
  }

  lemma RootMirrors(m: Buffer, s: Heap, a: nat, pending: nat)
    requires WF(s) && MirrorsBut(m, s, pending)
    ensures WF(s.(root := a)) && MirrorsBut(m, s.(root := a), pending)
  {
  }

  lemma RootIs(s: Heap)
    ensures KeysOf(s).firstAlloc == s.root
  {
  }

  lemma PendingReads(m: Buffer, s: Heap, a: nat)
    requires WF(s) && MirrorsBut(m, s, a) && a in s.blk
    ensures |m| == s.end && s.blk[a].size <= s.end
  {
    assert Fits(s.w, s.end, s.blk, a);
  }

  // ---- live blocks across a whole allocation ------------------------------------------

  lemma LiveSelf(m: Buffer, s: Heap)
    requires WF(s) && Mirrors(m, s)
    ensures LiveSame(m, m, s.blk) && Stands(s.blk, s.blk)
  {
    assert forall a :: a in s.blk ==> Fits(s.w, s.end, s.blk, a);
  }

  lemma PassLive(m0: Buffer, m1: Buffer, m: Buffer, was: Heap, s1: Heap, s: Heap, n: nat, firstFit: bool, budget: nat,
                 cyclic: bool, best: nat)
    requires WF(s1) && PassEnds(m1, m, s1, s, n, firstFit, budget, cyclic, best)
    requires LiveSame(m0, m1, was.blk) && Stands(was.blk, s1.blk) && Roams(m0, m1, was, s1) && s1.w == was.w
    ensures LiveSame(m0, m, was.blk) && Stands(was.blk, s.blk) && Roams(m0, m, was, s)
    ensures !cyclic ==> Settles(m, s, best)
  {
    hide WF, Walk, Settles, ShelterSame, LiveSame, Roams;
    RoamsChain(m0, m1, m, was, s1, s);
    LiveChain(m0, m1, m, was.blk, s1.blk);
  }

  // What an allocation from s, reached from was, may touch of was's arena.
  lemma RoamsTake(m0: Buffer, m: Buffer, r: Buffer, was: Heap, s: Heap, t: Heap)
    requires Roams(m0, m, was, s) && TakeTouches(m, r, s, t) && s.w == was.w
    ensures TakeTouches(m0, r, was, t)
  {
    hide InControls, InTags, FreeStarts, FreeEnds;
    var c, e := FreeStarts(was.blk) + FreeStarts(s.blk) + FreeStarts(t.blk), FreeEnds(was.blk) + FreeEnds(s.blk);
    TouchedMore(m0, m, was.w, FreeStarts(was.blk), FreeEnds(was.blk), c, e);
    TouchedMore(m, r, was.w, FreeStarts(s.blk) + FreeStarts(t.blk), FreeEnds(s.blk), c, e);
    TouchedChain(m0, m, r, was.w, c, e);
    TouchedMore(m0, r, was.w, c, e, FreeStarts(was.blk) + FreeStarts(t.blk), FreeEnds(was.blk));
  }

  lemma RoamsFrom(m0: Buffer, m: Buffer, was: Heap, s: Heap, a: nat)
    requires Roams(m0, m, was, s)
    ensures FreeAt(s.blk, a) ==> FreeAt(was.blk, a) || was.end <= a
    ensures TakeTouches(m0, m, was, s)
  {
    hide Touched;
    assert FreeAt(s.blk, a) ==> a in FreeStarts(s.blk);
    TouchedMore(m0, m, was.w, FreeStarts(was.blk), FreeEnds(was.blk), FreeStarts(was.blk) + FreeStarts(s.blk),
                FreeEnds(was.blk));
  }

  // A header written last, in the block that was handed over.
  lemma TakeTouchesType(m: Buffer, r: Buffer, u: Buffer, s: Heap, t: Heap, a: nat, k: Kind)
    requires TakeTouches(m, r, s, t) && SameOutside(r, u, a, a + ControlSize(s.w)) && |m| == s.end
    requires (FreeAt(s.blk, a) || s.end <= a) && LiveAt(t.blk, a) && k.Live?
    ensures TakeTouches(m, u, s, Retype(t, a, k))
  {
    assert FreeStarts(Retype(t, a, k).blk) == FreeStarts(t.blk);
    if FreeAt(s.blk, a) {
      TakeTouchesOn(m, r, u, s, t, a);
    } else {
      forall i: nat {:trigger u[i]} | i < |m|
        ensures u[i] == r[i]
      {
      }
    }
  }

  lemma GrowStands(was: Heap, s: Heap, extra: nat)
    requires WF(s) && Stands(was.blk, s.blk)
    ensures Stands(was.blk, Grow(s, extra).blk)
  {
    NothingAtEnd(s.w, s.end, s.blk);
  }

  lemma RetypeFrame(s: Heap, a: nat, k: Kind)
    requires LiveAt(s.blk, a) && k.Live?
    ensures var t := Retype(s, a, k); t.w == s.w && t.max == s.max && t.end == s.end
  {
  }

  // A granted block is not one that was live before; those stand.
  lemma GrantStands(s: Heap, n: nat, budget: nat)
    requires WF(s) && MinBlock(s.w) <= n && |s.free| + 1 <= budget
    requires Run(s, n, false, 0, budget).Granted?
    ensures var r := Run(s, n, false, 0, budget); LiveAt(r.s.blk, r.a) && Stands(s.blk, Release(r.s, r.a).blk)
  {
    hide WF, Run, HasRun, Tidy;
    AllocationServes(s, n, budget);
    var r := Run(s, n, false, 0, budget);
    assert forall b :: LiveAt(s.blk, b) ==> b != r.a;
  }

  /** What the header of a live block of a mirrored heap says. */
  lemma LiveReads(m: Buffer, s: Heap, a: nat)
    requires WF(s) && Mirrors(m, s) && LiveAt(s.blk, a)
    ensures var d := Ctl(m, s.w, a).flags; var k := s.blk[a].kind;
      && 0 < k.typ < 16 && AddressBits(d) == AddressCode(s.w) && TypeBits(d) == k.typ && AllocBit(d)
      && (LinkedBit(d) <==> k.linked) && Flags(AddressCode(s.w), k.typ, true, true) < 256
    ensures Ctl(m, s.w, a).size == s.blk[a].size && |m| == s.end && s.blk[a].size <= s.end
      && s.blk[a].size <= 0xFFFF_FFFF
    ensures MirrorsBut(m, s, a)
  {
    hide LinksOk, FeetOk, Listed;
    NoBlockAtZero(s);
    assert Fits(s.w, s.end, s.blk, a);
    assert BlockOk(m, s.w, a, s.blk[a]);
    FlagsRead(AddressCode(s.w), s.blk[a].kind.typ, true, s.blk[a].kind.linked);
    FlagsRead(AddressCode(s.w), s.blk[a].kind.typ, true, true);
  }
}
