/** The block heap as the code keeps it: an arena of bytes, the key block at its
    front, and the handle.  Every method does to the bytes what module HeapModel
    and module Allocator say it does to the heap they mirror. */
module Arena {
  import opened Bytes
  import opened HeapModel
  import opened Layout
  import opened Mirror
  import opened MirrorOps
  import opened MirrorTake
  import opened MirrorGrow
  import opened MirrorFree
  import opened MirrorMerge
  import opened MirrorSight
  import opened MirrorStray
  import opened Founding
  import opened Freeing
  import opened Inodes
  import opened Steps
  import opened Saving
  import opened MirrorLive
  import opened MirrorWalk
  import opened Allocator
  import Heaps = HeapModel
  import opened Tally

  class BlockHeap {
    const w: nat             // field width of the addressing mode
    const maxSize: nat    // ceiling on the arena
    var mem: Buffer          // the arena
    var keys: Keys           // its key block
    var arenaSize: nat    // size of the arena
    var used: nat     // bytes handed out
    var inodeStamp: nat     // 0 until an inode is asked for
    var frees: map<nat, nat>    // frees at each address since then
    ghost var s: Heap        // the heap the bytes mirror
    ghost var lost: nat      // bytes of blocks whose freeing was refused
    ghost var astray: bool   // a free was led astray

    // The bytes, the key block and the handle all describe the well-formed heap t.
    ghost predicate Describes(t: Heap)
      reads this`mem, this`keys, this`arenaSize
    {
      && t.w == w && t.max == maxSize && t.end == arenaSize
      && WF(t) && Mirrors(mem, t) && keys == KeysOf(t)
    }

    ghost function Now(): State reads this { State(s, mem, keys, used, inodeStamp, frees, lost, astray) }

    // Everything but the count of bytes handed out.
    ghost predicate Valid() reads this { !astray && Describes(s) }

    // ---- creation --------------------------------------------------------------

    /** A new heap over an arena of initial bytes, plus 8, rounded up to whole
        words; the handle keeps the size before rounding.  There is a heap that all
        of it describes exactly when the size needed no rounding and fits. */
    constructor (width: nat, initial: nat, max: nat)
      requires ValidWidth(width) && BASE + MinBlock(width) <= initial + 8 && initial <= max <= MaxAddress(width)
      ensures w == width && maxSize == max && arenaSize == initial + 8
      ensures SoundSize(initial, max) ==> Valid() && CreatedAs(Now(), width, initial, max)
      ensures (exists t: Heap :: Describes(t)) <==> SoundSize(initial, max)
    {
      hide WF, Mirrors, KeysOf, Fresh, Tidy, RootSafe, SetFlags, SetSize, SetPrev, SetNext, Ctl, Range;
      w, maxSize, arenaSize := width, max, initial + 8;
      used, inodeStamp, frees := 0, 0, map[];
      s, lost, astray := Fresh(width, max, initial + 8), 0, false;
      var n := WholeWords(initial + 8);
      keys := Keys(0, 0, BASE, BASE, n - BASE, 0, 1);
      mem := Zeros(n);
      new;
      FoundingFits(w, initial, maxSize);
      mem := SetFlags(mem, BASE, Flags(AddressCode(w), 0, true, false));
      mem := SetSize(mem, w, BASE, n - BASE);
      mem := SetPrev(mem, w, BASE, 0);
      mem := SetNext(mem, w, BASE, 0);
      mem := SetFlags(mem, BASE, Flags(AddressCode(w), 0, true, true));
      ghost var built := FoundingSteps(w, n, n - BASE);
      if SoundSize(initial, max) {
        FreshKeeps(w, max, initial + 8);
        FreshMirrors(mem, w, max, initial + 8);
        FreshFrame(w, max, initial + 8);
        FoundedBlank(mem, w, n);
        assert Describes(s);
      } else if t: Heap :| Describes(t) {
        UnsoundKeys(w, initial, max, t);
        assert false;
      }
    }

    // ---- reading -------------------------------------------------------------

    function FlagsOf(a: nat): nat reads this { Get(mem, a, 1) }

    function SizeOf(a: nat): nat reads this { SizeRead(mem, w, a) }

    function PrevOf(a: nat): nat reads this { Get(mem, a + 1 + w, w) }

    function NextOf(a: nat): nat reads this { Get(mem, a + 1 + 2 * w, w) }

    predicate IsFree(a: nat) reads this { TypeBits(FlagsOf(a)) == 0 }

    predicate IsAlloc(a: nat) reads this { AllocBit(FlagsOf(a)) }

    predicate IsLinked(a: nat) reads this { LinkedBit(FlagsOf(a)) }

    predicate IsAddr(a: nat) reads this { AddressBits(FlagsOf(a)) == AddressCode(w) }

    // ---- writing one control field of a free block -------------------------------

    method WriteFlags(a: nat, d: nat, ghost g: Heap)
      requires Laid(g) && g.w == w && |mem| == g.end && FreeAt(g.blk, a) && d < 256
      modifies this`mem
      ensures |mem| == |old(mem)| && Ctl(mem, w, a) == Ctl(old(mem), w, a).(flags := d)
      ensures Step(old(mem), mem, g, a, Ctl(mem, w, a))
      ensures SameOutside(old(mem), mem, a, a + 1)
    {
      FitsField(g, a);
      PutFlags(mem, w, a, d);
      ControlStep(mem, SetFlags(mem, a, d), g, a, Ctl(mem, w, a).(flags := d));
      mem := SetFlags(mem, a, d);
    }

    method WriteSize(a: nat, v: nat, ghost g: Heap)
      requires Laid(g) && g.w == w && |mem| == g.end && FreeAt(g.blk, a) && v <= g.end
      modifies this`mem
      ensures |mem| == |old(mem)| && Ctl(mem, w, a) == Ctl(old(mem), w, a).(size := v)
      ensures Step(old(mem), mem, g, a, Ctl(mem, w, a))
      ensures SameOutside(old(mem), mem, a, a + ControlSize(w))
    {
      FitsField(g, a);
      FitsField(g, v);
      PutSize(mem, w, a, v);
      ControlStep(mem, SetSize(mem, w, a, v), g, a, Ctl(mem, w, a).(size := v));
      mem := SetSize(mem, w, a, v);
    }

    method WritePrev(a: nat, v: nat, ghost g: Heap)
      requires Laid(g) && g.w == w && |mem| == g.end && FreeAt(g.blk, a) && v <= g.end
      modifies this`mem
      ensures |mem| == |old(mem)| && Ctl(mem, w, a) == Ctl(old(mem), w, a).(prev := v)
      ensures Step(old(mem), mem, g, a, Ctl(mem, w, a))
      ensures SameOutside(old(mem), mem, a + HeaderSize(w), a + ControlSize(w))
    {
      FitsField(g, a);
      FitsField(g, v);
      PutPrev(mem, w, a, v);
      ControlStep(mem, SetPrev(mem, w, a, v), g, a, Ctl(mem, w, a).(prev := v));
      mem := SetPrev(mem, w, a, v);
    }

    method WriteNext(a: nat, v: nat, ghost g: Heap)
      requires Laid(g) && g.w == w && |mem| == g.end && FreeAt(g.blk, a) && v <= g.end
      modifies this`mem
      ensures |mem| == |old(mem)| && Ctl(mem, w, a) == Ctl(old(mem), w, a).(next := v)
      ensures Step(old(mem), mem, g, a, Ctl(mem, w, a))
      ensures SameOutside(old(mem), mem, a + HeaderSize(w), a + ControlSize(w))
    {
      FitsField(g, a);
      FitsField(g, v);
      PutNext(mem, w, a, v);
      ControlStep(mem, SetNext(mem, w, a, v), g, a, Ctl(mem, w, a).(next := v));
      mem := SetNext(mem, w, a, v);
    }

    // ---- the free list -------------------------------------------------------------

    lemma FreeReads(j: nat)
      requires s.w == w && WF(s) && Mirrors(mem, s) && j < |s.free|
      ensures var x := s.free[j];
        && FreeAt(s.blk, x) && SizeOf(x) == s.blk[x].size
        && IsFree(x) && IsAlloc(x) && IsLinked(x) && IsAddr(x)
        && PrevOf(x) == Before(s.free, j) && NextOf(x) == After(s.free, j)
    {
      hide Mirrors, WF;
      Hooked(mem, s, j);
      FlagsRead(AddressCode(w), 0, true, true);
    }

    // The first half of isolation: the predecessor skips the block.
    method UnhookPrev(x: nat, prev: nat, next: nat, ghost j: nat)
      requires s.w == w && WF(s) && |mem| == s.end && Between(s, j, x, prev, next)
      requires prev == 0 ==> Ctl(mem, w, x).prev == 0
      modifies this`mem
      ensures Quiet(old(mem), mem, s)
      ensures forall b :: b in s.blk ==> Ctl(mem, w, b) == Unprev(Ctl(old(mem), w, b), s.free, j, b)
      ensures LinksOnly(old(mem), mem, w, s.blk, x) && |mem| == |old(mem)|
      ensures Touched(old(mem), mem, w, FreeStarts(s.blk), {})
    {
      hide WF, Step, Quiet, Ctl, LinksOnly, Touched;
      QuietWhole(mem, s, x);
      TouchedSelf(mem, w, FreeStarts(s.blk), {});
      if prev != 0 {
        WriteNext(prev, next, s);
        ghost var m := mem;
        WritePrev(x, 0, s);
        LinksTwice(old(mem), m, mem, w, s.blk, prev, x);
        LinkFieldsTouched(old(mem), m, mem, w, s.blk, prev, x);
        TwoSteps(old(mem), m, mem, s, prev, Ctl(m, w, prev), x, Ctl(mem, w, x));
      } else {
        assert 0 !in s.blk by { NoBlockAtZero(s); }
      }
    }

    // The second half: the successor skips the block.
    method UnhookNext(x: nat, prev: nat, next: nat, ghost j: nat)
      requires s.w == w && WF(s) && |mem| == s.end && Between(s, j, x, prev, next)
      requires next == 0 ==> Ctl(mem, w, x).next == 0
      modifies this`mem
      ensures Quiet(old(mem), mem, s)
      ensures forall b :: b in s.blk ==> Ctl(mem, w, b) == Unnext(Ctl(old(mem), w, b), s.free, j, b)
      ensures LinksOnly(old(mem), mem, w, s.blk, x) && |mem| == |old(mem)|
      ensures Touched(old(mem), mem, w, FreeStarts(s.blk), {})
    {
      hide WF, Step, Quiet, Ctl, LinksOnly, Touched;
      QuietWhole(mem, s, x);
      TouchedSelf(mem, w, FreeStarts(s.blk), {});
      if next != 0 {
        WritePrev(next, prev, s);
        ghost var m := mem;
        WriteNext(x, 0, s);
        LinksTwice(old(mem), m, mem, w, s.blk, next, x);
        LinkFieldsTouched(old(mem), m, mem, w, s.blk, next, x);
        TwoSteps(old(mem), m, mem, s, next, Ctl(m, w, next), x, Ctl(mem, w, x));
      } else {
        assert 0 !in s.blk by { NoBlockAtZero(s); }
      }
    }

    // The block itself gives up its linked flag and any type.
    method Unlink(x: nat)
      requires s.w == w && WF(s) && |mem| == s.end && FreeAt(s.blk, x)
      requires Ctl(mem, w, x).flags == KindFlags(w, Kind.Free)
      modifies this`mem
      ensures Step(old(mem), mem, s, x, Ctl(old(mem), w, x).(flags := KindFlags(w, PENDING)))
      ensures SameOutside(old(mem), mem, x, x + ControlSize(w))
    {
      FlagsRead(AddressCode(w), 0, true, true);
      FlagsRead(AddressCode(w), 0, true, false);
      WriteFlags(x, Flags(AddressBits(FlagsOf(x)), 0, AllocBit(FlagsOf(x)), false), s);
    }

    method IsolateLinks(x: nat, prev: nat, next: nat, ghost j: nat)
      requires s.w == w && WF(s) && Mirrors(mem, s) && Between(s, j, x, prev, next)
      modifies this`mem
      ensures Isolated(old(mem), mem, s, j) && LinksOnly(old(mem), mem, w, s.blk, x)
    {
      hide WF, Mirrors, Quiet, Ctl, LinksOnly, Touched;
      Hooked(mem, s, j);
      MirrorLength(mem, s);
      UnhookPrev(x, prev, next, j);
      ghost var m1 := mem;
      UnhookNext(x, prev, next, j);
      QuietChain(old(mem), m1, mem, s);
      ghost var m2 := mem;
      Unlink(x);
      QuietChain(old(mem), m2, mem, s);
      LinksThrice(old(mem), m1, m2, mem, w, s.blk, x);
      TouchedAt(m2, mem, w, FreeStarts(s.blk), {}, x);
      TouchedChain(old(mem), m1, m2, w, FreeStarts(s.blk), {});
      TouchedChain(old(mem), m2, mem, w, FreeStarts(s.blk), {});
    }

    // The key block forgets the block.
    method IsolateKeys(x: nat, prev: nat, next: nat, size: nat)
      requires size <= keys.freeSize && 0 < keys.freeEntries
      modifies this`keys
      ensures keys == Delist(old(keys), x, prev, next, size)
    {
      if keys.firstAlloc == x {
        keys := keys.(firstAlloc := if prev != 0 then prev else next);
      }
      if keys.firstFree == x {
        keys := keys.(firstFree := if prev != 0 then prev else next);
      }
      if keys.lastFree == x {
        keys := keys.(lastFree := if next != 0 then next else prev);
      }
      keys := keys.(freeSize := keys.freeSize - size, freeEntries := keys.freeEntries - 1);
    }

    // What isolation reads before it writes anything.
    method ReadHook(x: nat) returns (prev: nat, next: nat, size: nat, ghost j: nat)
      requires s.w == w && WF(s) && Mirrors(mem, s) && FreeAt(s.blk, x)
      ensures Between(s, j, x, prev, next) && size == s.blk[x].size
    {
      j := FreeIndex(s, x);
      FreeReads(j);
      Hooked(mem, s, j);
      prev, next, size := PrevOf(x), NextOf(x), SizeOf(x);
    }

    /** Takes the free block at x off the list.  It is left unlinked; the caller
        decides what becomes of it. */
    method Isolate(x: nat) returns (ghost j: nat)
      requires Valid() && FreeAt(s.blk, x)
      modifies this`mem, this`keys
      ensures Delisted(old(mem), old(keys), mem, keys, s, j, x) && LinksOnly(old(mem), mem, w, s.blk, x)
    {
      hide WF, Mirrors, Isolated, Delist, KeysOf, LinksOnly;
      var prev, next, size;
      prev, next, size, j := ReadHook(x);
      DelistedKeys(s, j, x, prev, next);
      IsolateKeys(x, prev, next, size);
      IsolateLinks(x, prev, next, j);
    }

    // ---- collation -----------------------------------------------------------------

    lemma FreeReadsAt(a: nat)
      requires s.w == w && WF(s) && Mirrors(mem, s) && FreeAt(s.blk, a)
      ensures SizeOf(a) == s.blk[a].size && IsFree(a) && IsAlloc(a) && IsLinked(a) && IsAddr(a)
      ensures BASE <= a && EndOf(s.blk, a) <= s.end && a < s.end && 0 < s.blk[a].size
    {
      var j := FreeIndex(s, a);
      FreeReads(j);
      assert Fits(s.w, s.end, s.blk, a);
    }

    /** Writes the tag of the block at a if it reads as a free one with room for it. */
    method StampFoot(a: nat)
      modifies this`mem
      ensures mem == StampOf(old(mem), w, arenaSize, a)
    {
      if a != 0 && a < arenaSize && IsFree(a) && FootMin(w) <= SizeOf(a) && a + SizeOf(a) <= arenaSize {
        mem := SetFoot(mem, a + SizeOf(a), SizeOf(a));
      }
    }

    // What collation reads at a block and its neighbour.
    lemma NeighbourReads(a: nat)
      requires Valid() && FreeAt(s.blk, a)
      ensures SizeOf(a) == s.blk[a].size && EndOf(s.blk, a) <= s.end
      ensures AddressBits(FlagsOf(a)) == AddressCode(w)
      ensures var n := EndOf(s.blk, a); n < s.end ==>
        && a != n && AddressBits(FlagsOf(n)) == AddressCode(w)
        && (IsFree(n) <==> FreeAt(s.blk, n)) && (IsFree(n) ==> SizeOf(n) != 0)
    {
      var n := EndOf(s.blk, a);
      FreeReadsAt(a);
      KindReads(mem, s, a);
      assert Chained(s.end, s.blk, a);
      if n < s.end {
        KindReads(mem, s, n);
        if FreeAt(s.blk, n) {
          FreeReadsAt(n);
        }
      }
    }

    /** The free block n leaves the list and its size is added to that of a.  If
        taking it off the list rewrites the very header that reads at a, what the
        code goes on to do is not followed. */
    method Absorb(a: nat, n: nat) returns (followed: bool, ghost j: nat, ghost iso: Buffer, ghost k: Keys)
      requires Valid() && FreeAt(s.blk, n)
      modifies this`mem, this`keys
      ensures Delisted(old(mem), old(keys), iso, k, s, j, n) && LinksOnly(old(mem), iso, w, s.blk, n)
      ensures followed <==> SameHeader(old(mem), iso, w, a)
      ensures followed ==> mem == AbsorbOf(iso, w, arenaSize, a, n)
      ensures followed ==> keys == k.(freeSize := k.freeSize + SizeRead(iso, w, n))
    {
      hide WF, Mirrors, KeysOf, Delisted, LinksOnly, StampOf, SetSize, SetFlags, SizeRead;
      var flags, size := FlagsOf(a), Get(mem, a + 1, w);
      j := Isolate(n);
      iso, k := mem, keys;
      followed := FlagsOf(a) == flags && Get(mem, a + 1, w) == size;
      if !followed {
        return;
      }
      keys := keys.(freeSize := keys.freeSize + SizeOf(n));
      mem := SetSize(mem, w, a, Get(mem, a + 1, w) + Get(mem, n + 1, w));
      mem := SetFlags(mem, n, 0);
      StampFoot(a);
    }

    // A turn of the collation of a free block.
    ghost predicate Collating(m0: Buffer, was: Heap, a: nat) reads this { Valid() && CollateAt(m0, mem, was, s, a) }

    // A collation from where no block starts, before its merge and after it.
    ghost predicate Straying(m0: Buffer, k0: Keys, was: Heap, a: nat, merged: bool)
      reads this
    {
      && s == was && w == was.w && arenaSize == was.end && StrayPoint(m0, was, a) && k0 == KeysOf(was)
      && if merged then exists iso, d :: WaylaidBy(m0, k0, iso, d, mem, keys, was, a)
         else Valid() && mem == m0
    }

    lemma CollatingReads(m0: Buffer, was: Heap, a: nat)
      requires Collating(m0, was, a)
      ensures FreeAt(s.blk, a) && SizeOf(a) == s.blk[a].size && EndOf(s.blk, a) <= s.end == arenaSize
      ensures AddressBits(FlagsOf(a)) == AddressCode(w)
      ensures var n := EndOf(s.blk, a); n < s.end ==>
        && a != n && AddressBits(FlagsOf(n)) == AddressCode(w)
        && (IsFree(n) <==> FreeAt(s.blk, n)) && (IsFree(n) ==> SizeOf(n) != 0)
    {
      hide WF, Mirrors, KeysOf, Kept, Buried, Swallowed, LinksOnly, Touched, Heaps.Collate, SizeOf, IsFree, FlagsOf;
      NeighbourReads(a);
    }

    lemma StrayingReads(m0: Buffer, k0: Keys, was: Heap, a: nat, merged: bool)
      requires Straying(m0, k0, was, a, merged)
      ensures was.free[0] in was.blk && a != was.free[0]
      ensures a + SizeOf(a) == if merged then EndOf(was.blk, was.free[0]) else was.free[0]
      ensures 0 < SizeOf(a) && (!merged ==> a + SizeOf(a) < arenaSize)
      ensures var n := a + SizeOf(a); n < arenaSize ==>
        && AddressBits(FlagsOf(n)) == AddressCode(w) && (IsFree(n) <==> !merged) && (IsFree(n) ==> SizeOf(n) != 0)
      ensures merged ==> StampOf(mem, w, arenaSize, a) == mem && Waylaid(m0, k0, mem, keys, was, a)
      ensures !merged ==> AddressBits(FlagsOf(a)) == AddressCode(w) && FreeAt(was.blk, was.free[0])
    {
      hide WF, Mirrors, KeysOf, Isolated, Delist, LooksFree, StampOf, AbsorbOf, AddressBits, TypeBits, Get, SizeRead;
      if merged {
        var iso, d :| WaylaidBy(m0, k0, iso, d, mem, keys, was, a);
        IsoLength(m0, iso, was);
        StrayAfter(m0, iso, was, a);
        StrayReads(m0, was, a);
      } else {
        StrayReads(m0, was, a);
      }
    }

    // The merge of a collation of a free block.
    lemma CollatingTurn(m0: Buffer, m: Buffer, k: Keys, iso: Buffer, l: Keys, was: Heap, t: Heap, j: nat, a: nat)
      requires CollateAt(m0, m, was, t, a) && Mirrors(m, t) && k == KeysOf(t) && t.w == w && t.end == arenaSize
      requires t.max == maxSize && FreeAt(t.blk, EndOf(t.blk, a))
      requires Delisted(m, k, iso, l, t, j, EndOf(t.blk, a)) && LinksOnly(m, iso, w, t.blk, EndOf(t.blk, a))
      ensures SameHeader(m, iso, w, a)
      ensures var n, u := EndOf(t.blk, a), Heaps.Absorb(t, a); var r := AbsorbOf(iso, w, arenaSize, a, n);
        && CollateAt(m0, r, was, u, a) && WF(u) && Mirrors(r, u) && |u.free| < |t.free|
        && l.(freeSize := l.freeSize + SizeRead(iso, w, n)) == KeysOf(u)
        && u.w == w && u.end == arenaSize && u.max == maxSize
    {
      hide WF, Mirrors, Kept, Buried, Swallowed, LinksOnly, Touched, Isolated, Heaps.Collate, Heaps.Absorb, KeysOf,
        Covers,
        AbsorbOf, SameHeader;
      var n := EndOf(t.blk, a);
      MergeStart(m, k, iso, l, t, j, a, n);
      MergeHeader(m, k, iso, l, t, j, a, n);
      AbsorbSound(m, k, iso, l, t, j, a, n);
      CollateStep(t, a);
      CollateTurn(m0, m, AbsorbOf(iso, w, arenaSize, a, n), l.(freeSize := l.freeSize + SizeRead(iso, w, n)),
                  was, t, a);
      AbsorbParts(t, a);
    }

    // A merge that is not followed rewrote the header it starts from.
    lemma StrayingShift(m: Buffer, k: Keys, iso: Buffer, d: Keys, was: Heap, j: nat, a: nat)
      requires StrayPoint(m, was, a) && Delisted(m, k, iso, d, was, j, was.free[0]) && w == was.w
      ensures SameHeader(m, iso, w, a) || Shifts(was, a)
    {
      hide WF, Mirrors, Isolated, Delist, LooksFree, SameHeader, Shifts;
      HeadIndex(was, j);
      IsoLength(m, iso, was);
      if !Shifts(was, a) {
        SteadyHeader(m, iso, was, a);
      }
    }

    // The merge of a collation from where no block starts.
    lemma StrayingTurn(m: Buffer, k: Keys, iso: Buffer, d: Keys, was: Heap, j: nat, a: nat)
      requires StrayPoint(m, was, a) && k == KeysOf(was) && Delisted(m, k, iso, d, was, j, was.free[0]) && w == was.w
      requires SameHeader(m, iso, w, a) && arenaSize == was.end
      ensures was.free[0] in was.blk
      ensures WaylaidBy(m, k, iso, d, AbsorbOf(iso, w, arenaSize, a, was.free[0]),
                        d.(freeSize := d.freeSize + SizeRead(iso, w, was.free[0])), was, a)
    {
      hide WF, Mirrors, KeysOf, Isolated, Delist, LooksFree, AbsorbOf, SizeRead;
      HeadIndex(was, j);
      StrayHeadSize(m, iso, was, a);
    }

    /** Merges the block at a with every free block behind it.  If no block starts
        at a, but a free block behind makes it look so, that one is lost. */
    method Collate(a: nat) returns (size: nat, followed: bool)
      requires Valid() && (FreeAt(s.blk, a) || StrayPoint(mem, s, a))
      modifies this`mem, this`keys, this`s
      ensures old(FreeAt(s.blk, a)) ==> followed && Valid() && Collated(old(mem), mem, old(s), s, a)
      ensures old(FreeAt(s.blk, a)) ==> a in s.blk && size == s.blk[a].size
      ensures !old(FreeAt(s.blk, a)) ==> s == old(s)
      ensures !old(FreeAt(s.blk, a)) && followed ==> Waylaid(old(mem), old(keys), mem, keys, s, a)
      ensures !old(FreeAt(s.blk, a)) && !followed ==> Shifts(s, a)
    {
      hide WF, Mirrors, KeysOf, CollateAt, Collated, StrayPoint, Waylaid, WaylaidBy, Delisted, LinksOnly, SameHeader,
        SizeOf, IsFree, FlagsOf, Heaps.Absorb, Heaps.Collate, AbsorbOf, StampOf, Shifts;
      ghost var m0, k0, was, stray, merged := mem, keys, s, !FreeAt(s.blk, a), false;
      followed := true;
      var mode := AddressBits(FlagsOf(a));
      if stray {
        StrayingReads(m0, k0, was, a, false);
      } else {
        CollateBegins(mem, s, a);
        CollatingReads(m0, was, a);
      }
      while true
        invariant followed && mode == AddressCode(w)
        invariant stray ==> Straying(m0, k0, was, a, merged)
        invariant !stray ==> Collating(m0, was, a)
        decreases if stray then if merged then 0 else 1 else |s.free|
      {
        if stray {
          StrayingReads(m0, k0, was, a, merged);
        } else {
          CollatingReads(m0, was, a);
        }
        size := SizeOf(a);
        var next := a + size;
        if next >= arenaSize {
          if !stray {
            CollateAtEnd(m0, mem, was, s, a);
          }
          return;
        }
        if mode != AddressBits(FlagsOf(next)) || a == next {
          assert false;      // address corruption
        }
        if !IsFree(next) {
          if !stray {
            CollateTags(m0, mem, was, s, a);
          }
          StampFoot(a);
          s := if stray then s else Stamped(s, a);
          return;
        }
        if SizeOf(next) == 0 {
          assert false;      // a free neighbour of no size
        }
        ghost var m, k := mem, keys;
        ghost var j, iso, l;
        followed, j, iso, l := Absorb(a, next);
        if stray {
          StrayingShift(m, k, iso, l, was, j, a);
          if followed {
            StrayingTurn(m, k, iso, l, was, j, a);
          }
          merged := true;
        } else {
          CollatingTurn(m0, m, k, iso, l, was, s, j, a);
          s := Heaps.Absorb(s, a);
        }
        if !followed {
          return;
        }
      }
    }

    // ---- splitting -----------------------------------------------------------------

    // A fresh block record at x: flags, size and no links.
    method InitBlock(x: nat, flags: nat, size: nat, ghost g: Heap)
      requires Laid(g) && g.w == w && |mem| == g.end && FreeAt(g.blk, x) && flags < 256 && size <= g.end
      modifies this`mem
      ensures |mem| == |old(mem)| && Ctl(mem, w, x) == Control(flags, size, 0, 0)
      ensures Step(old(mem), mem, g, x, Ctl(mem, w, x))
    {
      hide Laid, Step, Ctl;
      WriteFlags(x, flags, g);
      ghost var m := mem;
      WriteSize(x, size, g);
      StepAgain(old(mem), m, mem, g, x);
      m := mem;
      WritePrev(x, 0, g);
      StepAgain(old(mem), m, mem, g, x);
      m := mem;
      WriteNext(x, 0, g);
      StepAgain(old(mem), m, mem, g, x);
    }

    // The remainder x of a split: a free block between prev and next on the list.
    method MakeExtra(x: nat, size: nat, prev: nat, next: nat, ghost g: Heap)
      requires Laid(g) && g.w == w && |mem| == g.end && FreeAt(g.blk, x)
      requires size <= g.end && prev <= g.end && next <= g.end
      modifies this`mem
      ensures |mem| == |old(mem)| && Ctl(mem, w, x) == Control(KindFlags(w, Kind.Free), size, prev, next)
      ensures Step(old(mem), mem, g, x, Ctl(mem, w, x))
    {
      hide Laid, Step, Ctl;
      FlagsRead(AddressCode(w), 0, true, false);
      FlagsRead(AddressCode(w), 0, true, true);
      InitBlock(x, Flags(AddressCode(w), 0, true, false), size, g);
      ghost var m := mem;
      WriteNext(x, next, g);
      StepAgain(old(mem), m, mem, g, x);
      m := mem;
      WritePrev(x, prev, g);
      StepAgain(old(mem), m, mem, g, x);
      m := mem;
      WriteFlags(x, Flags(AddressCode(w), 0, true, true), g);
      StepAgain(old(mem), m, mem, g, x);
    }

    // The neighbours prev and next on the list point at x.
    method Relink(x: nat, prev: nat, next: nat, ghost g: Heap)
      requires Laid(g) && g.w == w && |mem| == g.end && x <= g.end && 0 !in g.blk
      requires (prev != 0 ==> FreeAt(g.blk, prev)) && (next != 0 ==> FreeAt(g.blk, next))
      requires prev != 0 ==> prev != next
      modifies this`mem
      ensures Relinked(old(mem), mem, g, x, prev, next)
    {
      hide Laid, Step, Ctl, Kept, FeetSame;
      LaidQuiet(mem, g);
      if prev != 0 {
        WriteNext(prev, x, g);
        RelinkPrev(old(mem), mem, g, x, prev);
      }
      ghost var m := mem;
      if next != 0 {
        WritePrev(next, x, g);
        RelinkNext(old(mem), m, mem, g, x, prev, next);
      }
    }

    // The front of a split: handed over, so no longer linked.
    method ClaimFront(a: nat, n: nat, ghost g: Heap)
      requires Laid(g) && g.w == w && |mem| == g.end && FreeAt(g.blk, a) && n <= g.end
      requires FlagsOf(a) == KindFlags(w, Kind.Free)
      modifies this`mem
      ensures |mem| == |old(mem)| && Ctl(mem, w, a) == Control(KindFlags(w, PENDING), n, 0, 0)
      ensures Step(old(mem), mem, g, a, Ctl(mem, w, a))
    {
      hide Laid, Step;
      FlagsRead(AddressCode(w), 0, true, true);
      var flags := FlagsOf(a);
      InitBlock(a, flags, n, g);
      ghost var m := mem;
      WriteFlags(a, Flags(AddressBits(flags), TypeBits(flags), true, false), g);
      StepAgain(old(mem), m, mem, g, a);
    }

    // All the bytes of a split.
    method CarveBytes(a: nat, n: nat, ghost j: nat)
      requires s.w == w && s.end == arenaSize && SplitPoint(mem, s, j, a, n)
      modifies this`mem
      ensures SplitBytes(old(mem), mem, s, j, a, n)
    {
      hide SplitPoint, SplitBytes, Laid, Step, Relinked, StampedBytes, FreeReading, KindFlags, StampOf, LinksOnly,
        Footed;
      SplitFacts(mem, s, j, a, n);
      var prev, next, size := PrevOf(a), NextOf(a), SizeOf(a);
      var x := a + n;
      ghost var m, g := mem, Halved(s, a, n);
      MakeExtra(x, size - n, prev, next, g);
      ghost var m1 := mem;
      Relink(x, prev, next, g);
      ghost var m2 := mem;
      AfterRelink(m, m1, m2, s, j, a, n);
      ReadsFree(mem, g, x);
      StampLaid(mem, g, x);
      StampFoot(x);
      ghost var m3 := mem;
      AfterStamp(m2, m3, g, x, a);
      ClaimFront(a, n, Stamped(g, x));
      SplitDone(m, m1, m2, m3, mem, s, j, a, n);
    }

    // Valid, but for the block at a that has been handed over and not typed yet.
    ghost predicate Pending(a: nat)
      reads this
    {
      && !astray && s.w == w && s.max == maxSize && s.end == arenaSize
      && WF(s) && MirrorsBut(mem, s, a) && keys == KeysOf(s)
      && a in s.blk && s.blk[a].kind == PENDING
    }

    method CarveBlock(a: nat, n: nat)
      requires Valid() && FreeAt(s.blk, a) && MinBlock(w) <= n <= s.blk[a].size && Splits(w, s.blk, a, n)
      modifies this`mem, this`keys, this`s
      ensures s == Take(old(s), a, n) && Pending(a) && LiveSame(old(mem), mem, old(s).blk)
      ensures TakeTouches(old(mem), mem, old(s), s)
    {
      hide WF, MirrorsBut, KeysOf, LiveSame, Take, Splits, TakeTouches;
      TakeParts(s, a, n);
      CarvedKeys(s, a, n);
      ghost var j := SplitIndex(mem, s, a, n);
      CarveBytes(a, n, j);
      SplitMirrors(old(mem), mem, s, j, a, n);
      SplitLive(old(mem), mem, s, j, a, n);
      SplitTouches(old(mem), mem, s, j, a, n);
      keys := keys.(allocSize := keys.allocSize + n, allocEntries := keys.allocEntries + 1,
                    freeSize := keys.freeSize - n);
      if keys.firstFree == a {
        keys := keys.(firstFree := a + n);
      }
      if keys.lastFree == a {
        keys := keys.(lastFree := a + n);
      }
      s := Take(s, a, n);
    }

    method AdoptBlock(a: nat, ghost n: nat)
      requires Valid() && FreeAt(s.blk, a) && MinBlock(w) <= n <= s.blk[a].size && !Splits(w, s.blk, a, n)
      modifies this`mem, this`keys, this`s
      ensures s == Take(old(s), a, n) && Pending(a) && LiveSame(old(mem), mem, old(s).blk)
      ensures TakeTouches(old(mem), mem, old(s), s)
    {
      hide WF, MirrorsBut, KeysOf, LiveSame, Take, Splits, Delisted, TakeTouches;
      TakeParts(s, a, n);
      FreeReadsAt(a);
      var size := SizeOf(a);
      ghost var j := Isolate(a);
      AdoptKeys(old(mem), old(keys), mem, keys, s, j, a, n);
      AdoptMirrors(old(mem), old(keys), mem, keys, s, j, a, n);
      AdoptTouches(old(mem), old(keys), mem, keys, s, j, a, Take(s, a, n));
      keys := keys.(allocSize := keys.allocSize + size, allocEntries := keys.allocEntries + 1);
      s := Take(s, a, n);
    }

    /** Splits the free block at a, or hands all of it over. */
    method SplitAlloc(a: nat, n: nat) returns (size: nat)
      requires Valid() && FreeAt(s.blk, a) && MinBlock(w) <= n <= s.blk[a].size
      modifies this`mem, this`keys, this`s
      ensures s == Take(old(s), a, n) && Pending(a) && LiveSame(old(mem), mem, old(s).blk)
      ensures size == s.blk[a].size && TakeTouches(old(mem), mem, old(s), s)
    {
      hide WF, MirrorsBut, KeysOf, LiveSame, Take, TakeTouches;
      TakeParts(s, a, n);
      FreeReadsAt(a);
      size := SizeOf(a);
      if size - n < MinBlock(w) {
        AdoptBlock(a, n);
      } else {
        CarveBlock(a, n);
        size := n;
      }
    }

    // ---- growth --------------------------------------------------------------------

    /** How much of a wished-for growth the ceiling allows: at least what is needed,
        or nothing. */
    method CapGrowth(needed: nat, wish: nat) returns (ok: bool, extra: nat)
      requires needed <= wish && arenaSize <= maxSize
      ensures ok <==> arenaSize + needed <= maxSize
      ensures ok ==> needed <= extra <= wish && arenaSize + extra <= maxSize
      ensures ok ==> extra == wish || arenaSize + extra == maxSize
    {
      var room := if maxSize > arenaSize then maxSize - arenaSize else 0;
      ok, extra := needed <= room, wish;
      if extra > room {
        extra := room;
      }
    }

    // The new block at the old end x, behind the last free block.
    method AppendBlock(x: nat, extra: nat, last: nat, ghost m: Buffer)
      requires s.w == w && GrowPoint(m, s, extra) && x == s.end && arenaSize == s.end + extra
      requires last == Last(s.free) && |mem| == arenaSize && mem[..s.end] == m
      modifies this`mem
      ensures Mirrors(mem, Grow(s, extra)) && LiveSame(m, mem, s.blk) && |mem| == arenaSize
      ensures Touched(m, mem, w, FreeStarts(s.blk), {})
    {
      hide GrowPoint, Laid, Step, Relinked, StampedBytes, FreeReading, KindFlags, Mirrors, LiveSame, Last, StampOf,
        LinksOnly, Footed, Touched;
      GrowFacts(m, s, extra);
      ghost var z, n, g := mem[s.end..], mem, Untagged(s, extra);
      assert m + z == mem;
      MakeExtra(x, extra, last, 0, g);
      ghost var m1 := mem;
      Relink(x, last, 0, g);
      ghost var m2 := mem;
      AfterAppend(n, m1, m2, g, x, last);
      ReadsFree(mem, g, x);
      StampLaid(mem, g, x);
      StampFoot(x);
      GrowMirrors(m, z, m1, m2, mem, s, extra);
    }

    /** Grows the arena by at least needed bytes, or refuses because the ceiling is
        too near. */
    method Resize(needed: nat, oversize: bool) returns (ok: bool)
      requires Valid() && MinBlock(w) <= needed
      modifies this`mem, this`keys, this`s, this`arenaSize
      ensures ok <==> old(s).end + needed <= old(s).max
      ensures !ok ==> s == old(s) && mem == old(mem)
      ensures ok ==> s == Grow(old(s), if oversize then Extra(old(s), needed) else needed)
      ensures Valid() && LiveSame(old(mem), mem, old(s).blk)
      ensures ok ==> Roams(old(mem), mem, old(s), s)
    {
      hide Laid, Listed, Mirrors, LiveSame, KeysOf, Grow, Touched, Roams;
      GrowStart(mem, s);
      var x := arenaSize;
      var wish := if oversize && x * 2 / 10 > needed then x * 2 / 10 else needed;
      var extra;
      ok, extra := CapGrowth(needed, wish);
      if !ok {
        return;
      }
      GrowthKeys(mem, s, extra);
      var last := keys.lastFree;
      mem := mem + Zeros(extra);
      arenaSize := x + extra;
      AppendBlock(x, extra, last, old(mem));
      GrowRoams(old(mem), mem, s, extra);
      keys := keys.(freeSize := keys.freeSize + extra, freeEntries := keys.freeEntries + 1, lastFree := x);
      if keys.firstFree == 0 {
        keys := keys.(firstFree := x);
      }
      s := Grow(s, extra);
    }

    // ---- allocation ----------------------------------------------------------------

    // The collation of one turn of a pass, and what it leaves at the block a.
    method CollateHere(a: nat, ghost m0: Buffer, ghost was: Heap, ghost front: seq<nat>, ghost rest: seq<nat>,
                       ghost n: nat, ghost firstFit: bool, ghost f: Search, ghost left: nat, ghost budget: nat)
      returns (ghost next: seq<nat>)
      requires Valid() && rest != [] && a == rest[0] && left > 0
      requires PassAt(m0, mem, was, s, front, rest, n, firstFit, f, left, budget)
      modifies this`mem, this`keys, this`s
      ensures Valid() && old(FreeAt(s.blk, a)) && s == Heaps.Collate(old(s), a)
      ensures FreeAt(s.blk, a) && SizeOf(a) == s.blk[a].size
      ensures Held(mem, s, f.best) && Kept(m0, mem, was) && Covers(was.blk, s.blk) && Roams(m0, mem, was, s)
      ensures Reached(s, next + [a], Ahead(rest[1..], s.blk)) && NextOf(a) == First(Ahead(rest[1..], s.blk))
    {
      hide WF, Mirrors, KeysOf, Kept, Covers, Walk, Reached, Ahead, Held, Buried, Heaps.Collate, SizeOf, NextOf,
        PassAt, Roams, Collated;
      PassStands(m0, mem, was, s, front, rest, n, firstFit, f, left, budget);
      MirrorLength(mem, s);
      var _, _ := Collate(a);
      CollatedKeeps(old(mem), mem, old(s), s, a);
      MirrorLength(mem, s);
      CollatedRoams(old(mem), mem, old(s), s, a);
      next := PassTurn(m0, old(mem), mem, was, old(s), s, front, rest, n, firstFit, f, left, budget);
      FreeReads(|next|);
    }

    // One pass over the free list for a block of n bytes.
    method FindBest(n: nat, firstFit: bool, maxVisits: nat) returns (cyclic: bool, best: nat)
      requires Valid() && MinBlock(w) <= n
      modifies this`mem, this`keys, this`s
      ensures Valid() && PassEnds(old(mem), mem, old(s), s, n, firstFit, maxVisits, cyclic, best)
    {
      hide WF, Mirrors, Kept, Covers, Walk, Reached, Ahead, Held, Heaps.Collate, SizeOf, NextOf, PassAt, PassEnds,
        Settles, Roams;
      ghost var m0, was, front, rest := mem, s, [], s.free;
      MirrorLength(mem, s);
      PassStarts(mem, s, n, firstFit, maxVisits);
      var walked: nat, bestSize: nat, fits: nat := 0, 0, 0;
      cyclic, best := false, 0;
      var a := keys.firstFree;
      while a != 0
        invariant Valid() && walked <= maxVisits && a == First(rest) && s.w == w
        invariant PassAt(m0, mem, was, s, front, rest, n, firstFit, Search(best, bestSize, fits),
                         maxVisits - walked, maxVisits)
        decreases |rest|
      {
        ghost var f, left := Search(best, bestSize, fits), maxVisits - walked;
        PassStands(m0, mem, was, s, front, rest, n, firstFit, f, left, maxVisits);
        walked := walked + 1;
        if walked > maxVisits {
          PassOver(m0, mem, was, s, front, rest, n, firstFit, f, left, maxVisits);
          cyclic := true;
          return;
        }
        WalkStep(s, rest, n, firstFit, f, left);
        ghost var next := CollateHere(a, m0, was, front, rest, n, firstFit, f, left, maxVisits);
        var size := SizeOf(a);
        if size >= n {
          if firstFit || size - n < MinBlock(w) {
            best := a;
            PassTakes(m0, mem, was, s, n, firstFit, maxVisits, best);
            return;
          }
          ConsiderHeld(mem, s, a, n, f);
          if best == 0 || size < bestSize {
            best, bestSize := a, size;
          }
          fits := fits + 1;
          if fits >= FIT_WALK {
            PassTakes(m0, mem, was, s, n, firstFit, maxVisits, best);
            return;
          }
        }
        PassGoes(m0, mem, was, s, next, rest, n, firstFit, Search(best, bestSize, fits), left - 1, maxVisits);
        a := NextOf(a);
        front, rest := next + [rest[0]], Ahead(rest[1..], s.blk);
      }
      PassStands(m0, mem, was, s, front, rest, n, firstFit, Search(best, bestSize, fits),
                 maxVisits - walked, maxVisits);
      PassOver(m0, mem, was, s, front, rest, n, firstFit, Search(best, bestSize, fits), maxVisits - walked, maxVisits);
    }

    // The re-check of the chosen block: it is found wanting exactly when it is
    // not a free block of n bytes any more.
    method Survives(b: nat, n: nat) returns (ok: bool)
      requires Valid() && b != 0 && Settles(mem, s, b)
      ensures ok <==> FitAt(s.blk, n, b)
    {
      hide WF, Mirrors, SizeOf, IsFree, IsAlloc, IsLinked;
      if FreeAt(s.blk, b) {
        FreeReadsAt(b);
      } else {
        GraveReads(mem, w, s.blk, b);
      }
      ok := !(!IsAddr(b) || !IsAlloc(b) || !IsLinked(b) || !IsFree(b) || SizeOf(b) < n);
    }

    // A fresh header for the block at a that was handed over.
    method InitPending(a: nat, size: nat)
      requires Pending(a) && size == s.blk[a].size
      modifies this`mem
      ensures Pending(a) && LiveSame(old(mem), mem, Release(s, a).blk)
      ensures SameOutside(old(mem), mem, a, a + ControlSize(w))
    {
      hide WF, MirrorsBut, KeysOf, LiveSame, Release, Ctl, Step;
      ReleasedLaid(s, a);
      PendingReads(mem, s, a);
      FlagsRead(AddressCode(w), 0, true, false);
      InitBlock(a, Flags(AddressCode(w), 0, true, false), size, Release(s, a));
      StepOutside(old(mem), mem, Release(s, a), a, Ctl(mem, w, a));
      RetypeMirrors(old(mem), mem, s, a, PENDING);
      RetypeSelf(s, a);
    }

    /** Hands out n bytes or a little more of the free block at a. */
    method HandOut(a: nat, n: nat) returns (size: nat)
      requires Valid() && FitAt(s.blk, n, a) && MinBlock(w) <= n
      modifies this`mem, this`keys, this`s
      ensures s == Hand(old(s), a, n) && Pending(a) && size == s.blk[a].size
      ensures LiveSame(old(mem), mem, old(s).blk) && TakeTouches(old(mem), mem, old(s), s)
    {
      hide WF, Mirrors, MirrorsBut, KeysOf, LiveSame, Take, Stands, TakeTouches, SameOutside;
      TakeStands(s, a, n);
      size := SplitAlloc(a, n);
      ghost var m := mem;
      InitPending(a, size);
      LiveChain(old(mem), m, mem, old(s).blk, Release(s, a).blk);
      TakeTouchesOn(old(mem), m, mem, old(s), s, a);
      RootIs(s);
      if keys.firstAlloc == 0 {
        TakeTouchesSame(old(mem), mem, old(s), s, s.(root := a));
        RootKeys(s, a);
        RootMirrors(mem, s, a, a);
        keys := keys.(firstAlloc := a);
        s := s.(root := a);
      }
    }

    /** The whole allocation: passes, the first-fit retry and growth. */
    method AllocBSTRio(n: nat) returns (g: Grant)
      requires Valid() && MinBlock(w) <= n
      modifies this`mem, this`keys, this`s, this`arenaSize
      ensures Arrives(Run(old(s), n, false, 0, MaxBlocks(w, old(s).end)), g)
      ensures LiveSame(old(mem), mem, old(s).blk) && TakeTouches(old(mem), mem, old(s), s)
      ensures g.Give? ==> FreeAt(old(s).blk, g.a) || old(s).end <= g.a
    {
      hide WF, Mirrors, MirrorsBut, KeysOf, LiveSame, Stands, Walk, Run, PassEnds, Settles, Hand, Grow, Roams,
        TakeTouches;
      ghost var m0, was := mem, s;
      var maxVisits, resizes, firstFit := MaxBlocks(w, arenaSize), 0, false;
      LiveSelf(mem, s);
      MirrorLength(mem, s);
      RoamsSelf(mem, s);
      while true
        invariant Valid() && resizes <= MAX_RESIZES && s.w == was.w && Roams(m0, mem, was, s)
        invariant Run(s, n, firstFit, resizes, maxVisits) == Run(was, n, false, 0, maxVisits)
        invariant LiveSame(m0, mem, was.blk) && Stands(was.blk, s.blk)
        decreases MAX_RESIZES - resizes, !firstFit
      {
        ghost var m1, s1 := mem, s;
        var cyclic, best := FindBest(n, firstFit, maxVisits);
        PassRun(m1, mem, s1, s, n, firstFit, resizes, maxVisits, cyclic, best);
        PassLive(m0, m1, mem, was, s1, s, n, firstFit, maxVisits, cyclic, best);
        RoamsFrom(m0, mem, was, s, best);
        if cyclic {
          return Deny(CyclicList);
        }
        if best != 0 {
          var ok := Survives(best, n);
          if !ok {
            if firstFit {
              return Deny(ChosenLost);
            }
            firstFit := true;
          } else {
            ghost var m2, s2 := mem, s;
            var size := HandOut(best, n);
            LiveChain(m0, m2, mem, was.blk, s2.blk);
            RoamsTake(m0, m2, mem, was, s2, s);
            return Give(best, size);
          }
        } else {
          resizes := resizes + 1;
          if resizes > MAX_RESIZES {
            return Deny(TooManyResizes);
          }
          ghost var m2, s2 := mem, s;
          var grown := Resize(n, true);
          LiveChain(m0, m2, mem, was.blk, s2.blk);
          if !grown {
            return Deny(ArenaFull);
          }
          GrowStands(was, s2, Extra(s2, n));
          RoamsChain(m0, m2, mem, was, s2, s);
        }
      }
    }

    // What an allocation leaves: the heap the model arrives at, with the block
    // it granted still to be given its type.
    ghost predicate Arrives(o: Outcome, g: Grant)
      reads this
    {
      match o
      case Granted(t, a) => s == t && Pending(a) && g == Give(a, s.blk[a].size)
      case Refused(t, why) => s == t && Valid() && g == Deny(why)
    }

    // The header of a block just handed over is written anew, with its type.
    method TypeBlock(a: nat, typ: nat, size: nat)
      requires Pending(a) && 0 < typ < 16 && size == s.blk[a].size
      modifies this`mem, this`s
      ensures s == Retype(old(s), a, Live(typ, false)) && Valid()
      ensures LiveSame(old(mem), mem, Release(old(s), a).blk) && SameOutside(old(mem), mem, a, a + ControlSize(w))
    {
      hide WF, MirrorsBut, KeysOf, LiveSame, Release, Ctl, Step, Retype;
      ReleasedLaid(s, a);
      PendingReads(mem, s, a);
      FlagsRead(AddressCode(w), typ, true, false);
      RetypeKeeps(s, a, Live(typ, false));
      RetypeKeys(s, a, Live(typ, false));
      WriteFlags(a, Flags(AddressCode(w), typ, true, false), Release(s, a));
      ghost var m := mem;
      WriteSize(a, size, Release(s, a));
      StepAgain(old(mem), m, mem, Release(s, a), a);
      RetypeMirrors(old(mem), mem, s, a, Live(typ, false));
      RetypeFrame(s, a, Live(typ, false));
      s := Retype(s, a, Live(typ, false));
    }

    /** Allocates a block for request bytes of payload, of type typ. */
    method Alloc(typ: nat, request: nat) returns (g: Grant)
      requires Valid() && 0 < typ < 16 && request < WORD
      modifies this`mem, this`keys, this`s, this`arenaSize, this`used
      ensures Valid() && LiveSame(old(mem), mem, old(s).blk)
      ensures g == Reply(old(Now()), request) && Next(old(Now()), Event.Alloc(typ, request), Now())
    {
      hide WF, Mirrors, MirrorsBut, KeysOf, LiveSame, Stands, Run, Retype, Release, TakeTouches;
      LiveSelf(mem, s);
      MirrorLength(mem, s);
      BudgetCovers(s);
      var n := (request + HeaderSize(w)) % WORD;
      if n < MinBlock(w) {
        n := MinBlock(w);
      }
      if (used + n) % WORD > maxSize {
        return Deny(OverCeiling);
      }
      g := AllocBSTRio(n);
      if g.Give? {
        GrantStands(old(s), n, MaxBlocks(w, old(s).end));
        ghost var m, t := mem, s;
        used := (used + g.size) % WORD;
        TypeBlock(g.a, typ, g.size);
        LiveChain(old(mem), m, mem, old(s).blk, Release(t, g.a).blk);
        TakeTouchesType(old(mem), m, mem, old(s), t, g.a, Live(typ, false));
      }
    }

    /** The client marks a live block as linked into its structures. */
    method Link(a: nat)
      requires Valid() && LiveAt(s.blk, a)
      modifies this`mem, this`s
      ensures Valid() && Next(old(Now()), Event.Link(a), Now())
      ensures LiveSame(old(mem), mem, Release(old(s), a).blk)
    {
      hide WF, Mirrors, MirrorsBut, KeysOf, LiveSame, Release, Step, Retype;
      ghost var k := Live(s.blk[a].kind.typ, true);
      ReleasedLaid(s, a);
      RetypeKeeps(s, a, k);
      RetypeKeys(s, a, k);
      RetypeFrame(s, a, k);
      LiveReads(mem, s, a);
      var flags := FlagsOf(a);
      WriteFlags(a, Flags(AddressBits(flags), TypeBits(flags), AllocBit(flags), true), Release(s, a));
      RetypeMirrors(old(mem), mem, s, a, k);
      s := Retype(s, a, k);
    }

    // ---- freeing -------------------------------------------------------------------

    // The links of the block a, about to be the head of the list before next.
    method LinkFront(a: nat, next: nat, ghost g: Heap)
      requires Laid(g) && g.w == w && |mem| == g.end && FreeAt(g.blk, a) && next <= g.end
      modifies this`mem
      ensures Step(old(mem), mem, g, a, Ctl(old(mem), w, a).(prev := 0, next := next))
      ensures SameOutside(old(mem), mem, a, a + ControlSize(w))
    {
      hide Laid, Step, Ctl;
      WritePrev(a, 0, g);
      ghost var m := mem;
      WriteNext(a, 0, g);
      StepAgain(old(mem), m, mem, g, a);
      if next != 0 {
        m := mem;
        WriteNext(a, next, g);
        StepAgain(old(mem), m, mem, g, a);
      }
    }

    // The bytes of a release.
    method ReleaseBytes(a: nat, firstFree: nat)
      requires s.w == w && FreePoint(mem, s, a) && LiveAt(s.blk, a) && firstFree == First(s.free)
      modifies this`mem
      ensures Released(old(mem), mem, s, a) && LinksOnly(old(mem), mem, w, s.blk, a)
      ensures Touched(old(mem), mem, w, FreeStarts(Release(s, a).blk), {})
    {
      hide WF, FreePoint, Laid, Step, Released, LinksOnly, KindFlags, AllocBit, LinkedBit, AddressBits, Release,
        Touched;
      ghost var g := Release(s, a);
      FreeFacts(mem, s, a);
      LinkFront(a, firstFree, g);
      ghost var m1 := mem;
      if firstFree != 0 {
        WritePrev(firstFree, a, g);
      }
      ghost var m2 := mem;
      var flags := FlagsOf(a);
      FrontFlags(old(mem), m1, m2, s, a);
      WriteFlags(a, Flags(AddressBits(flags), 0, AllocBit(flags), LinkedBit(flags)), g);
      ReleaseDone(old(mem), m1, m2, mem, s, a);
      FrontLinks(old(mem), m1, m2, mem, s, a);
      FrontTouched(old(mem), m1, m2, mem, s, a);
    }

    /** The free block that ends at a, if the tag there leads to one. */
    method PrevFree(a: nat) returns (p: nat)
      requires Valid() && BASE <= a <= arenaSize
      ensures p == LookBack(mem, w, a)
    {
      hide WF, Mirrors, Get;
      if a <= HeaderSize(w) + FOOT || a > arenaSize {
        return 0;
      }
      if Get(mem, a - FOOT, 4) != FOOT_MAGIC {
        return 0;
      }
      var size := Get(mem, a - 8, 8);
      if size < FootMin(w) || size >= a {
        return 0;
      }
      p := a - size;
      if p < HeaderSize(w) {
        return 0;
      }
      if !IsAddr(p) || !IsAlloc(p) || !IsLinked(p) || !IsFree(p) {
        return 0;
      }
      if SizeOf(p) != size {
        return 0;
      }
    }

    // A live block goes to the head of the free list.
    method ReleaseBlock(a: nat)
      requires Valid() && LiveAt(s.blk, a) && s.blk[a].kind.linked
      modifies this`mem, this`keys, this`s
      ensures s == Release(old(s), a) && Valid() && LiveSame(old(mem), mem, s.blk)
      ensures LinksOnly(old(mem), mem, w, old(s).blk, a) && Touched(old(mem), mem, w, FreeStarts(s.blk), {})
    {
      hide WF, Mirrors, KeysOf, LiveSame, Release, LinksOnly, Released, Touched;
      var size := SizeOf(a);
      ReleasedKeys(s, a);
      ReleasedLaid(s, a);
      FreeFacts(mem, s, a);
      FreeKeys(s);
      var firstFree := keys.firstFree;
      ReleaseBytes(a, firstFree);
      ReleaseMirrors(old(mem), mem, s, a);
      ReleaseFrame(s, a);
      keys := keys.(firstFree := a);
      if keys.lastFree == 0 {
        keys := keys.(lastFree := a);
      }
      keys := keys.(freeSize := keys.freeSize + size, allocSize := keys.allocSize - size,
                    freeEntries := keys.freeEntries + 1, allocEntries := keys.allocEntries - 1);
      s := Release(s, a);
    }

    /** Gives the block at a back: onto the list, merged forwards, and backwards if
        the tag in front of it leads to what reads as a free block.  Some heap with
        the block given back is described afterwards exactly when that is no decoy. */
    method FreeBSTRio(a: nat)
      requires Valid() && LiveAt(s.blk, a) && s.blk[a].kind.linked
      modifies this`mem, this`keys, this`s, this`astray
      ensures astray <==> Misled(old(mem), old(s), a)
      ensures !astray ==> Valid() && FreedBy(old(mem), mem, old(s), s, a)
      ensures astray ==> s == old(s) && AstrayBy(old(mem), old(s), a, mem, keys)
      ensures Steady(old(mem), old(s), a) ==>
        ((exists t: Heap :: Describes(t) && FreedInto(old(s), t, a)) <==> !Misled(old(mem), old(s), a))
      ensures astray && Steady(old(mem), old(s), a) && Contained(old(mem), old(s), a) ==>
        !exists t: Heap :: Describes(t)
    {
      hide WF, Mirrors, KeysOf, LiveSame, Release, LinksOnly, Forward, Collated, FreeTouches, Sight, Misled, Stands,
        StrayPoint, Waylaid, Shifts, Steady, Contained, FreedInto, FreedBy, AstrayBy, Touched, FreeUnderway, LookBack;
      ghost var was, m0 := s, mem;
      MirrorLength(mem, s);
      ReleasedLaid(s, a);
      ReleaseBlock(a);
      ghost var m1 := mem;
      ForwardIs(was, a);
      var _, _ := Collate(a);
      CollatedKeeps(m1, mem, Release(was, a), s, a);
      ForwardDone(m0, m1, mem, was, a);
      var behind := PrevFree(a);
      if behind != 0 {
        ghost var m2, t, k := mem, s, keys;
        var _, followed := Collate(behind);
        if Misled(m0, was, a) {
          astray, s := true, was;
          BackAstray(m0, m2, mem, k, keys, was, a, followed);
        } else {
          BackDone(m0, m2, mem, was, s, a);
        }
      } else {
        NoBackDone(m0, mem, was, a);
      }
    }

    // The free list as its next fields spell it.
    method FreeList() returns (q: seq<nat>)
      requires Valid()
      ensures q == s.free
    {
      hide WF, Mirrors, KeysOf, NextOf;
      FreeKeys(s);
      ListHasNoZero(s);
      q := [];
      var a := keys.firstFree;
      while a != 0
        invariant |q| <= |s.free| && q == s.free[..|q|] && a == if |q| < |s.free| then s.free[|q|] else 0
        decreases |s.free| - |q|
      {
        FreeReads(|q|);
        q := q + [a];
        a := NextOf(a);
      }
    }

    /** Whether freeing the block at a would be led astray, told from the arena and the
        free list before the block is freed. */
    method WouldStray(a: nat) returns (stray: bool)
      requires Valid() && LiveAt(s.blk, a)
      ensures stray == Misled(mem, s, a)
    {
      hide WF, Mirrors, KeysOf, Forward, Release, LedAstray, Respell, Heaps.Collate, Heaps.Absorb, SizeRead, TypeBits;
      ForwardIs(s, a);
      ghost var g := Release(s, a);
      var q := FreeList();
      q := [a] + q;
      MergeBegins(mem, s, a);
      var n := a + SizeOf(a);
      while n < arenaSize && IsFree(n)
        invariant MergedSoFar(mem, s, g, a) && q == g.free && n == EndOf(g.blk, a)
        invariant n < arenaSize ==> (IsFree(n) <==> FreeAt(g.blk, n))
        decreases |g.free|
      {
        MergesOn(mem, s, g, a);
        q := Remove(q, n);
        n := n + SizeOf(n);
        g := Heaps.Absorb(g, a);
      }
      MergedAll(mem, s, g, a);
      stray := LedAstray(Respell(mem, w, q, |q|), w, a);
    }

    // Judges a block about to be freed.  One that is allocated, typed and of this
    // heap's addressing mode, but not linked, is marked linked in passing.
    method ValidAlloc(a: nat) returns (ok: bool)
      requires Valid() && a in s.blk
      modifies this`mem, this`s
      ensures Valid() && ok == (LiveAt(old(s).blk, a) && old(s).blk[a].kind.linked)
      ensures s == if Unlinked(old(s).blk, a) then Retype(old(s), a, Live(old(s).blk[a].kind.typ, true)) else old(s)
      ensures ok ==> mem == old(mem)
      ensures SameOutside(old(mem), mem, a, a + 1)
      ensures LiveAt(old(s).blk, a) ==> LiveSame(old(mem), mem, Release(old(s), a).blk)
      ensures FreeAt(old(s).blk, a) ==> mem == old(mem)
    {
      hide WF, Mirrors, KeysOf, LiveSame, Retype, Release, AddressBits, TypeBits, AllocBit, LinkedBit;
      BlockReads(mem, s, a);
      KindReads(mem, s, a);
      if LiveAt(s.blk, a) {
        LiveStays(mem, s, a);
      }
      ok := true;
      if !RecordFits(mem, arenaSize, a) {
        return false;
      }
      if !IsAlloc(a) {
        ok := false;
      }
      if !IsLinked(a) {
        ok := false;
        if !IsFree(a) && IsAddr(a) && IsAlloc(a) {
          Link(a);
        }
      } else {
        if IsFree(a) {
          ok := false;
        }
        if !IsAddr(a) {
          ok := false;
        }
      }
    }

    /** Frees the block at a.  The bytes handed out go down by its size even when
        the block turns out not to be one that can be freed. */
    method Free(a: nat) returns (ok: bool)
      requires Valid() && a in s.blk
      modifies this`mem, this`keys, this`s, this`used, this`frees, this`lost, this`astray
      ensures ok == Freeable(old(s).blk, a) && Next(old(Now()), Event.Free(a), Now())
      ensures astray <==> ok && Misled(old(mem), old(s), a)
      ensures !astray ==> Valid()
      ensures ok && Steady(old(mem), old(s), a) ==>
        ((exists t: Heap :: Describes(t) && FreedInto(old(s), t, a)) <==> !Misled(old(mem), old(s), a))
      ensures astray && Steady(old(mem), old(s), a) && Contained(old(mem), old(s), a) ==>
        !exists t: Heap :: Describes(t)
    {
      hide WF, Mirrors, KeysOf, LiveSame, Retype, Release, Forward, FreedBy, Sight, Misled, Steady, Contained, AstrayBy,
        FreedInto;
      SizeReads(mem, s, a);
      var size := SizeOf(a);
      used := (used + (WORD - size)) % WORD;
      ok := ValidAlloc(a);
      if !ok {
        lost := lost + size;
        return;
      }
      FreeBSTRio(a);
      if inodeStamp != 0 {
        frees := Bumped(frees, a);
      }
    }

    // The client writes payload of a live block: bytes past its header.
    method Store(a: nat, at: nat, data: Buffer)
      requires Valid() && LiveAt(s.blk, a)
      requires a + HeaderSize(w) <= at && at + |data| <= EndOf(s.blk, a)
      modifies this`mem
      ensures Valid() && Next(old(Now()), Event.Store(a), Now())
      ensures |mem| == |old(mem)| && mem == old(mem)[..at] + data + old(mem)[at + |data|..]
      ensures LiveSame(old(mem), mem, Release(s, a).blk)
    {
      hide WF, Mirrors, KeysOf, LiveSame, Release;
      StoreMirrors(mem, s, a, at, data);
      mem := mem[..at] + data + mem[at + |data|..];
    }

    // ---- saving --------------------------------------------------------------------

    // Zeroes the room for a tag at the end of a free block.
    method BlankFoot(a: nat)
      requires Valid() && FreeAt(s.blk, a)
      modifies this`mem, this`s
      ensures s == old(s).(tagged := old(s).tagged - {a}) && Mirrors(mem, s) && Footed(old(mem), mem, w, s.blk, a)
      ensures Roomy(w, s.blk, a) ==> Blank(mem, EndOf(s.blk, a))
    {
      hide WF, Mirrors, KeysOf, SizeOf, IsFree;
      FreeReadsAt(a);
      MirrorLength(mem, s);
      var size := SizeOf(a);
      if IsFree(a) && FootMin(w) <= size && a + size <= arenaSize {
        mem := mem[..a + size - FOOT] + Zeros(FOOT) + mem[a + size..];
      }
      BlankMirrors(old(mem), mem, s, a);
      s := s.(tagged := s.tagged - {a});
    }

    /** Takes the tags out of the free blocks, or puts them back. */
    method ScrubFoots(restore: bool)
      requires Valid()
      modifies this`mem, this`s
      ensures Valid() && s == Swept(old(s), restore, old(s).free) && FeetOnly(old(mem), mem, w, s.blk)
      ensures !restore ==> Blanked(mem, w, s.blk, s.free)
    {
      hide WF, Mirrors, KeysOf, Swept, FeetOnly, Footed, Blank, Kept, LinksOnly, FlagsOf, SizeOf, PrevOf;
      ghost var was, q := s, [];
      SweepStart(mem, s, restore);
      var a, maxFree, walked := keys.firstFree, MaxBlocks(w, arenaSize), 0;
      while a != 0
        invariant |q| <= |was.free| && q == was.free[..|q|] && walked == |q|
        invariant a == if |q| < |was.free| then was.free[|q|] else 0
        invariant Valid() && s == Swept(was, restore, q) && s.blk == was.blk && s.free == was.free
        invariant FeetOnly(old(mem), mem, w, was.blk)
        invariant !restore ==> Blanked(mem, w, was.blk, q)
        decreases |was.free| - |q|
      {
        walked := walked + 1;
        BudgetCovers(s);
        if walked > maxFree {
          assert false;      // a cyclic list
        }
        FreeReads(|q|);
        MirrorLength(mem, s);
        ghost var m := mem;
        if restore {
          StampSound(mem, s, a);
          StampFoot(a);
          s := Stamped(s, a);
        } else {
          BlankFoot(a);
        }
        SweepStep(old(mem), m, mem, was, restore, q, a);
        q := q + [a];
        FreeReads(|q| - 1);
        a := NextOf(a);
      }
      WholeList(was, q);
    }

    /** The bytes to be saved: those of the arena without its tags, which are put
        back once the image is taken. */
    method Image() returns (image: Buffer)
      requires Valid()
      modifies this`mem, this`s
      ensures Valid() && Next(old(Now()), Event.Save, Now()) && LiveSame(old(mem), mem, s.blk)
      ensures Mirrors(image, s.(tagged := {})) && LiveSame(old(mem), image, s.blk)
      ensures FeetOnly(old(mem), image, w, s.blk) && Blanked(image, w, s.blk, s.free)
      ensures FeetOnly(old(mem), mem, w, s.blk)
    {
      hide WF, Mirrors, KeysOf, Swept, Retagged, FeetOnly, Blanked, LiveSame;
      SweptAll(s);
      ghost var was := s;
      MirrorLength(mem, s);
      ScrubFoots(false);
      image := mem;
      ScrubFoots(true);
      SavedFrame(old(mem), image, mem, was);
    }

    // ---- inodes --------------------------------------------------------------------

    /** This heap's stamp, minted from the process-wide counter on first use. */
    method InodeStamp(counter: nat) returns (stamp: nat, counter': nat)
      requires counter < 0x1_0000_0000
      modifies this`inodeStamp, this`frees
      ensures stamp == inodeStamp && counter' < 0x1_0000_0000 && (WF(s) ==> Next(old(Now()), Event.Mint, Now()))
      ensures old(inodeStamp) != 0 ==>
        inodeStamp == old(inodeStamp) && frees == old(frees) && counter' == counter
      ensures old(inodeStamp) == 0 ==> 0 < stamp < 0x1_0000 && frees == map[]
      ensures old(inodeStamp) == 0 ==> stamp == counter' % 0x1_0000
      ensures old(inodeStamp) == 0 ==>
        counter' == (counter + if (counter + 1) % 0x1_0000 == 0 then 2 else 1) % 0x1_0000_0000
    {
      counter' := counter;
      if inodeStamp == 0 {
        counter' := (counter' + 1) % 0x1_0000_0000;
        stamp := counter' % 0x1_0000;
        while stamp == 0
          invariant counter' < 0x1_0000_0000 && stamp == counter' % 0x1_0000
          invariant stamp == 0 ==> counter' == (counter + 1) % 0x1_0000_0000
          invariant stamp != 0 ==>
            counter' == (counter + if (counter + 1) % 0x1_0000 == 0 then 2 else 1) % 0x1_0000_0000
          decreases stamp == 0
        {
          counter' := (counter' + 1) % 0x1_0000_0000;
          stamp := counter' % 0x1_0000;
        }
        frees := map[];
        inodeStamp := stamp;
      }
      stamp := inodeStamp;
    }

    /** The inode of the block at a: stamp, frees so far, address. */
    method FieldInode(a: nat, counter: nat) returns (inode: nat, counter': nat)
      requires counter < 0x1_0000_0000
      modifies this`inodeStamp, this`frees
      ensures inode == if a == 0 || a > 0xFFFF_FFFF then 0 else Pack(inodeStamp, Generation(frees, a), a)
      ensures WF(s) ==> Now() == old(Now()) || Next(old(Now()), Event.Mint, Now())
      ensures a == 0 || a > 0xFFFF_FFFF || old(inodeStamp) != 0 ==>
        inodeStamp == old(inodeStamp) && frees == old(frees)
      ensures !(a == 0 || a > 0xFFFF_FFFF) && old(inodeStamp) == 0 ==> 0 < inodeStamp < 0x1_0000 && frees == map[]
    {
      counter' := counter;
      if a == 0 || a > 0xFFFF_FFFF {
        return 0, counter;
      }
      var stamp;
      stamp, counter' := InodeStamp(counter);
      inode := stamp * STAMP_UNIT + Generation(frees, a) % 0x1_0000 * GENERATION_UNIT + a;
    }

    // Judges a block, or whatever is there, without repairing it.
    method IsValidAlloc(a: nat) returns (ok: bool)
      requires Valid()
      ensures a in s.blk ==> (ok <==> LiveAt(s.blk, a) && s.blk[a].kind.linked)
      ensures ok <==> ReadsInUse(mem, arenaSize, w, a)
    {
      hide WF, Mirrors, KeysOf, AddressBits, TypeBits, AllocBit, LinkedBit, ReadsInUse;
      MirrorLength(mem, s);
      WidthIs(s);
      InUseReads(mem, w, a);
      if a in s.blk {
        BlockReads(mem, s, a);
        KindReads(mem, s, a);
      }
      ok := RecordFits(mem, arenaSize, a) && IsAlloc(a) && IsLinked(a) && !IsFree(a) && IsAddr(a);
    }

    /** The address an inode stands for, or 0 if it does not resolve.  field says
        whether the block found there, if any, holds a field. */
    method Resolve(inode: nat, field: bool, counter: nat) returns (a: nat, counter': nat)
      requires Valid() && counter < 0x1_0000_0000
      modifies this`inodeStamp, this`frees
      ensures Valid() && (Now() == old(Now()) || Next(old(Now()), Event.Mint, Now()))
      ensures old(inodeStamp) != 0 ==> inodeStamp == old(inodeStamp) && frees == old(frees)
      ensures a != 0 ==> a == AddressPart(inode)
      ensures a != 0 <==>
        && field && Matches(inode, inodeStamp, frees) && ReadsInUse(mem, arenaSize, w, AddressPart(inode))
      ensures AddressPart(inode) in s.blk ==>
        (a != 0 <==>
          && field && Matches(inode, inodeStamp, frees)
          && LiveAt(s.blk, AddressPart(inode)) && s.blk[AddressPart(inode)].kind.linked)
    {
      counter' := counter;
      if inode == 0 {
        NoInodeZero(s);
        return 0, counter;
      }
      var pos := inode % GENERATION_UNIT;
      var stamp;
      stamp, counter' := InodeStamp(counter);
      if inode / STAMP_UNIT != stamp {
        return 0, counter';
      }
      if Generation(frees, pos) % 0x1_0000 != inode / GENERATION_UNIT % 0x1_0000 {
        return 0, counter';
      }
      var ok := IsValidAlloc(pos);
      a := if ok && field then pos else 0;
    }
  }

  /** Creates a heap of the addressing mode, or refuses: 8-bit addressing, a size
      above the ceiling, or a ceiling above what the fields can address. */
  method CreateBSTRio(address: nat, initial: nat, max: nat) returns (h: BlockHeap?)
    requires address < 4 && 0 < initial
    requires BASE + MinRecord(address) <= initial + 8
    ensures var limit := MaxAddress(WidthOf(address));
      var ceiling := if max == 0 then limit else max;
      h == null <==> address == 0 || initial > ceiling || ceiling > limit
    ensures h != null ==> fresh(h) && h.w == WidthOf(address)
    ensures h != null ==> h.maxSize == (if max == 0 then MaxAddress(h.w) else max) && h.arenaSize == initial + 8
    ensures h != null && SoundSize(initial, h.maxSize) ==>
      h.Valid() && CreatedAs(h.Now(), h.w, initial, h.maxSize)
  {
    if address == 0 {
      return null;
    }
    var limit := MaxAddress(WidthOf(address));
    var ceiling := if max == 0 then limit else max;
    if initial > ceiling {
      return null;
    }
    if ceiling > limit {
      return null;
    }
    h := new BlockHeap(WidthOf(address), initial, ceiling);
  }
}
