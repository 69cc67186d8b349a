/** A new arena: one free block from behind the key block to the end. */
module Founding {
  import opened Bytes
  import opened HeapModel
  import opened Layout
  import opened Mirror
  import opened Tally

  // n rounded up to whole 64-bit words.
  function WholeWords(n: nat): nat { n + (8 - n % 8) % 8 }

  // The heap of a new arena of end bytes.
  function Fresh(w: nat, max: nat, end: nat): Heap
    requires BASE <= end
  {
    Heap(w, max, end, map[BASE := Block(end - BASE, Free)], [BASE], {}, 0)
  }

  lemma FreshKeeps(w: nat, max: nat, end: nat)
    requires ValidWidth(w) && BASE + MinBlock(w) <= end <= max <= MaxAddress(w)
    ensures var s := Fresh(w, max, end); WF(s) && Tidy(s) && RootSafe(s)
    ensures Fresh(w, max, end).blk == map[48 := Block(end - 48, Free)] && Fresh(w, max, end).free == [48]
    ensures KeysOf(Fresh(w, max, end)) == Keys(0, 0, 48, 48, end - 48, 0, 1)
  {
    var s := Fresh(w, max, end);
    assert Count(end, s.blk, end) == NONE;
    assert Count(end, s.blk, BASE) == Plus(NONE, s.blk[BASE]);
  }

  // m holds one free block that fills the arena from BASE.
  ghost predicate Founded(m: Buffer, w: nat, end: nat) {
    BASE <= end && |m| == end && Ctl(m, w, BASE) == Control(KindFlags(w, Free), end - BASE, 0, 0)
  }

  lemma FreshMirrors(m: Buffer, w: nat, max: nat, end: nat)
    requires Founded(m, w, end)
    ensures Mirrors(m, Fresh(w, max, end))
  {
    var s := Fresh(w, max, end);
    assert BlockOk(m, w, BASE, s.blk[BASE]);
  }

  // The bytes written by the steps of an initialisation.
  lemma FoundingSteps(w: nat, n: nat, size: nat) returns (m: Buffer)
    requires ValidWidth(w) && BASE + ControlSize(w) <= n && size < Range(w)
    ensures m == SetFlags(SetNext(SetPrev(SetSize(SetFlags(Zeros(n), BASE, Flags(AddressCode(w), 0, true, false)),
                   w, BASE, size), w, BASE, 0), w, BASE, 0), BASE, Flags(AddressCode(w), 0, true, true))
    ensures |m| == n && Ctl(m, w, BASE) == Control(KindFlags(w, Free), size, 0, 0)
    ensures SameOutside(Zeros(n), m, BASE, BASE + ControlSize(w))
  {
    hide Ctl, Range, SetFlags, SetSize, SetPrev, SetNext, SameOutside;
    FlagsRead(AddressCode(w), 0, true, false);
    FlagsRead(AddressCode(w), 0, true, true);
    var m0 := Zeros(n);
    assert 0 < Range(w) by { SomeRange(w); }
    PutFlags(m0, w, BASE, Flags(AddressCode(w), 0, true, false));
    var m1 := SetFlags(m0, BASE, Flags(AddressCode(w), 0, true, false));
    assert |m1| == n by { SetLength(m0, w, BASE, Flags(AddressCode(w), 0, true, false)); }
    PutSize(m1, w, BASE, size);
    var m2 := SetSize(m1, w, BASE, size);
    assert |m2| == n by { SetLength(m1, w, BASE, size); }
    PutPrev(m2, w, BASE, 0);
    var m3 := SetPrev(m2, w, BASE, 0);
    assert |m3| == n by { SetLength(m2, w, BASE, 0); }
    PutNext(m3, w, BASE, 0);
    var m4 := SetNext(m3, w, BASE, 0);
    assert |m4| == n by { SetLength(m3, w, BASE, 0); }
    PutFlags(m4, w, BASE, Flags(AddressCode(w), 0, true, true));
    m := SetFlags(m4, BASE, Flags(AddressCode(w), 0, true, true));
    SetLength(m4, w, BASE, Flags(AddressCode(w), 0, true, true));
    OutsideChain(m0, m1, m2, BASE, BASE + ControlSize(w));
    OutsideChain(m0, m2, m3, BASE, BASE + ControlSize(w));
    OutsideChain(m0, m3, m4, BASE, BASE + ControlSize(w));
    OutsideChain(m0, m4, m, BASE, BASE + ControlSize(w));
  }

  lemma OutsideChain(m: Buffer, r: Buffer, t: Buffer, lo: nat, hi: nat)
    requires SameOutside(m, r, lo, hi) && SameOutside(r, t, lo, hi)
    ensures SameOutside(m, t, lo, hi)
  {
  }

  // Beyond the record of its first block a new arena of n bytes is blank.
  ghost predicate BlankBeyond(m: Buffer, w: nat) {
    forall i: nat :: BASE + ControlSize(w) <= i < |m| ==> m[i] == 0
  }

  lemma FoundedBlank(m: Buffer, w: nat, n: nat)
    requires SameOutside(Zeros(n), m, BASE, BASE + ControlSize(w))
    ensures BlankBeyond(m, w)
  {
  }

  lemma SomeRange(w: nat)
    ensures 0 < Range(w)
  {
  }

  lemma SetLength(m: Buffer, w: nat, a: nat, v: nat)
    ensures |SetFlags(m, a, v)| == |m| && |SetSize(m, w, a, v)| == |m|
    ensures |SetPrev(m, w, a, v)| == |m| && |SetNext(m, w, a, v)| == |m|
  {
  }

  // The creation size fits under the ceiling with its 8 extra bytes and needs no rounding.
  predicate SoundSize(initial: nat, max: nat) { initial % 8 == 0 && initial + 8 <= max }

  lemma FoundingFits(w: nat, initial: nat, max: nat)
    requires ValidWidth(w) && initial <= max <= MaxAddress(w) && BASE <= initial + 8
    ensures WholeWords(initial + 8) - BASE < Range(w)
    ensures SoundSize(initial, max) ==> WholeWords(initial + 8) == initial + 8 <= max
    ensures initial % 8 != 0 ==> WholeWords(initial + 8) != initial + 8
  {
    assert Range(2) == 0x1_0000 && Range(4) == 0x1_0000_0000;
    assert Range(8) == 256 * 256 * 256 * 256 * Range(4);
  }

  /** A key block that counts the rounded arena describes no heap that ends where
      the handle says the arena ends. */
  lemma UnsoundKeys(w: nat, initial: nat, max: nat, t: Heap)
    requires WF(t) && t.end == initial + 8 && t.max == max && BASE <= initial + 8
    requires KeysOf(t).freeSize == WholeWords(initial + 8) - BASE && KeysOf(t).allocSize == 0
    ensures SoundSize(initial, max)
  {
    Conservation(t);
  }

  lemma FreshFrame(w: nat, max: nat, end: nat)
    requires BASE <= end
    ensures var s := Fresh(w, max, end); s.w == w && s.max == max && s.end == end
  {
  }
}
