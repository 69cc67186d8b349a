/** When the look back is led astray: the tag in front of a block just freed leads
    to bytes that imitate a free block.  What the merge from there writes, and that
    no heap comes out of it. */
module MirrorStray {
  import opened Bytes
  import opened HeapModel
  import opened Layout
  import opened Mirror
  import opened MirrorOps
  import opened MirrorMerge
  import opened MirrorFree
  import opened Tally

  /** t, mirrored by m, has just got the block at the head of its list back, which
      ends its run; p reads as a free block that ends there but is none. */
  ghost predicate StrayPoint(m: Buffer, t: Heap, p: nat) {
    && WF(t) && Mirrors(m, t) && t.free != [] && FreeAt(t.blk, t.free[0]) && p !in t.blk
    && HeaderSize(t.w) <= p && p + FootMin(t.w) <= t.free[0] && LooksFree(m, t.w, p, t.free[0] - p)
    && (EndOf(t.blk, t.free[0]) == t.end || LiveAt(t.blk, EndOf(t.blk, t.free[0])))
  }

  // Taking the head off the list rewrites the header that reads at p: it lies over
  // the prev field of the next block on the list.
  predicate Shifts(t: Heap, p: nat) {
    1 < |t.free| && t.free[1] < p < t.free[1] + HeaderSize(t.w) + t.w
  }

  // r and l are what the merge from p makes of m and k: the head is off the list,
  // its size added to the field behind p, its flags cleared, and a tag written.
  ghost predicate Waylaid(m: Buffer, k: Keys, r: Buffer, l: Keys, t: Heap, p: nat) {
    t.free != [] && t.free[0] in t.blk && exists iso, d :: WaylaidBy(m, k, iso, d, r, l, t, p)
  }

  ghost predicate WaylaidBy(m: Buffer, k: Keys, iso: Buffer, d: Keys, r: Buffer, l: Keys, t: Heap, p: nat)
    requires t.free != [] && t.free[0] in t.blk
  {
    var a := t.free[0];
    && Delisted(m, k, iso, d, t, 0, a) && SameHeader(m, iso, t.w, p)
    && r == AbsorbOf(iso, t.w, t.end, p, a) && l == d.(freeSize := d.freeSize + t.blk[a].size)
  }

  // ---- the header at p once the head is off the list ---------------------------------

  // Where the control fields at x differ in the prev field only, so do their bytes.
  lemma PrevDiffers(m: Buffer, r: Buffer, w: nat, x: nat, i: nat, v: nat)
    requires x <= i < x + ControlSize(w) <= |m| == |r| && m[i] != r[i] && Ctl(r, w, x) == Ctl(m, w, x).(prev := v)
    ensures x + HeaderSize(w) <= i < x + HeaderSize(w) + w && v != Ctl(m, w, x).prev
  {
    hide Get;
    if i == x {
      FieldSame(m, r, x, 1, i);
    } else if i < x + 1 + w {
      FieldSame(m, r, x + 1, w, i);
    } else if x + 1 + 2 * w <= i {
      FieldSame(m, r, x + 1 + 2 * w, w, i);
    } else {
      FieldSame(m, r, x + 1 + w, w, i);
    }
  }

  // A byte below the head that isolating it changed is in the next block's prev field.
  lemma IsoBytes(m: Buffer, iso: Buffer, t: Heap, i: nat)
    requires WF(t) && t.free != [] && Isolated(m, iso, t, 0)
    requires i < t.free[0] && i < t.end == |m| == |iso| && m[i] != iso[i]
    ensures 1 < |t.free| && t.free[1] + HeaderSize(t.w) <= i < t.free[1] + HeaderSize(t.w) + t.w
  {
    hide Ctl, Quiet, KindFlags, WF, Touched;
    IsoSpot(m, iso, t, i);
    var x :| x in FreeStarts(t.blk) && x <= i < x + ControlSize(t.w);
    BlockSpot(t, x);
    PrevDiffers(m, iso, t.w, x, i, Ctl(iso, t.w, x).prev);
  }

  lemma BlockSpot(t: Heap, x: nat)
    requires WF(t) && x in t.blk
    ensures 0 < x && x + ControlSize(t.w) <= t.end
  {
    FitsTiles(t.w, t.end, t.blk, x);
  }

  lemma IsoSpot(m: Buffer, iso: Buffer, t: Heap, i: nat)
    requires t.free != [] && Isolated(m, iso, t, 0) && i < |m| == |iso| && m[i] != iso[i]
    ensures exists x :: x in FreeStarts(t.blk) && x <= i < x + ControlSize(t.w)
  {
    assert iso[i] != m[i];
  }

  // A field that reads the same holds no byte that changed.
  lemma FieldSame(m: Buffer, r: Buffer, off: nat, w: nat, i: nat)
    requires off + w <= |m| == |r| && off <= i < off + w
    ensures Get(m, off, w) == Get(r, off, w) ==> m[i] == r[i]
  {
    if Get(m, off, w) == Get(r, off, w) {
      GetBytes(m, r, off, w);
    }
  }

  lemma SteadyHeader(m: Buffer, iso: Buffer, t: Heap, p: nat)
    requires StrayPoint(m, t, p) && Isolated(m, iso, t, 0) && !Shifts(t, p) && |iso| == |m|
    ensures SameHeader(m, iso, t.w, p)
  {
    hide WF, Isolated, LooksFree, Mirrors;
    MirrorLength(m, t);
    BlockSpot(t, t.free[0]);
    forall i | p <= i < p + HeaderSize(t.w)
      ensures m[i] == iso[i]
    {
      if m[i] != iso[i] {
        IsoBytes(m, iso, t, i);
      }
    }
    GetSame(m, iso, p, 1);
    GetSame(m, iso, p + 1, t.w);
  }

  // ---- no sum written at p is the same sum a few bytes off -----------------------------

  // r is m but for the w bytes behind p, and bytes from hi on; the field there grew by n.
  ghost predicate Bumps(m: Buffer, r: Buffer, w: nat, p: nat, n: nat, hi: nat) {
    && |m| == |r| && p + 1 + w <= hi <= |m|
    && (forall i: nat {:trigger r[i]} :: i < hi && !(p < i <= p + w) ==> m[i] == r[i])
    && Get(r, p + 1, w) == Get(m, p + 1, w) + n
  }

  lemma Distribute(q: nat, x: int, y: int)
    ensures q * (x + y) == q * x + q * y
  {
  }

  lemma AtLeast(q: nat, d: int)
    ensures (0 < d ==> q <= q * d) && (d < 0 ==> q * d <= -(q as int))
  {
  }

  lemma SameRest(q: nat, lo: nat, hi: nat, lo': nat, hi': nat, n: nat)
    requires lo < q && lo' < q && lo' + q * hi' == lo + q * hi + q * n
    ensures lo == lo'
  {
    var d := (hi as int) + n - hi';
    Distribute(q, hi', d);
    Distribute(q, hi, n);
    AtLeast(q, d);
  }

  lemma Quotients(q: nat, hi: nat, hi': nat, n: nat)
    requires q * hi' == q * hi + n
    ensures q * (hi' - hi) == n && (0 < n ==> hi < hi')
  {
    if hi' <= hi {
      assert q * hi' <= q * hi;
    }
  }

  // A field that starts before the one behind p, and grew by as much, grew by a
  // multiple of every power of 256.
  lemma {:induction false} LowBytes(m: Buffer, r: Buffer, w: nat, p: nat, f: nat, n: nat, hi: nat, e: nat)
    returns (q: nat)
    requires Bumps(m, r, w, p, n, hi) && f < p && f + 1 + w <= hi && e <= w
    requires Get(r, f + 1, w) == Get(m, f + 1, w) + n
    ensures n == Range(e) * q
  {
    hide Get;
    if e == 0 {
      q := n;
    } else {
      var k := LowBytes(m, r, w, p, f, n, hi, e - 1);
      GetSplit(m, p + 1, w, e - 1);
      GetSplit(r, p + 1, w, e - 1);
      SameRest(Range(e - 1), Get(m, p + 1, e - 1), Get(m, p + e, w - e + 1),
               Get(r, p + 1, e - 1), Get(r, p + e, w - e + 1), k);
      GetBytes(m, r, p + 1, e - 1);
      LowSame(m, r, w, p, f, n, hi, e);
      GetSplit(m, f + 1, w, e);
      GetSplit(r, f + 1, w, e);
      Quotients(Range(e), Get(m, f + 1 + e, w - e), Get(r, f + 1 + e, w - e), n);
      if n == 0 {
        q := 0;
      } else {
        q := Get(r, f + 1 + e, w - e) - Get(m, f + 1 + e, w - e);
      }
    }
  }

  lemma LowSame(m: Buffer, r: Buffer, w: nat, p: nat, f: nat, n: nat, hi: nat, e: nat)
    requires Bumps(m, r, w, p, n, hi) && f < p && f + 1 + w <= hi && 0 < e <= w
    requires SameOn(m, r, p + 1, p + e)
    ensures Get(r, f + 1, e) == Get(m, f + 1, e)
  {
    GetSame(m, r, f + 1, e);
  }

  /** Adding n behind p adds n to no other field. */
  lemma NoOtherSum(m: Buffer, r: Buffer, w: nat, p: nat, f: nat, n: nat, hi: nat)
    requires Bumps(m, r, w, p, n, hi) && f != p && f + 1 + w <= hi && 1 < n < Range(w)
    ensures Get(r, f + 1, w) != Get(m, f + 1, w) + n
  {
    hide Get, Bumps;
    if Get(r, f + 1, w) == Get(m, f + 1, w) + n {
      if f < p {
        var q := LowBytes(m, r, w, p, f, n, hi, w);
        Multiple(Range(w), q, n);
      } else if w <= f - p {
        FarSame(m, r, w, p, f, n, hi);
      } else {
        NearAbove(m, r, w, p, f, n, hi);
      }
    }
  }

  lemma Multiple(r: nat, q: nat, n: nat)
    requires n == r * q && 0 < n
    ensures r <= n
  {
    assert 0 < q;
    assert r * q >= r;
  }

  lemma FarSame(m: Buffer, r: Buffer, w: nat, p: nat, f: nat, n: nat, hi: nat)
    requires Bumps(m, r, w, p, n, hi) && p + w <= f && f + 1 + w <= hi
    ensures Get(r, f + 1, w) == Get(m, f + 1, w)
  {
    GetSame(m, r, f + 1, w);
  }

  lemma NearAbove(m: Buffer, r: Buffer, w: nat, p: nat, f: nat, n: nat, hi: nat)
    requires Bumps(m, r, w, p, n, hi) && p < f < p + w && f + 1 + w <= hi && 1 < n
    ensures Get(r, f + 1, w) != Get(m, f + 1, w) + n
  {
    hide Get;
    var k := f - p;
    GetSplit(m, p + 1, w, k);
    GetSplit(r, p + 1, w, k);
    GetSplit(m, f + 1, w, w - k);
    GetSplit(r, f + 1, w, w - k);
    GetSame(m, r, f + 1 + w - k, k);
    if Get(r, f + 1, w) == Get(m, f + 1, w) + n {
      Shrinks(Range(k), Get(m, p + 1, k), Get(r, p + 1, k), Get(m, f + 1, w - k), n);
    }
  }

  lemma ProductExceedsSum(q: nat, n: nat)
    requires 1 < q && 1 < n
    ensures q + n <= q * n
    decreases n
  {
    if n > 2 {
      ProductExceedsSum(q, n - 1);
      Distribute(q, n - 1, 1);
    }
  }

  // The upper part of a sum cannot grow by as much as the whole.
  lemma Shrinks(q: nat, lo: nat, lo': nat, hi: nat, n: nat)
    requires lo < q && lo' < q && 1 < n && 1 < q
    ensures lo' + q * (hi + n) != lo + q * hi + n
  {
    Distribute(q, hi, n);
    ProductExceedsSum(q, n);
  }

  // ---- the writes of a merge from p ----------------------------------------------------

  // The lowest byte, other than those behind p, that the merge writes.
  function Reach(t: Heap): nat
    requires t.free != [] && t.free[0] in t.blk && FOOT <= EndOf(t.blk, t.free[0])
  {
    var a, e := t.free[0], EndOf(t.blk, t.free[0]);
    if e - FOOT < a then e - FOOT else a
  }

  ghost predicate StrayWrites(iso: Buffer, r: Buffer, t: Heap, p: nat)
    requires t.free != [] && t.free[0] in t.blk && FOOT <= EndOf(t.blk, t.free[0])
  {
    var a, e := t.free[0], EndOf(t.blk, t.free[0]);
    && Bumps(iso, r, t.w, p, t.blk[a].size, Reach(t))
    && (forall i: nat {:trigger r[i]} :: e <= i < |iso| ==> r[i] == iso[i])
    && (a + FOOT < e ==> Get(r, a, 1) == 0)
    && FootAt(r, e) == e - p
    && Get(r, p, 1) == Get(iso, p, 1) && SizeRead(r, t.w, p) == e - p
  }

  lemma StrayPlace(m: Buffer, t: Heap, p: nat)
    requires StrayPoint(m, t, p)
    ensures var a, e := t.free[0], EndOf(t.blk, t.free[0]);
      && |m| == t.end && ValidWidth(t.w) && MinBlock(t.w) <= t.blk[a].size && FOOT <= e <= t.end
      && t.end <= MaxAddress(t.w)
      && p + HeaderSize(t.w) <= Reach(t) && a < t.end && FreeReading(m, t, a) && Ctl(m, t.w, a).size == t.blk[a].size
    ensures AddressBits(Get(m, p, 1)) == AddressCode(t.w) && TypeBits(Get(m, p, 1)) == 0
    ensures SizeRead(m, t.w, p) == t.free[0] - p
  {
    hide LinksOk, FeetOk, Tagged, Listed, Ctl, AllocBit, LinkedBit, TypeBits, AddressBits, SizeRead;
    FreeReads(m, t, t.free[0]);
    FitsTiles(t.w, t.end, t.blk, t.free[0]);
    assert BlockOk(m, t.w, t.free[0], t.blk[t.free[0]]);
  }

  // A size field read through 32 bits, plus a size, still fits the field.
  lemma WideSum(m: Buffer, w: nat, off: nat, z: nat, n: nat)
    requires ValidWidth(w) && off + 1 + w <= |m| && SizeRead(m, w, off) == z && z + n <= MaxAddress(w)
    ensures Get(m, off + 1, w) + n < Range(w)
    ensures w == 8 ==> (Get(m, off + 1, w) + n) % 0x1_0000_0000 == z + n
    ensures w != 8 ==> Get(m, off + 1, w) == z
  {
    GetSplit(m, off + 1, w, w);
    RangeValues();
    if w == 8 {
      Carry(Get(m, off + 1, w), z, n);
    }
  }

  lemma Carry(v: nat, z: nat, n: nat)
    requires v < 0x1_0000_0000_0000_0000 && v % 0x1_0000_0000 == z && z + n <= 0xFFFF_FFFF
    ensures v + n < 0x1_0000_0000_0000_0000 && (v + n) % 0x1_0000_0000 == z + n
  {
  }

  lemma RangeValues()
    ensures Range(2) == 0x1_0000 && Range(4) == 0x1_0000_0000 && Range(8) == 0x1_0000_0000_0000_0000
    ensures Range(1) == 256
  {
    assert Range(8) == 256 * 256 * 256 * 256 * Range(4);
  }

  // The size and the flags of a merge, before its tag.
  lemma StraySums(iso: Buffer, w: nat, p: nat, a: nat, v: nat)
    requires p + 1 + w <= a < |iso| && v < Range(w) && 0 < w
    ensures var u := SetFlags(SetSize(iso, w, p, v), a, 0);
      && |u| == |iso| && Get(u, p + 1, w) == v && Get(u, a, 1) == 0
      && (forall i: nat {:trigger u[i]} :: i < |iso| && !(p < i <= p + w) && i != a ==> u[i] == iso[i])
  {
    RangeValues();
    PutGet(iso, p + 1, w, v);
    var s := SetSize(iso, w, p, v);
    PutGet(s, a, 1, 0);
    GetSame(s, SetFlags(s, a, 0), p + 1, w);
  }

  // The tag of the merge, which ends at e.
  lemma StrayTag(u: Buffer, t: Heap, p: nat, z: nat)
    requires t.free != [] && t.free[0] in t.blk && FOOT <= EndOf(t.blk, t.free[0]) <= |u| && z < Range(8)
    requires p + HeaderSize(t.w) <= Reach(t) && t.free[0] < |u|
    ensures var a, e := t.free[0], EndOf(t.blk, t.free[0]); var r := SetFoot(u, e, z);
      && |r| == |u| && FootAt(r, e) == z
      && (forall i: nat {:trigger r[i]} :: i < |u| && !(e - FOOT <= i < e) ==> r[i] == u[i])
      && Get(r, p, 1) == Get(u, p, 1) && Get(r, p + 1, t.w) == Get(u, p + 1, t.w)
      && (a + FOOT < e ==> Get(r, a, 1) == Get(u, a, 1))
      && SetFoot(r, e, z) == r
  {
    var a, e := t.free[0], EndOf(t.blk, t.free[0]);
    var r := SetFoot(u, e, z);
    PutFoot(u, e, z);
    GetSame(u, r, p, 1);
    GetSame(u, r, p + 1, t.w);
    if a + FOOT < e {
      GetSame(u, r, a, 1);
    }
    SetFootAgain(u, e, z);
  }

  lemma SetFootAgain(u: Buffer, e: nat, z: nat)
    requires FOOT <= e <= |u|
    ensures SetFoot(SetFoot(u, e, z), e, z) == SetFoot(u, e, z)
  {
    var f, g := Encode(FOOT_MAGIC, 4), Encode(z, 8);
    assert SetFoot(u, e, z) == u[..e - FOOT] + f + g + u[e..];
    var r := SetFoot(u, e, z);
    assert SetFoot(r, e, z) == r[..e - FOOT] + f + g + r[e..];
  }

  // u is iso after the merge from p, before its tag.
  ghost predicate StrayBare(iso: Buffer, u: Buffer, t: Heap, p: nat)
    requires t.free != [] && t.free[0] in t.blk
  {
    var a, w := t.free[0], t.w;
    && |u| == |iso| == t.end && 0 < p && p + HeaderSize(w) <= a < t.end && 0 < t.blk[a].size
    && FootMin(w) <= a - p && EndOf(t.blk, a) <= t.end <= MaxAddress(w)
    && Get(u, p + 1, w) == Get(iso, p + 1, w) + t.blk[a].size && Get(u, a, 1) == 0
    && Get(u, p, 1) == Get(iso, p, 1) && TypeBits(Get(u, p, 1)) == 0 && SizeRead(u, w, p) == EndOf(t.blk, a) - p
    && (forall i: nat {:trigger u[i]} :: i < |iso| && !(p < i <= p + w) && i != a ==> u[i] == iso[i])
  }

  lemma StraySum(m: Buffer, iso: Buffer, t: Heap, p: nat)
    requires StrayPoint(m, t, p) && Isolated(m, iso, t, 0) && SameHeader(m, iso, t.w, p) && |iso| == |m|
    ensures StrayBare(iso, MergeOf(iso, t.w, p, t.free[0]), t, p)
  {
    hide WF, Mirrors, LooksFree, FreeReading, Get, SetFlags, SetSize, TypeBits, Isolated, AddressBits;
    var a, w := t.free[0], t.w;
    StrayPlace(m, t, p);
    IsoSize(m, iso, t);
    WideSum(iso, w, p, a - p, t.blk[a].size);
    var u := MergeOf(iso, w, p, a);
    StraySums(iso, w, p, a, Get(iso, p + 1, w) + t.blk[a].size);
    GetSame(iso, u, p, 1);
  }

  lemma StrayTagged(iso: Buffer, u: Buffer, t: Heap, p: nat)
    requires t.free != [] && t.free[0] in t.blk && StrayBare(iso, u, t, p) && p + HeaderSize(t.w) <= Reach(t)
    ensures var r := StampOf(u, t.w, t.end, p);
      StrayWrites(iso, r, t, p) && |r| == t.end && StampOf(r, t.w, t.end, p) == r
  {
    hide Get, SetFoot, FootAt, TypeBits;
    RangeValues();
    StrayTag(u, t, p, EndOf(t.blk, t.free[0]) - p);
  }

  /** What the merge from p writes. */
  lemma StrayMerge(m: Buffer, iso: Buffer, t: Heap, p: nat)
    requires StrayPoint(m, t, p) && Isolated(m, iso, t, 0) && SameHeader(m, iso, t.w, p) && |iso| == |m|
    ensures t.free[0] in t.blk && FOOT <= EndOf(t.blk, t.free[0])
    ensures var r := AbsorbOf(iso, t.w, t.end, p, t.free[0]);
      StrayWrites(iso, r, t, p) && |r| == t.end && StampOf(r, t.w, t.end, p) == r
  {
    hide WF, Mirrors, LooksFree, FreeReading, MergeOf, StampOf, StrayWrites, StrayBare, Isolated;
    StrayPlace(m, t, p);
    StraySum(m, iso, t, p);
    StrayTagged(iso, MergeOf(iso, t.w, p, t.free[0]), t, p);
  }

  lemma IsoSize(m: Buffer, iso: Buffer, t: Heap)
    requires t.free != [] && t.free[0] in t.blk && Isolated(m, iso, t, 0)
    requires Ctl(m, t.w, t.free[0]).size == t.blk[t.free[0]].size
    ensures Get(iso, t.free[0] + 1, t.w) == t.blk[t.free[0]].size
  {
    hide Get, KindFlags, Quiet;
  }

  // What the collation reads before the merge.
  lemma StrayReads(m: Buffer, t: Heap, p: nat)
    requires StrayPoint(m, t, p)
    ensures var a := t.free[0];
      && SizeRead(m, t.w, p) == a - p && a < t.end == |m| && p != a
      && AddressBits(Get(m, p, 1)) == AddressCode(t.w) == AddressBits(Get(m, a, 1))
      && TypeBits(Get(m, a, 1)) == 0 && SizeRead(m, t.w, a) != 0
  {
    hide WF, Mirrors, LooksFree, AddressBits, TypeBits, Get;
    StrayPlace(m, t, p);
    KindReads(m, t, t.free[0]);
  }

  lemma LiveFlags(m: Buffer, iso: Buffer, t: Heap, e: nat)
    requires WF(t) && Mirrors(m, t) && t.free != [] && Isolated(m, iso, t, 0) && LiveAt(t.blk, e)
    ensures Get(iso, e, 1) == Get(m, e, 1) && e < |m|
    ensures AddressBits(Get(m, e, 1)) == AddressCode(t.w) && TypeBits(Get(m, e, 1)) != 0
  {
    hide Tiles, LinksOk, FeetOk, BlocksOk, Tagged, Quiet, Touched, Get, KindFlags, AddressBits, TypeBits;
    KindReads(m, t, e);
    NoBlockAtZero(t);
    BlockSpot(t, e);
    assert t.free[0] in t.free && (1 < |t.free| ==> t.free[1] in t.free);
    assert Ctl(iso, t.w, e).flags == Ctl(m, t.w, e).flags;
  }

  // What it reads after: the merge ended the run.
  lemma StrayAfter(m: Buffer, iso: Buffer, t: Heap, p: nat)
    requires StrayPoint(m, t, p) && Isolated(m, iso, t, 0) && SameHeader(m, iso, t.w, p) && |iso| == |m|
    ensures t.free[0] in t.blk
    ensures var r, e := AbsorbOf(iso, t.w, t.end, p, t.free[0]), EndOf(t.blk, t.free[0]);
      && SizeRead(r, t.w, p) == e - p && p < e && AddressBits(Get(r, p, 1)) == AddressCode(t.w)
      && StampOf(r, t.w, t.end, p) == r
      && (e < t.end ==> AddressBits(Get(r, e, 1)) == AddressCode(t.w) && TypeBits(Get(r, e, 1)) != 0)
  {
    hide WF, Mirrors, LooksFree, FreeReading, AddressBits, TypeBits, Get, AbsorbOf, StampOf, Isolated, Bumps, FootAt;
    StrayPlace(m, t, p);
    StrayMerge(m, iso, t, p);
    var r, e := AbsorbOf(iso, t.w, t.end, p, t.free[0]), EndOf(t.blk, t.free[0]);
    if e < t.end {
      LiveFlags(m, iso, t, e);
      GetSame(iso, r, e, 1);
    }
  }

  // The head is in its place.
  lemma HeadIndex(t: Heap, j: nat)
    requires WF(t) && j < |t.free| && t.free[j] == t.free[0]
    ensures j == 0
  {
  }

  lemma StrayHeadSize(m: Buffer, iso: Buffer, t: Heap, p: nat)
    requires StrayPoint(m, t, p) && Isolated(m, iso, t, 0)
    ensures t.free[0] in t.blk && SizeRead(iso, t.w, t.free[0]) == t.blk[t.free[0]].size
  {
    hide WF, Mirrors, LooksFree, FreeReading, Isolated;
    StrayPlace(m, t, p);
    IsoSize(m, iso, t);
    BlockSpot(t, t.free[0]);
  }

  // ---- no heap comes out of it -----------------------------------------------------------

  // r and l describe u, over the same arena as t.
  ghost predicate Emerges(r: Buffer, l: Keys, t: Heap, u: Heap) {
    WF(u) && Mirrors(r, u) && l == KeysOf(u) && u.w == t.w && u.end == t.end
  }

  /** The live blocks of t, and free ones that start where t's do. */
  ghost predicate Merger(t: Heap, u: Heap) { SameLive(t.blk, u.blk) && u.blk.Keys <= t.blk.Keys }

  lemma TagBytes(r: Buffer, e: nat, z: nat)
    requires FOOT <= e <= |r| && FootAt(r, e) == z && 0 < z < 0x1_0000
    ensures r[e - 12] == 0x46 && r[e - 11] == 0x42 && r[e - 10] == 0x54 && r[e - 9] == 0x46
    ensures r[e - 8] == z % 256 && r[e - 7] == z / 256
    ensures forall i | e - 6 <= i < e :: r[i] == 0
  {
    hide Get;
    GetNext(r, e - 12, 4);
    GetNext(r, e - 11, 3);
    GetNext(r, e - 10, 2);
    GetNext(r, e - 9, 1);
    assert Get(r, e - 8, 0) == 0 by { ByteField(r, e - 8); }
    GetNext(r, e - 8, 8);
    GetNext(r, e - 7, 7);
    ZeroField(r, e - 6, 6);
  }

  lemma ByteField(m: Buffer, off: nat)
    ensures Get(m, off, 0) == 0
    ensures off < |m| ==> Get(m, off, 1) == m[off]
  {
    if off < |m| {
      GetNext(m, off, 1);
    }
  }

  lemma {:induction false} ZeroField(m: Buffer, off: nat, w: nat)
    requires off + w <= |m|
    ensures Get(m, off, w) == 0 <==> forall i | off <= i < off + w :: m[i] == 0
    decreases w
  {
    if w == 0 {
      ByteField(m, off);
    } else {
      GetNext(m, off, w);
      ZeroField(m, off + 1, w - 1);
    }
  }

  // A short block whose header the tag overwrote reads as no free block, or as one
  // without neighbours.
  lemma TagAtStart(r: Buffer, a: nat, e: nat, z: nat)
    requires FOOT <= e <= |r| && FootAt(r, e) == z && 0 < z < 0x1_0000 && a + 8 <= e <= a + FOOT
    ensures Get(r, a, 1) != KindFlags(2, Free) || (Ctl(r, 2, a).prev == 0 && Ctl(r, 2, a).next == 0)
  {
    hide FootAt, Get;
    TagBytes(r, e, z);
    ByteField(r, a);
    if e == a + 8 {
      ZeroField(r, a + 3, 2);
      ZeroField(r, a + 5, 2);
    }
  }

  lemma StrayFlags(iso: Buffer, r: Buffer, t: Heap, p: nat)
    requires t.free != [] && FreeAt(t.blk, t.free[0]) && ValidWidth(t.w) && MinBlock(t.w) <= t.blk[t.free[0]].size
    requires FOOT <= EndOf(t.blk, t.free[0]) <= t.end <= MaxAddress(t.w) && |r| == t.end
    requires p < t.free[0] && StrayWrites(iso, r, t, p)
    ensures var c := Ctl(r, t.w, t.free[0]); c.flags == KindFlags(t.w, Free) ==> c.prev == 0 && c.next == 0
  {
    hide Bumps, Get, FootAt;
    var a, e := t.free[0], EndOf(t.blk, t.free[0]);
    if e <= a + FOOT {
      TagAtStart(r, a, e, e - p);
    }
  }

  // What the merge leaves of the block p leads to, and of the key block.
  ghost predicate StrayEnds(r: Buffer, l: Keys, t: Heap) {
    && t.free != [] && WF(t)
    && (var c := Ctl(r, t.w, t.free[0]); c.flags == KindFlags(t.w, Free) ==> c.prev == 0 && c.next == 0)
    && l.firstFree != t.free[0] && l.freeEntries + 1 == |t.free|
  }

  // A free block without neighbours is the whole list.
  lemma SoleFree(r: Buffer, u: Heap, a: nat)
    requires WF(u) && Mirrors(r, u) && FreeAt(u.blk, a)
    ensures Ctl(r, u.w, a).flags == KindFlags(u.w, Free)
    ensures Ctl(r, u.w, a).prev == 0 && Ctl(r, u.w, a).next == 0 ==> First(u.free) == a
  {
    hide Tiles, Ctl, KindFlags, Tagged, FeetOk;
    var i := FreeIndex(u, a);
    NoBlockAtZero(u);
    assert BlockOk(r, u.w, a, u.blk[a]) && LinkOk(r, u.w, u.free, i);
    assert i > 0 ==> u.free[i - 1] in u.free;
  }

  // The block p leads to is none any more.
  lemma HeadGone(r: Buffer, l: Keys, t: Heap, u: Heap)
    requires StrayEnds(r, l, t) && Emerges(r, l, t, u) && Merger(t, u)
    ensures t.free[0] !in u.blk
  {
    hide Tiles, Ctl, KindFlags, Tagged, BlocksOk, LinksOk, FeetOk, Sum;
    var a := t.free[0];
    assert a in t.free;
    if a in u.blk {
      assert FreeAt(u.blk, a) by { assert !LiveAt(t.blk, a); }
      SoleFree(r, u, a);
    }
  }

  lemma SubsetWhole(k: set<nat>, q: set<nat>)
    requires k <= q && |k| == |q|
    ensures k == q
  {
    assert q == k + (q - k);
  }

  lemma ListSize(s: Heap)
    requires WF(s)
    ensures |FreeStarts(s.blk)| == |s.free|
  {
    DistinctSize(s.free, FreeStarts(s.blk));
  }

  // Every other free block is still one.
  lemma OthersStand(r: Buffer, l: Keys, t: Heap, u: Heap, c: nat)
    requires StrayEnds(r, l, t) && Emerges(r, l, t, u) && Merger(t, u) && c in t.blk && c != t.free[0]
    ensures c in u.blk
  {
    hide Tiles, Ctl, KindFlags, Tagged, BlocksOk, LinksOk, FeetOk, Sum;
    HeadGone(r, l, t, u);
    var a := t.free[0];
    assert a in t.free;
    ListSize(t);
    ListSize(u);
    Conservation(u);
    var k, q := FreeStarts(u.blk), FreeStarts(t.blk) - {a};
    assert |q| == |FreeStarts(t.blk)| - 1;
    assert k <= q;
    SubsetWhole(k, q);
    if FreeAt(t.blk, c) {
      assert c in q;
    }
  }

  lemma TileFacts(s: Heap, x: nat, y: nat)
    requires WF(s) && x in s.blk
    ensures ValidWidth(s.w) && BASE in s.blk && BASE <= x && MinBlock(s.w) <= s.blk[x].size && EndOf(s.blk, x) <= s.end
    ensures EndOf(s.blk, x) == s.end || EndOf(s.blk, x) in s.blk
    ensures y in s.blk && x < y ==> EndOf(s.blk, x) <= y
    ensures y in s.blk && y < x ==> EndOf(s.blk, y) <= x
  {
    FitsTiles(s.w, s.end, s.blk, x);
    assert Chained(s.end, s.blk, x);
  }

  // So the block before it must have grown by its size.
  lemma NeighbourGrew(r: Buffer, l: Keys, t: Heap, u: Heap) returns (f: nat)
    requires StrayEnds(r, l, t) && Emerges(r, l, t, u) && Merger(t, u)
    requires FreeAt(t.blk, t.free[0])
    requires EndOf(t.blk, t.free[0]) == t.end || LiveAt(t.blk, EndOf(t.blk, t.free[0]))
    ensures FreeAt(t.blk, f) && FreeAt(u.blk, f) && EndOf(t.blk, f) == t.free[0]
    ensures u.blk[f].size == t.blk[f].size + t.blk[t.free[0]].size
  {
    hide WF, Mirrors, KeysOf, StrayEnds;
    EndsSound(r, l, t);
    var a := t.free[0];
    var e := EndOf(t.blk, a);
    HeadGone(r, l, t, u);
    TileFacts(t, a, BASE);
    TilesOf(u);
    TileFacts(u, BASE, a);
    f := BlockOver(u.w, u.end, u.blk, BASE, a);
    TileFacts(t, f, a);
    TileFacts(u, f, e);
    var g := EndOf(t.blk, f);
    if g != a {
      TileFacts(u, f, g);
      OthersStand(r, l, t, u, g);
      assert false;
    }
    TileFacts(t, a, EndOf(u.blk, f));
  }

  lemma EndsSound(r: Buffer, l: Keys, t: Heap)
    requires StrayEnds(r, l, t)
    ensures WF(t) && t.free != []
  {
  }

  lemma TilesOf(s: Heap)
    requires WF(s)
    ensures Tiles(s.w, s.end, s.blk) && BASE in s.blk
  {
  }

  lemma StrayKeys(m: Buffer, k: Keys, iso: Buffer, d: Keys, r: Buffer, l: Keys, t: Heap, p: nat)
    requires StrayPoint(m, t, p) && k == KeysOf(t) && WaylaidBy(m, k, iso, d, r, l, t, p)
    ensures l.firstFree != t.free[0] && l.freeEntries + 1 == |t.free|
  {
    hide Tiles, Tagged, Mirrors, LooksFree, Sum, Isolated, AbsorbOf;
    Conservation(t);
    NoBlockAtZero(t);
    assert t.free[0] in t.free;
  }

  lemma StraySizes(m: Buffer, iso: Buffer, t: Heap, x: nat)
    requires WF(t) && Mirrors(m, t) && x in t.blk && t.free != [] && Isolated(m, iso, t, 0)
    ensures Get(iso, x + 1, t.w) == t.blk[x].size
  {
    hide LinksOk, FeetOk, Tiles, Tagged, Listed, Quiet, Touched, Get, KindFlags;
    assert BlockOk(m, t.w, x, t.blk[x]);
  }

  lemma SizeIs(r: Buffer, u: Heap, x: nat)
    requires Mirrors(r, u) && x in u.blk
    ensures Get(r, x + 1, u.w) == u.blk[x].size && Get(r, x, 1) == KindFlags(u.w, u.blk[x].kind)
  {
    hide LinksOk, FeetOk, Get, KindFlags;
    assert BlockOk(r, u.w, x, u.blk[x]);
  }

  // Everything the merge from p does, in one place.
  lemma StrayAll(m: Buffer, k: Keys, iso: Buffer, d: Keys, r: Buffer, l: Keys, t: Heap, p: nat)
    requires StrayPoint(m, t, p) && k == KeysOf(t) && t.free[0] in t.blk && WaylaidBy(m, k, iso, d, r, l, t, p)
    ensures FOOT <= EndOf(t.blk, t.free[0]) && StrayWrites(iso, r, t, p) && |r| == t.end && StrayEnds(r, l, t)
    ensures Isolated(m, iso, t, 0) && p + HeaderSize(t.w) <= Reach(t)
  {
    hide WF, Mirrors, LooksFree, FreeReading, StrayWrites, AbsorbOf, Isolated, KindFlags, Delist, KeysOf;
    var a := t.free[0];
    IsoLength(m, iso, t);
    StrayPlace(m, t, p);
    StrayMerge(m, iso, t, p);
    StrayFlags(iso, r, t, p);
    StrayKeys(m, k, iso, d, r, l, t, p);
  }

  lemma IsoLength(m: Buffer, iso: Buffer, t: Heap)
    requires t.free != [] && Isolated(m, iso, t, 0)
    ensures |iso| == |m|
  {
  }

  /** No heap with the same live blocks, in which free ones were merged, comes out
      of a merge that started where no block does. */
  lemma NoMergeEmerges(m: Buffer, k: Keys, r: Buffer, l: Keys, t: Heap, p: nat, u: Heap)
    requires StrayPoint(m, t, p) && k == KeysOf(t) && Waylaid(m, k, r, l, t, p)
    requires Merger(t, u)
    ensures !Emerges(r, l, t, u)
  {
    hide WF, Mirrors, LooksFree, StrayEnds, Merger, KindFlags, WaylaidBy, Isolated, Get, FootAt, Bumps;
    var iso, d :| WaylaidBy(m, k, iso, d, r, l, t, p);
    StrayAll(m, k, iso, d, r, l, t, p);
    if Emerges(r, l, t, u) {
      var a, w := t.free[0], t.w;
      var f := NeighbourGrew(r, l, t, u);
      StraySizes(m, iso, t, f);
      SizeIs(r, u, f);
      StrayPlace(m, t, p);
      TileFacts(t, f, a);
      RangeValues();
      NoOtherSum(iso, r, w, p, f, t.blk[a].size, Reach(t));
    }
  }

  // The field behind p lies within one block, clear of its header, or in front of
  // all blocks.
  predicate InBody(t: Heap, p: nat) {
    p + t.w < BASE || exists b | b in t.blk :: b + t.w <= p && p + 1 + t.w <= EndOf(t.blk, b)
  }

  lemma StrayKeepsSizes(m: Buffer, iso: Buffer, r: Buffer, t: Heap, p: nat, x: nat)
    requires WF(t) && Mirrors(m, t) && t.free != [] && FreeAt(t.blk, t.free[0]) && Isolated(m, iso, t, 0)
    requires FOOT <= EndOf(t.blk, t.free[0]) && StrayWrites(iso, r, t, p)
    requires InBody(t, p) && x in t.blk && x < t.free[0]
    ensures Get(r, x + 1, t.w) == t.blk[x].size
  {
    hide WF, Mirrors, Isolated, Get, FootAt;
    var a := t.free[0];
    StraySizes(m, iso, t, x);
    TileFacts(t, x, a);
    TileFacts(t, a, x);
    if p + t.w >= BASE {
      var b :| b in t.blk && b + t.w <= p && p + 1 + t.w <= EndOf(t.blk, b);
      TileFacts(t, x, b);
    }
    GetSame(iso, r, x + 1, t.w);
  }

  lemma {:induction false} ChainSame(r: Buffer, t: Heap, u: Heap, x: nat, y: nat)
    requires WF(t) && WF(u) && Mirrors(r, u) && u.w == t.w && u.end == t.end
    requires x in t.blk && x in u.blk && y in t.blk && x <= y
    requires forall b :: b in t.blk && b < y ==> Get(r, b + 1, t.w) == t.blk[b].size
    ensures y in u.blk
    decreases y - x
  {
    hide WF, Mirrors, Get;
    if x < y {
      SizeIs(r, u, x);
      TileFacts(t, x, y);
      TileFacts(u, x, y);
      TileFacts(t, y, x);
      ChainSame(r, t, u, EndOf(t.blk, x), y);
    }
  }

  /** If the merge overwrote no header but that of the block p leads to, no heap at
      all comes out of it. */
  lemma NoHeapEmerges(m: Buffer, k: Keys, r: Buffer, l: Keys, t: Heap, p: nat, u: Heap)
    requires StrayPoint(m, t, p) && k == KeysOf(t) && Waylaid(m, k, r, l, t, p)
    requires InBody(t, p) && FOOT < t.blk[t.free[0]].size
    ensures !Emerges(r, l, t, u)
  {
    hide WF, Mirrors, LooksFree, StrayEnds, WaylaidBy, Isolated, Get, FootAt, Bumps, InBody, StrayWrites;
    var iso, d :| WaylaidBy(m, k, iso, d, r, l, t, p);
    StrayAll(m, k, iso, d, r, l, t, p);
    if Emerges(r, l, t, u) {
      var a := t.free[0];
      TilesOf(t);
      TilesOf(u);
      TileFacts(t, a, a);
      forall b | b in t.blk && b < a
        ensures Get(r, b + 1, t.w) == t.blk[b].size
      {
        StrayKeepsSizes(m, iso, r, t, p, b);
      }
      ChainSame(r, t, u, BASE, a);
      SizeIs(r, u, a);
      HeadCleared(iso, r, t, u, p);
    }
  }

  lemma HeadCleared(iso: Buffer, r: Buffer, t: Heap, u: Heap, p: nat)
    requires t.free != [] && t.free[0] in t.blk && FOOT < t.blk[t.free[0]].size && t.free[0] in u.blk
    requires StrayWrites(iso, r, t, p)
    ensures Get(r, t.free[0], 1) != KindFlags(u.w, u.blk[t.free[0]].kind)
  {
    hide Bumps, Get, FootAt;
  }
}
