/** What a walk over the block chain adds up: the four figures the key block of
    the arena keeps, and how each step of the allocator moves them. */
module Tally {
  import opened HeapModel

  datatype Totals = Totals(freeSize: nat, freeItems: nat, allocSize: nat, allocItems: nat)

  const NONE := Totals(0, 0, 0, 0)

  function Plus(t: Totals, b: Block): Totals {
    if b.kind.Free? then t.(freeSize := t.freeSize + b.size, freeItems := t.freeItems + 1)
    else t.(allocSize := t.allocSize + b.size, allocItems := t.allocItems + 1)
  }

  // Totals of the chain of blocks from a to the end of the arena.
  function Count(end: nat, m: Blocks, a: nat): Totals
    decreases if a <= end then end - a else 0
  {
    if a in m && 0 < m[a].size && EndOf(m, a) <= end then Plus(Count(end, m, EndOf(m, a)), m[a]) else NONE
  }

  // The totals of a well-formed heap.
  function Sum(s: Heap): Totals { Count(s.end, s.blk, BASE) }

  lemma CountNext(w: nat, end: nat, m: Blocks, a: nat)
    requires Tiles(w, end, m) && a in m
    ensures var e := EndOf(m, a);
      && a < e <= end && MinBlock(w) <= m[a].size && (e in m || e == end)
      && Count(end, m, a) == Plus(Count(end, m, e), m[a])
  {
    assert Fits(w, end, m, a) && Chained(end, m, a);
  }

  lemma CountEnd(w: nat, end: nat, m: Blocks)
    requires Tiles(w, end, m)
    ensures end !in m && Count(end, m, end) == NONE
  {
    NothingAtEnd(w, end, m);
  }

  lemma {:induction false} CountSpan(w: nat, end: nat, m: Blocks, a: nat)
    requires Tiles(w, end, m) && (a in m || a == end)
    ensures var t := Count(end, m, a); a + t.freeSize + t.allocSize == end
    decreases end - a
  {
    hide Tiles;
    CountEnd(w, end, m);
    if a in m {
      CountNext(w, end, m, a);
      CountSpan(w, end, m, EndOf(m, a));
    }
  }

  lemma {:induction false} CountDense(w: nat, end: nat, m: Blocks, a: nat)
    requires Tiles(w, end, m) && (a in m || a == end)
    ensures var t := Count(end, m, a); MinBlock(w) * t.freeItems <= t.freeSize
    decreases end - a
  {
    hide Tiles, MinBlock;
    CountEnd(w, end, m);
    if a in m {
      CountNext(w, end, m, a);
      CountDense(w, end, m, EndOf(m, a));
    }
  }

  // The free blocks at or after a.
  ghost function FreeFrom(m: Blocks, a: nat): set<nat> {
    set x | x in m && a <= x && FreeAt(m, x)
  }

  lemma FreeFromNext(w: nat, end: nat, m: Blocks, a: nat)
    requires Tiles(w, end, m) && a in m
    ensures a !in FreeFrom(m, EndOf(m, a))
    ensures FreeFrom(m, a) == FreeFrom(m, EndOf(m, a)) + if FreeAt(m, a) then {a} else {}
  {
    assert Fits(w, end, m, a);
  }

  lemma {:induction false} CountFree(w: nat, end: nat, m: Blocks, a: nat)
    requires Tiles(w, end, m) && (a in m || a == end)
    ensures Count(end, m, a).freeItems == |FreeFrom(m, a)|
    decreases end - a
  {
    CountEnd(w, end, m);
    if a in m {
      CountNext(w, end, m, a);
      FreeFromNext(w, end, m, a);
      hide Tiles, FreeFrom, Count;
      CountFree(w, end, m, EndOf(m, a));
    } else {
      assert forall x :: x in m ==> Fits(w, end, m, x);
      assert FreeFrom(m, a) == {};
    }
  }

  lemma {:induction false} DistinctSize(q: seq<nat>, k: set<nat>)
    requires Distinct(q) && (forall x :: x in k <==> x in q)
    ensures |k| == |q|
  {
    if q != [] {
      assert forall i :: 0 <= i < |q[1..]| ==> q[1..][i] == q[i+1];
      assert q[0] !in q[1..];
      DistinctSize(q[1..], k - {q[0]});
    }
  }

  /** Free and allocated bytes and the key block fill the arena, the free list is
      as long as the chain says, and it cannot outgrow the walk's budget. */
  lemma Conservation(s: Heap)
    requires WF(s)
    ensures BASE + Sum(s).freeSize + Sum(s).allocSize == s.end
    ensures Sum(s).freeItems == |s.free|
    ensures MinBlock(s.w) * |s.free| <= s.end - BASE
  {
    CountSpan(s.w, s.end, s.blk, BASE);
    CountDense(s.w, s.end, s.blk, BASE);
    CountFree(s.w, s.end, s.blk, BASE);
    forall x
      ensures x in FreeFrom(s.blk, BASE) <==> x in s.free
    {
      assert x in s.blk ==> Fits(s.w, s.end, s.blk, x);
    }
    DistinctSize(s.free, FreeFrom(s.blk, BASE));
  }

  // The totals include every single free block.
  lemma {:induction false} CountCovers(w: nat, end: nat, m: Blocks, a: nat, x: nat)
    requires Tiles(w, end, m) && a in m && FreeAt(m, x) && a <= x
    ensures m[x].size <= Count(end, m, a).freeSize && 0 < Count(end, m, a).freeItems
    decreases end - a
  {
    CountNext(w, end, m, a);
    if a < x {
      assert Fits(w, end, m, x);
      CountCovers(w, end, m, EndOf(m, a), x);
    }
  }

  lemma SumCovers(s: Heap, x: nat)
    requires WF(s) && FreeAt(s.blk, x)
    ensures s.blk[x].size <= Sum(s).freeSize && 0 < Sum(s).freeItems
  {
    assert Fits(s.w, s.end, s.blk, x);
    CountCovers(s.w, s.end, s.blk, BASE, x);
  }

  // Blocks a walk may visit before the list is declared cyclic.
  function MaxBlocks(w: nat, end: nat): nat { end / HeaderSize(w) + 1 }

  lemma BudgetCovers(s: Heap)
    requires WF(s)
    ensures |s.free| + 1 <= MaxBlocks(s.w, s.end)
  {
    hide Tiles, Listed, Tagged, Sum;
    Conservation(s);
    RoomFor(s.w, |s.free|, s.end - BASE);
    QuotientGrows(s.w, s.end - BASE, s.end);
  }

  lemma RoomFor(w: nat, f: nat, room: nat)
    requires ValidWidth(w) && MinBlock(w) * f <= room
    ensures f <= room / HeaderSize(w)
  {
    if w == 2 {
      assert 3 * f <= room;
    } else if w == 4 {
      assert 5 * f <= room;
    } else {
      assert 9 * f <= room;
    }
  }

  lemma QuotientGrows(w: nat, m: nat, n: nat)
    requires ValidWidth(w) && m <= n
    ensures m / HeaderSize(w) <= n / HeaderSize(w)
  {
  }

  // ---- local changes -----------------------------------------------------------

  // Going from (t, ta) to (u, ua) the sum at x moved as much as the sum at a.
  ghost predicate Shifted(t: Totals, ta: Totals, u: Totals, ua: Totals) {
    && t.freeSize + ua.freeSize == u.freeSize + ta.freeSize
    && t.freeItems + ua.freeItems == u.freeItems + ta.freeItems
    && t.allocSize + ua.allocSize == u.allocSize + ta.allocSize
    && t.allocItems + ua.allocItems == u.allocItems + ta.allocItems
  }

  ghost predicate AgreeBelow(m: Blocks, n: Blocks, a: nat) {
    forall x: nat :: x < a ==> (x in m <==> x in n) && (x in m ==> m[x] == n[x])
  }

  ghost predicate AgreeFrom(m: Blocks, n: Blocks, a: nat) {
    forall x: nat :: a <= x ==> (x in m <==> x in n) && (x in m ==> m[x] == n[x])
  }

  // One step of CountShift: a block below a is the same block in both chains.
  lemma ShiftStep(w: nat, end: nat, m: Blocks, top: nat, n: Blocks, a: nat, x: nat)
    requires Tiles(w, end, m) && Tiles(w, top, n) && AgreeBelow(m, n, a) && x < a && x in m
    requires a in m || a == end
    ensures x in n && n[x] == m[x] && EndOf(m, x) <= a && (EndOf(m, x) < a ==> EndOf(m, x) in m)
  {
    assert Fits(w, end, m, x) && Chained(end, m, x);
  }

  lemma {:induction false} CountShift(w: nat, end: nat, m: Blocks, top: nat, n: Blocks, a: nat, x: nat)
    requires Tiles(w, end, m) && Tiles(w, top, n) && AgreeBelow(m, n, a) && x <= a
    requires (a in m || a == end) && (x in m || x == a)
    ensures Shifted(Count(end, m, x), Count(end, m, a), Count(top, n, x), Count(top, n, a))
    decreases a - x
  {
    hide Tiles, Count, AgreeBelow;
    if x < a {
      ShiftStep(w, end, m, top, n, a, x);
      CountNext(w, end, m, x);
      CountNext(w, top, n, x);
      CountShift(w, end, m, top, n, a, EndOf(m, x));
    }
  }

  lemma {:induction false} CountSame(w: nat, end: nat, m: Blocks, n: Blocks, a: nat)
    requires AgreeFrom(m, n, a)
    ensures Count(end, m, a) == Count(end, n, a)
    decreases if a <= end then end - a else 0
  {
    if a in m && 0 < m[a].size && EndOf(m, a) <= end {
      CountSame(w, end, m, n, EndOf(m, a));
    }
  }

  lemma JoinAgrees(w: nat, end: nat, m: Blocks, a: nat)
    requires Tiles(w, end, m) && FreeAt(m, a) && FreeAt(m, EndOf(m, a))
    ensures AgreeBelow(m, Join(m, a), a) && AgreeFrom(m, Join(m, a), EndOf(m, EndOf(m, a))) && BASE <= a && BASE in m
    ensures a in Join(m, a) && Join(m, a)[a] == Block(m[a].size + m[EndOf(m, a)].size, Free)
  {
    assert Fits(w, end, m, a) && Fits(w, end, m, EndOf(m, a));
  }

  /** Merging two free blocks keeps every byte count and drops one free block. */
  lemma SumAbsorb(s: Heap, a: nat)
    requires WF(s) && FreeAt(s.blk, a) && FreeAt(s.blk, EndOf(s.blk, a))
    ensures var t, u := Sum(s), Sum(Absorb(s, a));
      && u.freeSize == t.freeSize && u.freeItems + 1 == t.freeItems
      && u.allocSize == t.allocSize && u.allocItems == t.allocItems
  {
    hide Tiles, Count, AgreeBelow, AgreeFrom, Join, Listed, Tagged, Remove;
    var w, end, m := s.w, s.end, s.blk;
    var j, n := Join(m, a), EndOf(m, a);
    JoinTiles(w, end, m, a);
    JoinAgrees(w, end, m, a);
    CountNext(w, end, m, a);
    CountNext(w, end, m, n);
    CountNext(w, end, j, a);
    CountSame(w, end, m, j, EndOf(m, n));
    CountShift(w, end, m, end, j, a, BASE);
  }

  // From t to u: taken bytes went from free to allocated, in one block; the
  // free list lost an entry unless the block was split.
  ghost predicate Moved(t: Totals, u: Totals, taken: nat, split: bool) {
    && u.freeSize + taken == t.freeSize && u.allocSize == t.allocSize + taken
    && u.allocItems == t.allocItems + 1
    && u.freeItems + (if split then 0 else 1) == t.freeItems
  }

  lemma CarveAgrees(w: nat, end: nat, m: Blocks, a: nat, n: nat)
    requires Tiles(w, end, m) && FreeAt(m, a) && MinBlock(w) <= n <= m[a].size && Splits(w, m, a, n)
    ensures var k := Carve(m, a, n);
      && AgreeBelow(m, k, a) && AgreeFrom(m, k, EndOf(m, a)) && BASE <= a && BASE in m
      && a in k && k[a] == Block(n, PENDING)
      && a + n in k && k[a + n] == Block(m[a].size - n, Free)
  {
    assert Fits(w, end, m, a);
  }

  lemma AdoptAgrees(w: nat, end: nat, m: Blocks, a: nat)
    requires Tiles(w, end, m) && FreeAt(m, a)
    ensures var k := Adopt(m, a);
      && AgreeBelow(m, k, a) && AgreeFrom(m, k, EndOf(m, a)) && BASE <= a && BASE in m
      && a in k && k[a] == Block(m[a].size, PENDING)
  {
    assert Fits(w, end, m, a);
  }

  lemma SumCarve(w: nat, end: nat, m: Blocks, a: nat, n: nat)
    requires Tiles(w, end, m) && FreeAt(m, a) && MinBlock(w) <= n <= m[a].size && Splits(w, m, a, n)
    ensures Moved(Count(end, m, BASE), Count(end, Carve(m, a, n), BASE), n, true)
  {
    hide Carve, Tiles, AgreeBelow, AgreeFrom, Count;
    var k := Carve(m, a, n);
    CarveTiles(w, end, m, a, n);
    CarveAgrees(w, end, m, a, n);
    CountNext(w, end, m, a);
    CountNext(w, end, k, a);
    CountNext(w, end, k, a + n);
    CountSame(w, end, m, k, EndOf(m, a));
    CountShift(w, end, m, end, k, a, BASE);
  }

  lemma SumAdopt(w: nat, end: nat, m: Blocks, a: nat)
    requires Tiles(w, end, m) && FreeAt(m, a)
    ensures Moved(Count(end, m, BASE), Count(end, Adopt(m, a), BASE), m[a].size, false)
  {
    hide Adopt, Tiles, AgreeBelow, AgreeFrom, Count;
    var k := Adopt(m, a);
    AdoptTiles(w, end, m, a);
    AdoptAgrees(w, end, m, a);
    CountNext(w, end, m, a);
    CountNext(w, end, k, a);
    CountSame(w, end, m, k, EndOf(m, a));
    CountShift(w, end, m, end, k, a, BASE);
  }

  /** Splitting or adopting moves exactly the block's bytes from free to allocated. */
  lemma SumTake(s: Heap, a: nat, n: nat)
    requires WF(s) && FreeAt(s.blk, a) && MinBlock(s.w) <= n <= s.blk[a].size
    ensures Moved(Sum(s), Sum(Take(s, a, n)), Take(s, a, n).blk[a].size, Splits(s.w, s.blk, a, n))
  {
    if Splits(s.w, s.blk, a, n) {
      SumCarve(s.w, s.end, s.blk, a, n);
    } else {
      SumAdopt(s.w, s.end, s.blk, a);
    }
  }

  lemma GrowAgrees(w: nat, end: nat, m: Blocks, extra: nat)
    requires Tiles(w, end, m)
    ensures AgreeBelow(m, m[end := Block(extra, Free)], end) && BASE <= end && BASE in m
  {
    assert Fits(w, end, m, BASE);
  }

  lemma SumGrow(s: Heap, extra: nat)
    requires WF(s) && MinBlock(s.w) <= extra
    ensures var t, u := Sum(s), Sum(Grow(s, extra));
      u == t.(freeSize := t.freeSize + extra, freeItems := t.freeItems + 1)
  {
    hide Tiles, Count, AgreeBelow, Listed, Tagged;
    var g := Grow(s, extra);
    GrowTiles(s.w, s.end, s.blk, extra);
    CountEnd(s.w, s.end, s.blk);
    CountNext(s.w, g.end, g.blk, s.end);
    CountEnd(s.w, g.end, g.blk);
    GrowAgrees(s.w, s.end, s.blk, extra);
    CountShift(s.w, s.end, s.blk, g.end, g.blk, s.end, BASE);
  }

  lemma ReleaseAgrees(w: nat, end: nat, m: Blocks, a: nat)
    requires Tiles(w, end, m) && LiveAt(m, a)
    ensures var k := m[a := Block(m[a].size, Free)];
      && AgreeBelow(m, k, a) && AgreeFrom(m, k, EndOf(m, a)) && BASE <= a && BASE in m
  {
    assert Fits(w, end, m, a);
  }

  /** Releasing moves exactly the block's bytes from allocated to free. */
  lemma SumRelease(s: Heap, a: nat)
    requires WF(s) && LiveAt(s.blk, a)
    ensures var t, u, size := Sum(s), Sum(Release(s, a)), s.blk[a].size;
      && u.freeSize == t.freeSize + size && u.allocSize + size == t.allocSize
      && u.freeItems == t.freeItems + 1 && u.allocItems + 1 == t.allocItems
  {
    hide Tiles, Count, AgreeBelow, AgreeFrom, Listed, Tagged;
    var w, end, m := s.w, s.end, s.blk;
    var k := Release(s, a).blk;
    ReleaseKeeps(s, a);
    ReleaseAgrees(w, end, m, a);
    CountNext(w, end, m, a);
    CountNext(w, end, k, a);
    CountSame(w, end, m, k, EndOf(m, a));
    CountShift(w, end, m, end, k, a, BASE);
  }

  // Only the kind of live blocks changed, from live to live.
  ghost predicate Recast(m: Blocks, n: Blocks) {
    && (forall x :: x in m <==> x in n)
    && (forall x :: x in m ==> m[x].size == n[x].size && (m[x].kind.Free? <==> n[x].kind.Free?))
  }

  lemma {:induction false} CountRecast(w: nat, end: nat, m: Blocks, n: Blocks, a: nat)
    requires Recast(m, n)
    ensures Count(end, m, a) == Count(end, n, a)
    decreases if a <= end then end - a else 0
  {
    if a in m && 0 < m[a].size && EndOf(m, a) <= end {
      CountRecast(w, end, m, n, EndOf(m, a));
    }
  }
}
