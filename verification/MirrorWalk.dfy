/** The allocation pass on bytes: following next fields visits the free list, and
    a chosen block that was swallowed reads as no block. */
module MirrorWalk {
  import opened Bytes
  import opened HeapModel
  import opened Layout
  import opened Mirror
  import opened Allocator

  // The part of rest that starts with a block still free.
  ghost function Ahead(rest: seq<nat>, m: Blocks): (r: seq<nat>)
    ensures |r| <= |rest| && (r != [] ==> FreeAt(m, r[0]))
    ensures forall x :: x in r ==> x in rest
  {
    if rest == [] || FreeAt(m, rest[0]) then rest else Ahead(rest[1..], m)
  }

  lemma {:induction false} WalkAhead(s: Heap, rest: seq<nat>, n: nat, firstFit: bool, f: Search, budget: nat)
    requires WF(s)
    ensures Walk(s, Ahead(rest, s.blk), n, firstFit, f, budget) == Walk(s, rest, n, firstFit, f, budget)
    decreases |rest|
  {
    hide Visit;
    if rest != [] && !FreeAt(s.blk, rest[0]) {
      WalkAhead(s, rest[1..], n, firstFit, f, budget);
    }
  }

  lemma {:induction false} KeepAhead(rest: seq<nat>, m: Blocks)
    requires forall x :: x in rest && x in m ==> FreeAt(m, x)
    ensures Keep(Ahead(rest, m), m.Keys) == Keep(rest, m.Keys)
  {
    if rest != [] && !FreeAt(m, rest[0]) {
      KeepAhead(rest[1..], m);
    }
  }

  lemma {:induction false} KeepPlus(p: seq<nat>, q: seq<nat>, k: set<nat>)
    ensures Keep(p + q, k) == Keep(p, k) + Keep(q, k)
  {
    if p == [] {
      assert p + q == q;
    } else {
      assert (p + q)[1..] == p[1..] + q;
      KeepPlus(p[1..], q, k);
    }
  }

  // The list is what the pass has left behind and what is still ahead of it.
  ghost predicate Reached(s: Heap, front: seq<nat>, rest: seq<nat>) {
    && s.free == front + Keep(rest, s.blk.Keys)
    && (forall x :: x in rest && x in s.blk ==> FreeAt(s.blk, x))
    && (rest != [] ==> FreeAt(s.blk, rest[0]))
  }

  lemma ReachedStart(s: Heap)
    requires WF(s)
    ensures Reached(s, [], s.free)
  {
    KeepAll(s.free, s.blk.Keys);
    assert s.free != [] ==> s.free[0] in s.free;
  }

  // Dropping swallowed entries from a list that is split at x.
  lemma KeepAround(front: seq<nat>, x: nat, tail: seq<nat>, k: set<nat>, l: set<nat>)
    requires l <= k && x in l
    ensures Keep(front + Keep([x] + tail, k), l) == Keep(front, l) + ([x] + Keep(tail, l))
  {
    var rest := [x] + tail;
    assert rest[1..] == tail;
    KeepPlus(front, Keep(rest, k), l);
    KeepKeep(rest, k, l);
  }

  lemma AheadFirst(tail: seq<nat>, m: Blocks)
    ensures var r := Ahead(tail, m); First(Keep(r, m.Keys)) == First(r)
  {
  }

  /** After collating the block it stands at, the pass moves to the next one still
      free: the next field names it. */
  lemma ReachedNext(s: Heap, t: Heap, front: seq<nat>, rest: seq<nat>) returns (f: seq<nat>)
    requires Reached(s, front, rest) && rest != [] && Grown(s, t, rest[0])
    ensures Reached(t, f + [rest[0]], Ahead(rest[1..], t.blk))
    ensures |f| < |t.free| && t.free[|f|] == rest[0]
    ensures After(t.free, |f|) == First(Ahead(rest[1..], t.blk))
  {
    hide Keep, Ahead;
    var x, tail := rest[0], rest[1..];
    assert rest == [x] + tail;
    f := Keep(front, t.blk.Keys);
    KeepAround(front, x, tail, s.blk.Keys, t.blk.Keys);
    RestFree(s, t, rest);
    KeepAhead(tail, t.blk);
    AheadFirst(tail, t.blk);
    assert f + ([x] + Keep(tail, t.blk.Keys)) == f + [x] + Keep(Ahead(tail, t.blk), t.blk.Keys);
  }

  lemma RestFree(s: Heap, t: Heap, rest: seq<nat>)
    requires rest != [] && Grown(s, t, rest[0])
    requires forall x :: x in rest && x in s.blk ==> FreeAt(s.blk, x)
    ensures forall x :: x in rest && x in t.blk ==> FreeAt(t.blk, x)
    ensures t.blk.Keys <= s.blk.Keys && rest[0] in t.blk.Keys
  {
  }

  // ---- the block chosen so far -----------------------------------------------------

  // It is still free and longer than a tag, or it was swallowed and reads as no block.
  ghost predicate Held(m: Buffer, s: Heap, b: nat) {
    b != 0 ==>
      || (FreeAt(s.blk, b) && FOOT < s.blk[b].size)
      || (b !in s.blk && Grave(m, s.w, s.blk, b))
  }

  lemma HeldOn(m: Buffer, r: Buffer, s: Heap, t: Heap, a: nat, b: nat)
    requires WF(s) && |m| == s.end && Held(m, s, b) && Kept(m, r, s) && Grown(s, t, a) && Buried(r, s, t)
    ensures Held(r, t, b)
  {
    hide WF, Kept, Grave, Covers, Listed;
    SwallowedCovers(s.blk, t.blk, a);
    if b != 0 && b !in s.blk {
      GraveStays(m, r, s, t, b);
    }
  }

  /** A swallowed block fails the first test of the re-check: its addressing mode
      reads as 8-bit, which no arena has. */
  lemma GraveReads(m: Buffer, w: nat, blk: Blocks, b: nat)
    requires Grave(m, w, blk, b)
    ensures AddressBits(Get(m, b, 1)) != AddressCode(w)
  {
  }

  /** One turn of the pass: collate, then pass over, take at once, or consider. */
  lemma WalkStep(s: Heap, rest: seq<nat>, n: nat, firstFit: bool, f: Search, budget: nat)
    requires WF(s) && rest != [] && FreeAt(s.blk, rest[0]) && budget > 0
    ensures var a, t := rest[0], Collate(s, rest[0]);
      && WF(t) && FreeAt(t.blk, a)
      && var size := t.blk[a].size;
      && var g := Consider(f, a, size);
         Walk(s, rest, n, firstFit, f, budget) ==
           if size < n then Walk(t, rest[1..], n, firstFit, f, budget - 1)
           else if firstFit || size - n < MinBlock(s.w) then Chosen(t, a)
           else if FIT_WALK <= g.fits then Chosen(t, g.best)
           else Walk(t, rest[1..], n, firstFit, g, budget - 1)
  {
    hide WF, Collate, TidyAt, Grown;
    CollateKeeps(s, rest[0]);
    assert FreeAt(Collate(s, rest[0]).blk, rest[0]) by { GrownFree(s, Collate(s, rest[0]), rest[0]); }
  }

  lemma GrownFree(s: Heap, t: Heap, a: nat)
    requires Grown(s, t, a)
    ensures FreeAt(t.blk, a) && SameLive(s.blk, t.blk) && Covers(s.blk, t.blk)
  {
    SwallowedLive(s.blk, t.blk, a);
    SwallowedCovers(s.blk, t.blk, a);
  }

  // ---- a pass in progress ------------------------------------------------------------

  /** The arena m mirrors s in the middle of a pass that began at was, mirrored by
      m0: the pass stands at the head of rest, has found f, and may visit left
      more blocks. */
  ghost predicate PassAt(m0: Buffer, m: Buffer, was: Heap, s: Heap, front: seq<nat>, rest: seq<nat>,
                         n: nat, firstFit: bool, f: Search, left: nat, budget: nat) {
    && WF(was) && WF(s) && Reached(s, front, rest)
    && Walk(s, rest, n, firstFit, f, left) == Walk(was, was.free, n, firstFit, NOTHING, budget)
    && Kept(m0, m, was) && Covers(was.blk, s.blk) && s.w == was.w && Roams(m0, m, was, s)
    && Held(m, s, f.best)
  }

  lemma KeptSelf(m: Buffer, s: Heap)
    requires WF(s) && |m| == s.end
    ensures Kept(m, m, s)
  {
    QuietSelf(m, s);
  }

  lemma PassStarts(m: Buffer, s: Heap, n: nat, firstFit: bool, budget: nat)
    requires WF(s) && |m| == s.end
    ensures PassAt(m, m, s, s, [], s.free, n, firstFit, NOTHING, budget, budget)
  {
    hide WF, Walk, Kept, Covers, Reached, Roams;
    ReachedStart(s);
    RoamsSelf(m, s);
    KeptSelf(m, s);
    CoversSelf(s.blk);
  }

  // What one collation of the pass leaves for its next turn, if it has one.
  lemma PassTurn(m0: Buffer, m: Buffer, r: Buffer, was: Heap, s: Heap, t: Heap, front: seq<nat>, rest: seq<nat>,
                 n: nat, firstFit: bool, f: Search, left: nat, budget: nat) returns (next: seq<nat>)
    requires WF(s) && |m| == s.end && rest != [] && left > 0
    requires PassAt(m0, m, was, s, front, rest, n, firstFit, f, left, budget)
    requires Kept(m, r, s) && FreeAt(s.blk, rest[0]) && t == Collate(s, rest[0]) && Buried(r, s, t) && Roams(m, r, s, t)
    ensures WF(t) && t.w == s.w && FreeAt(t.blk, rest[0]) && Held(r, t, f.best)
    ensures Kept(m0, r, was) && Covers(was.blk, t.blk) && Roams(m0, r, was, t)
    ensures |next| < |t.free| && t.free[|next|] == rest[0]
    ensures After(t.free, |next|) == First(Ahead(rest[1..], t.blk))
    ensures Reached(t, next + [rest[0]], Ahead(rest[1..], t.blk))
  {
    hide WF, Collate, TidyAt, Walk, Reached, Ahead, Keep, Kept, Covers, Held, Buried, Grown, Roams;
    var a := rest[0];
    RoamsChain(m0, m, r, was, s, t);
    CollateKeeps(s, a);
    GrownFree(s, t, a);
    next := ReachedNext(s, t, front, rest);
    HeldOn(m, r, s, t, a, f.best);
    KeptChain(m0, m, r, was, s);
    CoversChain(was.blk, s.blk, t.blk);
    assert t.w == s.w by { GrownWidth(s, t, a); }
  }

  lemma GrownWidth(s: Heap, t: Heap, a: nat)
    requires Grown(s, t, a)
    ensures t.w == s.w
  {
  }

  lemma PassGoes(m0: Buffer, r: Buffer, was: Heap, t: Heap, next: seq<nat>, rest: seq<nat>,
                 n: nat, firstFit: bool, g: Search, left: nat, budget: nat)
    requires WF(was) && WF(t) && rest != [] && Reached(t, next + [rest[0]], Ahead(rest[1..], t.blk))
    requires Walk(t, rest[1..], n, firstFit, g, left) == Walk(was, was.free, n, firstFit, NOTHING, budget)
    requires Kept(m0, r, was) && Covers(was.blk, t.blk) && t.w == was.w && Held(r, t, g.best) && Roams(m0, r, was, t)
    ensures PassAt(m0, r, was, t, next + [rest[0]], Ahead(rest[1..], t.blk), n, firstFit, g, left, budget)
  {
    hide WF, Walk, Reached, Ahead, Kept, Covers, Held, Roams;
    WalkAhead(t, rest[1..], n, firstFit, g, left);
  }

  /** A block that may yet be bettered is longer than a tag, so that if it is
      swallowed its header is never overwritten by one. */
  lemma ConsiderHeld(r: Buffer, t: Heap, a: nat, n: nat, f: Search)
    requires WF(t) && FreeAt(t.blk, a) && Held(r, t, f.best)
    requires MinBlock(t.w) <= n && n + MinBlock(t.w) <= t.blk[a].size
    ensures Held(r, t, Consider(f, a, t.blk[a].size).best)
  {
  }

  // The chosen block is free, or reads as no block.
  ghost predicate Settles(m: Buffer, s: Heap, b: nat) {
    b != 0 ==> FreeAt(s.blk, b) || (b !in s.blk && Grave(m, s.w, s.blk, b))
  }

  lemma HeldSettles(m: Buffer, s: Heap, b: nat)
    requires Held(m, s, b)
    ensures Settles(m, s, b)
  {
  }

  lemma WalkDone(s: Heap, rest: seq<nat>, n: nat, firstFit: bool, f: Search, left: nat)
    requires WF(s) && (rest == [] || (left == 0 && FreeAt(s.blk, rest[0])))
    ensures Walk(s, rest, n, firstFit, f, left) == if rest == [] then Chosen(s, f.best) else Cyclic(s)
  {
  }

  // The pass stands at no block exactly when nothing is ahead.
  lemma PassStands(m0: Buffer, m: Buffer, was: Heap, s: Heap, front: seq<nat>, rest: seq<nat>,
                   n: nat, firstFit: bool, f: Search, left: nat, budget: nat)
    requires PassAt(m0, m, was, s, front, rest, n, firstFit, f, left, budget)
    ensures WF(was) && WF(s)
    ensures Walk(s, rest, n, firstFit, f, left) == Walk(was, was.free, n, firstFit, NOTHING, budget)
    ensures rest == [] <==> First(rest) == 0
    ensures rest != [] ==> FreeAt(s.blk, rest[0])
  {
    hide Walk, Kept, Covers, Held, Roams;
    NoBlockAtZero(s);
  }

  // How a pass ends: what it returns is what Walk says.
  ghost predicate PassEnds(m0: Buffer, m: Buffer, was: Heap, s: Heap, n: nat, firstFit: bool, budget: nat,
                           cyclic: bool, best: nat)
    requires WF(was)
  {
    && Walk(was, was.free, n, firstFit, NOTHING, budget) == (if cyclic then Cyclic(s) else Chosen(s, best))
    && Kept(m0, m, was) && Covers(was.blk, s.blk) && Roams(m0, m, was, s)
    && (!cyclic ==> Settles(m, s, best))
  }

  lemma PassOver(m0: Buffer, m: Buffer, was: Heap, s: Heap, front: seq<nat>, rest: seq<nat>,
                 n: nat, firstFit: bool, f: Search, left: nat, budget: nat)
    requires PassAt(m0, m, was, s, front, rest, n, firstFit, f, left, budget) && (rest == [] || left == 0)
    ensures PassEnds(m0, m, was, s, n, firstFit, budget, rest != [], f.best)
  {
    hide WF, Walk, Kept, Covers, Held, Reached, Roams;
    PassStands(m0, m, was, s, front, rest, n, firstFit, f, left, budget);
    WalkDone(s, rest, n, firstFit, f, left);
    HeldSettles(m, s, f.best);
  }

  lemma PassTakes(m0: Buffer, m: Buffer, was: Heap, s: Heap, n: nat, firstFit: bool, budget: nat, best: nat)
    requires WF(was) && Walk(was, was.free, n, firstFit, NOTHING, budget) == Chosen(s, best)
    requires Kept(m0, m, was) && Covers(was.blk, s.blk) && (FreeAt(s.blk, best) || Held(m, s, best))
      && Roams(m0, m, was, s)
    ensures PassEnds(m0, m, was, s, n, firstFit, budget, false, best)
  {
    hide WF, Walk, Kept, Covers, Roams;
  }

  /** The control flow after a pass: retry, grow or stop, as Run says. */
  lemma PassRun(m0: Buffer, m: Buffer, was: Heap, s: Heap, n: nat, firstFit: bool, resizes: nat, budget: nat,
                cyclic: bool, best: nat)
    requires WF(was) && WF(s) && PassEnds(m0, m, was, s, n, firstFit, budget, cyclic, best)
    requires MinBlock(was.w) <= n && resizes <= MAX_RESIZES && s.w == was.w && s.max == was.max
    ensures Run(was, n, firstFit, resizes, budget) ==
      if cyclic then Refused(s, CyclicList)
      else if best != 0 then
        if FitAt(s.blk, n, best) then Granted(Hand(s, best, n), best)
        else if !firstFit then Run(s, n, true, resizes, budget)
        else Refused(s, ChosenLost)
      else if resizes == MAX_RESIZES then Refused(s, TooManyResizes)
      else if s.max - s.end < n then Refused(s, ArenaFull)
      else GrowRun(s, n, firstFit, resizes, budget)
  {
    hide WF, Walk, Kept, Covers, Settles, Hand, Grow, Roams;
  }

  function GrowRun(s: Heap, n: nat, firstFit: bool, resizes: nat, budget: nat): Outcome
    requires WF(s) && MinBlock(s.w) <= n && resizes < MAX_RESIZES && n <= s.max - s.end
  {
    GrowKeeps(s, Extra(s, n));
    Run(Grow(s, Extra(s, n)), n, firstFit, resizes + 1, budget)
  }
}
