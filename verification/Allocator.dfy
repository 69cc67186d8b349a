/** Allocation on the block heap: a bounded best-fit walk that collates as it
    goes, a re-check of the block it chose, one first-fit retry, and growth. */
module Allocator {
  import opened HeapModel

  const FIT_WALK: nat := 8         // fitting blocks looked at before settling
  const MAX_RESIZES: nat := 2      // grow-and-retry passes allowed

  // The best block found so far (0 for none), its size then, and how many
  // fitting blocks have been seen.
  datatype Search = Search(best: nat, size: nat, fits: nat)

  const NOTHING := Search(0, 0, 0)

  datatype Walked = Chosen(s: Heap, best: nat) | Cyclic(s: Heap)

  function Consider(f: Search, a: nat, size: nat): Search {
    if f.best == 0 || size < f.size then Search(a, size, f.fits + 1) else f.(fits := f.fits + 1)
  }

  datatype Visited = Visited(s: Heap, f: Search, stop: bool)

  // Collate the free block at a, then weigh it against the request.
  function Visit(s: Heap, a: nat, n: nat, firstFit: bool, f: Search): (v: Visited)
    requires WF(s) && FreeAt(s.blk, a)
    ensures WF(v.s) && Grown(s, v.s, a) && TidyAt(v.s, a) && !FreeAt(v.s.blk, EndOf(v.s.blk, a))
  {
    CollateKeeps(s, a);
    var t := Collate(s, a);
    var size := t.blk[a].size;
    if size < n then Visited(t, f, false)
    else if firstFit || size - n < MinBlock(s.w) then Visited(t, Search(a, size, f.fits), true)
    else Visited(t, Consider(f, a, size), FIT_WALK <= f.fits + 1)
  }

  /** One pass over the free list.  rest is what was still ahead when the pass
      began; an entry swallowed since is no longer on the list and is passed
      over.  budget bounds the number of blocks visited. */
  function Walk(s: Heap, rest: seq<nat>, n: nat, firstFit: bool, f: Search, budget: nat): Walked
    requires WF(s)
    decreases |rest|
  {
    if rest == [] then Chosen(s, f.best)
    else if !FreeAt(s.blk, rest[0]) then Walk(s, rest[1..], n, firstFit, f, budget)
    else if budget == 0 then Cyclic(s)
    else
      var v := Visit(s, rest[0], n, firstFit, f);
      if v.stop then Chosen(v.s, v.f.best)
      else Walk(v.s, rest[1..], n, firstFit, v.f, budget - 1)
  }

  // ---- what a pass keeps -----------------------------------------------------

  // Only free blocks were merged.
  ghost predicate SamePlace(s: Heap, t: Heap) {
    && t.w == s.w && t.max == s.max && t.end == s.end
    && SameLive(s.blk, t.blk)
    && (forall x :: x in t.blk ==> x in s.blk)
    && |t.free| <= |s.free|
    && (RootSafe(s) ==> t.root == s.root)
  }

  lemma GrownSamePlace(s: Heap, t: Heap, a: nat)
    requires Grown(s, t, a)
    ensures SamePlace(s, t)
  {
    SwallowedLive(s.blk, t.blk, a);
  }

  lemma SamePlaceChain(s: Heap, t: Heap, u: Heap)
    requires SamePlace(s, t) && SamePlace(t, u)
    ensures SamePlace(s, u)
  {
  }

  lemma SamePlaceSelf(s: Heap)
    ensures SamePlace(s, s)
  {
  }

  lemma {:induction false} WalkKeeps(s: Heap, rest: seq<nat>, n: nat, firstFit: bool, f: Search, budget: nat)
    requires WF(s)
    ensures var r := Walk(s, rest, n, firstFit, f, budget); WF(r.s) && SamePlace(s, r.s)
    decreases |rest|
  {
    hide Visit, WF, SamePlace, Grown, TidyAt;
    SamePlaceSelf(s);
    if rest == [] {
    } else if !FreeAt(s.blk, rest[0]) {
      WalkKeeps(s, rest[1..], n, firstFit, f, budget);
    } else if budget > 0 {
      var v := Visit(s, rest[0], n, firstFit, f);
      GrownSamePlace(s, v.s, rest[0]);
      if !v.stop {
        WalkKeeps(v.s, rest[1..], n, firstFit, v.f, budget - 1);
        SamePlaceChain(s, v.s, Walk(v.s, rest[1..], n, firstFit, v.f, budget - 1).s);
      }
    }
  }

  /** A pass whose budget covers the list never reports a cycle. */
  lemma {:induction false} WalkEnds(s: Heap, rest: seq<nat>, n: nat, firstFit: bool, f: Search, budget: nat)
    requires WF(s) && |rest| <= budget
    ensures Walk(s, rest, n, firstFit, f, budget).Chosen?
    decreases |rest|
  {
    hide Visit;
    if rest == [] {
    } else if !FreeAt(s.blk, rest[0]) {
      WalkEnds(s, rest[1..], n, firstFit, f, budget);
    } else {
      var v := Visit(s, rest[0], n, firstFit, f);
      if !v.stop {
        WalkEnds(v.s, rest[1..], n, firstFit, v.f, budget - 1);
      }
    }
  }

  predicate FitAt(m: Blocks, n: nat, a: nat) { FreeAt(m, a) && n <= m[a].size }

  ghost predicate HasFit(m: Blocks, n: nat) { exists a :: FitAt(m, n, a) }

  lemma FitSurvives(m: Blocks, t: Blocks, a: nat, n: nat)
    requires Swallowed(m, t, a) && HasFit(m, n)
    ensures HasFit(t, n)
  {
    var x :| FitAt(m, n, x);
    if x in t {
      assert FitAt(t, n, x);
    } else {
      assert FitAt(t, n, a);
    }
  }

  // The search remembers a real fit: if the block is still there it fits, and
  // if it was swallowed whatever swallowed it fits.
  ghost predicate Sound(m: Blocks, n: nat, f: Search) {
    f.best != 0 ==> HasFit(m, n) && (f.best in m ==> FitAt(m, n, f.best))
  }

  lemma FitHere(m: Blocks, n: nat, a: nat)
    requires FitAt(m, n, a)
    ensures HasFit(m, n)
  {
  }

  lemma VisitSound(s: Heap, a: nat, n: nat, firstFit: bool, f: Search)
    requires WF(s) && FreeAt(s.blk, a) && Sound(s.blk, n, f)
    ensures var v := Visit(s, a, n, firstFit, f);
      Sound(v.s.blk, n, v.f) && (firstFit ==> if v.stop then v.f.best == a else v.f == f)
  {
    hide WF, Collate, TidyAt, HasFit;
    var v := Visit(s, a, n, firstFit, f);
    if f.best != 0 {
      FitSurvives(s.blk, v.s.blk, a, n);
    }
    if n <= v.s.blk[a].size {
      FitHere(v.s.blk, n, a);
    }
  }

  /** A block chosen by a pass fits if it is still there; if a later collation
      swallowed it, some other block on the list fits.  A first-fit pass always
      chooses a block that is still there. */
  lemma {:induction false} WalkSound(s: Heap, rest: seq<nat>, n: nat, firstFit: bool, f: Search, budget: nat)
    requires WF(s) && Sound(s.blk, n, f) && (firstFit ==> f.best == 0)
    ensures var r := Walk(s, rest, n, firstFit, f, budget);
      r.Chosen? ==> Sound(r.s.blk, n, f.(best := r.best)) && (firstFit && r.best != 0 ==> r.best in r.s.blk)
    decreases |rest|
  {
    hide Visit;
    if rest == [] {
    } else if !FreeAt(s.blk, rest[0]) {
      WalkSound(s, rest[1..], n, firstFit, f, budget);
    } else if budget > 0 {
      VisitSound(s, rest[0], n, firstFit, f);
      var v := Visit(s, rest[0], n, firstFit, f);
      if !v.stop {
        WalkSound(v.s, rest[1..], n, firstFit, v.f, budget - 1);
      }
    }
  }

  // The free block at a, if there is one, is too small and ends its run.
  ghost predicate Settled(m: Blocks, n: nat, a: nat) {
    FreeAt(m, a) ==> m[a].size < n && !FreeAt(m, EndOf(m, a))
  }

  lemma SettledStays(m: Blocks, t: Blocks, a: nat, n: nat, x: nat)
    requires Swallowed(m, t, a) && Settled(m, n, x) && x != a
    ensures Settled(t, n, x)
  {
  }

  lemma VisitSettles(s: Heap, rest: seq<nat>, n: nat, firstFit: bool)
    requires WF(s) && rest != [] && FreeAt(s.blk, rest[0])
    requires forall x :: x !in rest ==> Settled(s.blk, n, x)
    ensures var v := Visit(s, rest[0], n, firstFit, NOTHING);
      v.f.best == 0 ==> !v.stop && v.f == NOTHING && forall x :: x !in rest[1..] ==> Settled(v.s.blk, n, x)
  {
    var a := rest[0];
    var v := Visit(s, a, n, firstFit, NOTHING);
    assert BASE <= a by { assert Fits(s.w, s.end, s.blk, a); }
    if v.f.best == 0 {
      forall x | x !in rest[1..]
        ensures Settled(v.s.blk, n, x)
      {
        if x != a {
          SettledStays(s.blk, v.s.blk, a, n, x);
        }
      }
    }
  }

  lemma VisitNonzero(s: Heap, a: nat, n: nat, firstFit: bool, f: Search)
    requires WF(s) && FreeAt(s.blk, a) && f.best != 0
    ensures Visit(s, a, n, firstFit, f).f.best != 0
  {
    assert Fits(s.w, s.end, s.blk, a);
  }

  lemma {:induction false} WalkNonzero(s: Heap, rest: seq<nat>, n: nat, firstFit: bool, f: Search, budget: nat)
    requires WF(s) && f.best != 0
    ensures var r := Walk(s, rest, n, firstFit, f, budget); r.Chosen? ==> r.best != 0
    decreases |rest|
  {
    hide Visit;
    if rest == [] {
    } else if !FreeAt(s.blk, rest[0]) {
      WalkNonzero(s, rest[1..], n, firstFit, f, budget);
    } else if budget > 0 {
      VisitNonzero(s, rest[0], n, firstFit, f);
      var v := Visit(s, rest[0], n, firstFit, f);
      if !v.stop {
        WalkNonzero(v.s, rest[1..], n, firstFit, v.f, budget - 1);
      }
    }
  }

  /** A pass that finds nothing has merged every run of free blocks, and every
      one of them is too small. */
  lemma {:induction false} WalkSettles(s: Heap, rest: seq<nat>, n: nat, firstFit: bool, budget: nat)
    requires WF(s) && (forall x :: x !in rest ==> Settled(s.blk, n, x))
    ensures var r := Walk(s, rest, n, firstFit, NOTHING, budget);
      r.Chosen? && r.best == 0 ==> forall x :: Settled(r.s.blk, n, x)
    decreases |rest|
  {
    hide Visit;
    if rest == [] {
    } else if !FreeAt(s.blk, rest[0]) {
      WalkSettles(s, rest[1..], n, firstFit, budget);
    } else if budget > 0 {
      VisitSettles(s, rest, n, firstFit);
      var v := Visit(s, rest[0], n, firstFit, NOTHING);
      if v.f.best == 0 {
        WalkSettles(v.s, rest[1..], n, firstFit, budget - 1);
      } else if !v.stop {
        WalkNonzero(v.s, rest[1..], n, firstFit, v.f, budget - 1);
      }
    }
  }

  lemma {:induction false} WalkKeepsFit(s: Heap, rest: seq<nat>, n: nat, firstFit: bool, f: Search, budget: nat)
    requires WF(s) && HasFit(s.blk, n)
    ensures HasFit(Walk(s, rest, n, firstFit, f, budget).s.blk, n)
    decreases |rest|
  {
    hide Visit, WF, HasFit, TidyAt;
    if rest == [] {
    } else if !FreeAt(s.blk, rest[0]) {
      WalkKeepsFit(s, rest[1..], n, firstFit, f, budget);
    } else if budget > 0 {
      var v := Visit(s, rest[0], n, firstFit, f);
      FitSurvives(s.blk, v.s.blk, rest[0], n);
      if !v.stop {
        WalkKeepsFit(v.s, rest[1..], n, firstFit, v.f, budget - 1);
      }
    }
  }

  /** A fitting block on the list is never missed. */
  lemma WalkFinds(s: Heap, n: nat, firstFit: bool, budget: nat)
    requires WF(s) && HasFit(s.blk, n) && |s.free| <= budget
    ensures var r := Walk(s, s.free, n, firstFit, NOTHING, budget); r.Chosen? && r.best != 0
  {
    var r := Walk(s, s.free, n, firstFit, NOTHING, budget);
    WalkEnds(s, s.free, n, firstFit, NOTHING, budget);
    WalkSettles(s, s.free, n, firstFit, budget);
    WalkKeepsFit(s, s.free, n, firstFit, NOTHING, budget);
    var x :| FitAt(r.s.blk, n, x);
    assert r.best == 0 ==> Settled(r.s.blk, n, x);
  }

  // ---- the whole allocation --------------------------------------------------

  datatype Refusal = OverCeiling | CyclicList | ChosenLost | TooManyResizes | ArenaFull

  datatype Outcome = Granted(s: Heap, a: nat) | Refused(s: Heap, why: Refusal)

  // A fifth more than the arena, or what is needed if that is more, cut to the room.
  function Extra(s: Heap, n: nat): nat
    requires s.end <= s.max
  {
    var wish := if n < s.end * 2 / 10 then s.end * 2 / 10 else n;
    if s.max - s.end < wish then s.max - s.end else wish
  }

  function Hand(s: Heap, a: nat, n: nat): Heap
    requires FitAt(s.blk, n, a)
  {
    var t := Take(s, a, n);
    if t.root == 0 then t.(root := a) else t
  }

  function Run(s: Heap, n: nat, firstFit: bool, resizes: nat, budget: nat): Outcome
    requires WF(s) && MinBlock(s.w) <= n && resizes <= MAX_RESIZES
    decreases MAX_RESIZES - resizes, !firstFit
  {
    WalkKeeps(s, s.free, n, firstFit, NOTHING, budget);
    match Walk(s, s.free, n, firstFit, NOTHING, budget)
    case Cyclic(t) => Refused(t, CyclicList)
    case Chosen(t, b) =>
      if b != 0 then
        if FitAt(t.blk, n, b) then Granted(Hand(t, b, n), b)
        else if !firstFit then Run(t, n, true, resizes, budget)
        else Refused(t, ChosenLost)
      else if resizes == MAX_RESIZES then Refused(t, TooManyResizes)
      else if t.max - t.end < n then Refused(t, ArenaFull)
      else
        GrowKeeps(t, Extra(t, n));
        Run(Grow(t, Extra(t, n)), n, firstFit, resizes + 1, budget)
  }

  /** The block at a was handed over: new, large enough, and nothing else that
      was live has moved, changed or gone. */
  ghost predicate Handed(s: Heap, t: Heap, a: nat, n: nat) {
    && WF(t) && t.w == s.w && t.max == s.max && s.end <= t.end
    && !LiveAt(s.blk, a) && a in t.blk && t.blk[a].kind == PENDING
    && n <= t.blk[a].size < n + MinBlock(s.w)
    && SameLive(s.blk, t.blk - {a})
    && (RootSafe(s) ==> t.root == if s.root == 0 then a else s.root)
  }

  lemma HandKeeps(s: Heap, t: Heap, a: nat, n: nat)
    requires SamePlace(s, t) && WF(t) && FitAt(t.blk, n, a) && MinBlock(s.w) <= n
    ensures Handed(s, Hand(t, a, n), a, n) && Hand(t, a, n).end == s.end
  {
    hide Tiles, Listed, Tagged, Carve, Adopt, Remove, Replace, Stamp;
    TakeKeeps(t, a, n);
    TakeRoot(t, a, n);
  }

  lemma TakeRoot(t: Heap, a: nat, n: nat)
    requires WF(t) && FitAt(t.blk, n, a)
    ensures a != 0 && (RootSafe(t) ==> Take(t, a, n).root == t.root)
  {
    NoBlockAtZero(t);
  }

  lemma HandedLater(s: Heap, t: Heap, u: Heap, a: nat, n: nat)
    requires SamePlace(s, t) && Handed(t, u, a, n)
    ensures Handed(s, u, a, n)
  {
  }

  // One pass over a list with a fitting block: it chooses a block that fits, or
  // one that was swallowed while another fits.  A first-fit pass never loses it.
  lemma PassFits(s: Heap, n: nat, firstFit: bool, budget: nat)
    requires WF(s) && HasFit(s.blk, n) && |s.free| <= budget
    ensures var r := Walk(s, s.free, n, firstFit, NOTHING, budget);
      && r.Chosen? && r.best != 0 && WF(r.s) && SamePlace(s, r.s)
      && HasFit(r.s.blk, n)
      && (firstFit || r.best in r.s.blk ==> FitAt(r.s.blk, n, r.best))
  {
    WalkFinds(s, n, firstFit, budget);
    WalkSound(s, s.free, n, firstFit, NOTHING, budget);
    WalkKeeps(s, s.free, n, firstFit, NOTHING, budget);
  }

  /** When some block fits, one pass serves the request, or one pass and the
      first-fit retry; nothing is refused and the arena does not grow. */
  lemma {:induction false} RunFits(s: Heap, n: nat, firstFit: bool, resizes: nat, budget: nat)
    requires WF(s) && MinBlock(s.w) <= n && resizes <= MAX_RESIZES
    requires HasFit(s.blk, n) && |s.free| <= budget
    ensures var r := Run(s, n, firstFit, resizes, budget);
      r.Granted? && Handed(s, r.s, r.a, n) && r.s.end == s.end
    decreases !firstFit
  {
    hide Walk;
    hide Hand;
    var r := Walk(s, s.free, n, firstFit, NOTHING, budget);
    PassFits(s, n, firstFit, budget);
    if FitAt(r.s.blk, n, r.best) {
      HandKeeps(s, r.s, r.best, n);
    } else {
      RunFits(r.s, n, true, resizes, budget);
      var q := Run(r.s, n, true, resizes, budget);
      HandedLater(s, r.s, q.s, q.a, n);
    }
  }

  // ---- runs of free blocks ---------------------------------------------------

  // Bytes of consecutive free blocks starting at a.
  function RunFrom(end: nat, m: Blocks, a: nat): nat
    decreases if a <= end then end - a else 0
  {
    if FreeAt(m, a) && 0 < m[a].size && EndOf(m, a) <= end
    then m[a].size + RunFrom(end, m, EndOf(m, a)) else 0
  }

  ghost predicate HasRun(end: nat, m: Blocks, n: nat) {
    exists a :: FreeAt(m, a) && n <= RunFrom(end, m, a)
  }

  lemma {:induction false} JoinRunFrom(w: nat, end: nat, m: Blocks, a: nat, x: nat)
    requires Tiles(w, end, m) && FreeAt(m, a) && FreeAt(m, EndOf(m, a)) && x != EndOf(m, a)
    ensures RunFrom(end, Join(m, a), x) == RunFrom(end, m, x)
    decreases if x <= end then end - x else 0
  {
    var j := Join(m, a);
    assert Fits(w, end, m, a) && Fits(w, end, m, EndOf(m, a));
    if FreeAt(m, x) {
      assert Fits(w, end, m, x);
      var y := EndOf(j, x);
      assert y == if x == a then EndOf(m, EndOf(m, a)) else EndOf(m, x);
      JoinRunFrom(w, end, m, a, y);
    }
  }

  lemma JoinRuns(w: nat, end: nat, m: Blocks, a: nat, n: nat)
    requires Tiles(w, end, m) && FreeAt(m, a) && FreeAt(m, EndOf(m, a))
    ensures HasRun(end, Join(m, a), n) <==> HasRun(end, m, n)
  {
    var j := Join(m, a);
    assert Fits(w, end, m, a) && Fits(w, end, m, EndOf(m, a));
    if HasRun(end, m, n) {
      var x :| FreeAt(m, x) && n <= RunFrom(end, m, x);
      if x == EndOf(m, a) {
        JoinRunFrom(w, end, m, a, a);
        assert FreeAt(j, a) && n <= RunFrom(end, j, a);
      } else {
        JoinRunFrom(w, end, m, a, x);
        assert FreeAt(j, x);
      }
    }
    if HasRun(end, j, n) {
      var x :| FreeAt(j, x) && n <= RunFrom(end, j, x);
      JoinRunFrom(w, end, m, a, x);
      assert FreeAt(m, x);
    }
  }

  lemma {:induction false} CollateRuns(s: Heap, a: nat, n: nat)
    requires WF(s) && FreeAt(s.blk, a)
    ensures HasRun(s.end, Collate(s, a).blk, n) <==> HasRun(s.end, s.blk, n)
    decreases |s.free|
  {
    var e := EndOf(s.blk, a);
    if e != s.end && FreeAt(s.blk, e) {
      AbsorbKeeps(s, a);
      JoinRuns(s.w, s.end, s.blk, a, n);
      CollateRuns(Absorb(s, a), a, n);
    }
  }

  lemma VisitRuns(s: Heap, a: nat, n: nat, firstFit: bool, f: Search)
    requires WF(s) && FreeAt(s.blk, a)
    ensures HasRun(s.end, Visit(s, a, n, firstFit, f).s.blk, n) <==> HasRun(s.end, s.blk, n)
  {
    CollateRuns(s, a, n);
  }

  lemma {:induction false} WalkRuns(s: Heap, rest: seq<nat>, n: nat, firstFit: bool, f: Search, budget: nat)
    requires WF(s)
    ensures HasRun(s.end, Walk(s, rest, n, firstFit, f, budget).s.blk, n) <==> HasRun(s.end, s.blk, n)
    decreases |rest|
  {
    hide Visit;
    if rest == [] {
    } else if !FreeAt(s.blk, rest[0]) {
      WalkRuns(s, rest[1..], n, firstFit, f, budget);
    } else if budget > 0 {
      VisitRuns(s, rest[0], n, firstFit, f);
      var v := Visit(s, rest[0], n, firstFit, f);
      if !v.stop {
        WalkRuns(v.s, rest[1..], n, firstFit, v.f, budget - 1);
      }
    }
  }

  lemma FitIsRun(s: Heap, n: nat)
    requires WF(s) && HasFit(s.blk, n)
    ensures HasRun(s.end, s.blk, n)
  {
    var a :| FitAt(s.blk, n, a);
    assert 0 < n ==> FreeAt(s.blk, a) && n <= RunFrom(s.end, s.blk, a) by {
      assert Fits(s.w, s.end, s.blk, a);
    }
  }

  lemma SettledHasNoRun(s: Heap, n: nat)
    requires WF(s) && (forall x :: Settled(s.blk, n, x))
    ensures !HasRun(s.end, s.blk, n)
  {
    forall a | FreeAt(s.blk, a)
      ensures RunFrom(s.end, s.blk, a) < n
    {
      assert Settled(s.blk, n, a) && Fits(s.w, s.end, s.blk, a);
    }
  }

  /** A pass that chooses nothing has proved that no run of free blocks would do;
      it leaves every run merged. */
  lemma PassFails(s: Heap, n: nat, firstFit: bool, budget: nat)
    requires WF(s) && |s.free| <= budget
    ensures var r := Walk(s, s.free, n, firstFit, NOTHING, budget);
      r.Chosen? && WF(r.s) && SamePlace(s, r.s)
      && (r.best == 0 <==> !HasRun(s.end, s.blk, n))
      && (r.best == 0 ==> forall x :: Settled(r.s.blk, n, x))
      && (r.best != 0 ==> HasFit(r.s.blk, n))
  {
    var r := Walk(s, s.free, n, firstFit, NOTHING, budget);
    WalkEnds(s, s.free, n, firstFit, NOTHING, budget);
    WalkKeeps(s, s.free, n, firstFit, NOTHING, budget);
    WalkRuns(s, s.free, n, firstFit, NOTHING, budget);
    WalkSettles(s, s.free, n, firstFit, budget);
    WalkSound(s, s.free, n, firstFit, NOTHING, budget);
    if r.best == 0 {
      SettledHasNoRun(r.s, n);
    } else {
      FitIsRun(r.s, n);
    }
  }
}
