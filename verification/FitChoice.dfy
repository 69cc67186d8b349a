/** Which block a pass chooses, said without the pass: an exact fit if one is
    among the first few fitting blocks, else the smallest of those. */
module FitChoice {
  import opened HeapModel
  import opened Allocator

  datatype Candidate = Candidate(a: nat, size: nat)

  /** The blocks that fit, in list order, each at the size it has once everything
      before it on the list, and it, have been collated. */
  function Fitting(s: Heap, rest: seq<nat>, n: nat): seq<Candidate>
    requires WF(s)
    decreases |rest|
  {
    if rest == [] then []
    else if !FreeAt(s.blk, rest[0]) then Fitting(s, rest[1..], n)
    else
      CollateKeeps(s, rest[0]);
      var t := Collate(s, rest[0]);
      var size := t.blk[rest[0]].size;
      (if size < n then [] else [Candidate(rest[0], size)]) + Fitting(t, rest[1..], n)
  }

  // Too little would be left over to make a free block of.
  predicate Exact(w: nat, n: nat, c: Candidate) { c.size < n + MinBlock(w) }

  ghost predicate NoExact(w: nat, n: nat, c: seq<Candidate>) {
    forall i :: 0 <= i < |c| ==> !Exact(w, n, c[i])
  }

  // c[j] is the smallest of c, the earliest of equals.
  ghost predicate Smallest(c: seq<Candidate>, j: nat) {
    && j < |c|
    && (forall i :: 0 <= i < |c| ==> c[j].size <= c[i].size)
    && (forall i :: 0 <= i < j ==> c[j].size < c[i].size)
  }

  ghost predicate FirstExact(w: nat, n: nat, c: seq<Candidate>, j: nat) {
    j < |c| && Exact(w, n, c[j]) && NoExact(w, n, c[..j])
  }

  // b is the first exact fit of c; without one, the smallest; 0 if c is empty.
  ghost predicate BestOf(w: nat, n: nat, c: seq<Candidate>, b: nat) {
    if c == [] then b == 0
    else if NoExact(w, n, c) then exists j: nat :: Smallest(c, j) && c[j].a == b
    else exists j: nat :: FirstExact(w, n, c, j) && c[j].a == b
  }

  function Window(c: seq<Candidate>): seq<Candidate> {
    if |c| <= FIT_WALK then c else c[..FIT_WALK]
  }

  // The search state after the fitting blocks in seen, none of them exact.
  ghost predicate Follows(w: nat, n: nat, seen: seq<Candidate>, f: Search) {
    && f.fits == |seen| < FIT_WALK && NoExact(w, n, seen)
    && (if seen == [] then f.best == 0
        else f.best != 0 && exists j: nat :: Smallest(seen, j) && seen[j] == Candidate(f.best, f.size))
  }

  lemma ConsiderSmallest(seen: seq<Candidate>, j: nat, c: Candidate)
    requires Smallest(seen, j)
    ensures Smallest(seen + [c], if c.size < seen[j].size then |seen| else j)
  {
  }

  // An exact fit ends the search and is its choice.
  lemma FollowsExact(w: nat, n: nat, seen: seq<Candidate>, f: Search, x: Candidate)
    requires Follows(w, n, seen, f) && Exact(w, n, x)
    ensures var c := seen + [x]; BestOf(w, n, c, x.a) && !NoExact(w, n, c) && |c| <= FIT_WALK
  {
    var c := seen + [x];
    assert c[..|seen|] == seen && c[|seen|] == x;
    assert FirstExact(w, n, c, |seen|);
  }

  // Any other fit is considered: the choice so far is still the smallest.
  lemma FollowsConsider(w: nat, n: nat, seen: seq<Candidate>, f: Search, x: Candidate)
    requires Follows(w, n, seen, f) && !Exact(w, n, x) && x.a != 0
    ensures var c, g := seen + [x], Consider(f, x.a, x.size);
      && |c| <= FIT_WALK && g.fits == |c| && BestOf(w, n, c, g.best) && (|c| < FIT_WALK ==> Follows(w, n, c, g))
  {
    var c := seen + [x];
    if seen == [] {
      assert c == [x] && Smallest([x], 0);
    } else {
      var j: nat :| Smallest(seen, j) && seen[j] == Candidate(f.best, f.size);
      ConsiderSmallest(seen, j, x);
      assert c[j] == seen[j];
    }
  }

  lemma VisitFollows(s: Heap, a: nat, n: nat, f: Search, seen: seq<Candidate>)
    requires WF(s) && FreeAt(s.blk, a) && Follows(s.w, n, seen, f)
    ensures var v := Visit(s, a, n, false, f);
      var c := seen + [Candidate(a, v.s.blk[a].size)];
      v.s == Collate(s, a) && v.s.w == s.w && |c| <= FIT_WALK &&
      if v.s.blk[a].size < n then !v.stop && v.f == f
      else if v.stop then BestOf(s.w, n, c, v.f.best) && (FIT_WALK <= |c| || !NoExact(s.w, n, c))
      else Follows(s.w, n, c, v.f)
  {
    hide WF, Collate, TidyAt, BestOf, NoExact;
    var v := Visit(s, a, n, false, f);
    NoBlockAtZero(s);
    var x := Candidate(a, v.s.blk[a].size);
    if n <= x.size {
      if Exact(s.w, n, x) {
        FollowsExact(s.w, n, seen, f, x);
      } else {
        FollowsConsider(s.w, n, seen, f, x);
      }
    }
  }

  lemma BestOfPrefix(w: nat, n: nat, c: seq<Candidate>, d: seq<Candidate>, b: nat)
    requires c != [] && |c| <= FIT_WALK && BestOf(w, n, c, b) && (FIT_WALK <= |c| || !NoExact(w, n, c))
    ensures BestOf(w, n, Window(c + d), b)
  {
    var e := Window(c + d);
    assert |c| == FIT_WALK ==> e == c;
    if !NoExact(w, n, c) {
      var j: nat :| FirstExact(w, n, c, j) && c[j].a == b;
      assert e[..j] == c[..j] && e[j] == c[j];
      assert FirstExact(w, n, e, j);
    }
  }

  lemma {:induction false} WalkChooses(s: Heap, rest: seq<nat>, n: nat, f: Search, budget: nat, seen: seq<Candidate>)
    requires WF(s) && |rest| <= budget && Follows(s.w, n, seen, f)
    ensures var r := Walk(s, rest, n, false, f, budget);
      r.Chosen? && BestOf(s.w, n, Window(seen + Fitting(s, rest, n)), r.best)
    decreases |rest|
  {
    hide BestOf, Visit, Follows, Window;
    if rest == [] {
      assert seen + [] == seen;
      FollowsBest(s.w, n, seen, f);
    } else if !FreeAt(s.blk, rest[0]) {
      WalkChooses(s, rest[1..], n, f, budget, seen);
    } else {
      var v := Visit(s, rest[0], n, false, f);
      VisitFollows(s, rest[0], n, f, seen);
      var c := seen + [Candidate(rest[0], v.s.blk[rest[0]].size)];
      var tail := Fitting(v.s, rest[1..], n);
      if v.s.blk[rest[0]].size < n {
        assert Fitting(s, rest, n) == tail;
        WalkChooses(v.s, rest[1..], n, f, budget - 1, seen);
      } else {
        assert Fitting(s, rest, n) == [c[|seen|]] + tail;
        assert seen + Fitting(s, rest, n) == c + tail;
        if v.stop {
          BestOfPrefix(s.w, n, c, tail, v.f.best);
        } else {
          WalkChooses(v.s, rest[1..], n, v.f, budget - 1, c);
        }
      }
    }
  }

  lemma FollowsBest(w: nat, n: nat, seen: seq<Candidate>, f: Search)
    requires Follows(w, n, seen, f)
    ensures BestOf(w, n, Window(seen), f.best)
  {
  }

  /** Bounded best fit: a pass that is not first-fit chooses, among the first
      FIT_WALK blocks that fit after collation, the first exact fit if there is
      one and the smallest otherwise. */
  lemma BoundedBestFit(s: Heap, n: nat, budget: nat)
    requires WF(s) && |s.free| <= budget
    ensures var r := Walk(s, s.free, n, false, NOTHING, budget);
      r.Chosen? && BestOf(s.w, n, Window(Fitting(s, s.free, n)), r.best)
  {
    WalkChooses(s, s.free, n, NOTHING, budget, []);
    assert [] + Fitting(s, s.free, n) == Fitting(s, s.free, n);
  }

  // ---- the choice in numbers -------------------------------------------------------------

  /** b is the first of c that leaves less over than a minimum block; without one, the
      smallest of c, the earliest of equals; 0 if c is empty. */
  ghost predicate Decided(w: nat, n: nat, c: seq<Candidate>, b: nat) {
    && (c == [] ==> b == 0)
    && ((exists i :: 0 <= i < |c| && c[i].size < n + MinBlock(w)) ==>
          exists j :: 0 <= j < |c| && b == c[j].a && c[j].size < n + MinBlock(w)
                      && forall i :: 0 <= i < j ==> n + MinBlock(w) <= c[i].size)
    && (c != [] && (forall i :: 0 <= i < |c| ==> n + MinBlock(w) <= c[i].size) ==>
          exists j :: 0 <= j < |c| && b == c[j].a && (forall i :: 0 <= i < |c| ==> c[j].size <= c[i].size)
                      && forall i :: 0 <= i < j ==> c[j].size < c[i].size)
  }

  lemma BestDecided(w: nat, n: nat, c: seq<Candidate>, b: nat)
    requires BestOf(w, n, c, b)
    ensures Decided(w, n, c, b)
  {
    hide MinBlock;
    if !NoExact(w, n, c) {
      var j: nat :| FirstExact(w, n, c, j) && c[j].a == b;
      assert forall i :: 0 <= i < j ==> c[..j][i] == c[i];
    } else if c != [] {
      var j: nat :| Smallest(c, j) && c[j].a == b;
    }
  }

  /** The first eight blocks that fit decide; a ninth is never looked at. */
  lemma ChosenOfEight(s: Heap, n: nat, budget: nat)
    requires WF(s) && |s.free| <= budget
    ensures var r, c := Walk(s, s.free, n, false, NOTHING, budget), Fitting(s, s.free, n);
      r.Chosen? && Decided(s.w, n, if |c| <= 8 then c else c[..8], r.best)
  {
    hide Walk, Fitting, WF, Decided, BestOf;
    BoundedBestFit(s, n, budget);
    BestDecided(s.w, n, Window(Fitting(s, s.free, n)), Walk(s, s.free, n, false, NOTHING, budget).best);
  }

  /** A first-fit pass chooses the first block that fits. */
  lemma {:induction false} FirstFitIsFirst(s: Heap, rest: seq<nat>, n: nat, budget: nat)
    requires WF(s) && |rest| <= budget
    ensures var r, c := Walk(s, rest, n, true, NOTHING, budget), Fitting(s, rest, n);
      r.Chosen? && r.best == if c == [] then 0 else c[0].a
    decreases |rest|
  {
    hide WF, Collate, TidyAt;
    if rest == [] {
    } else if !FreeAt(s.blk, rest[0]) {
      FirstFitIsFirst(s, rest[1..], n, budget);
    } else {
      var v := Visit(s, rest[0], n, true, NOTHING);
      if !v.stop {
        FirstFitIsFirst(v.s, rest[1..], n, budget - 1);
      }
    }
  }

  // ---- a list with nothing to merge ----------------------------------------------------------

  // No free block is followed by another.
  ghost predicate Apart(s: Heap) {
    forall a :: FreeAt(s.blk, a) ==> !FreeAt(s.blk, EndOf(s.blk, a))
  }

  lemma ApartCollate(s: Heap, a: nat)
    requires WF(s) && Apart(s) && FreeAt(s.blk, a)
    ensures var t := Collate(s, a); WF(t) && t == s.(tagged := t.tagged) && Apart(t)
  {
    hide WF, TidyAt, Grown;
    CollateKeeps(s, a);
  }

  lemma {:induction false} ApartWalk(s: Heap, rest: seq<nat>, n: nat, f: Search, budget: nat)
    requires WF(s) && Apart(s)
    ensures Walk(s, rest, n, false, f, budget).s.blk == s.blk
    decreases |rest|
  {
    hide WF, Collate, TidyAt, Grown, Apart;
    if rest == [] {
    } else if !FreeAt(s.blk, rest[0]) {
      ApartWalk(s, rest[1..], n, f, budget);
    } else if budget > 0 {
      ApartCollate(s, rest[0]);
      var v := Visit(s, rest[0], n, false, f);
      if !v.stop {
        ApartWalk(v.s, rest[1..], n, v.f, budget - 1);
      }
    }
  }

  // The blocks that fit are those of the list, each as large as it is.
  lemma {:induction false} ApartFitting(s: Heap, rest: seq<nat>, n: nat)
    requires WF(s) && Apart(s)
    ensures var c := Fitting(s, rest, n);
      && |c| <= |rest|
      && (forall i :: 0 <= i < |c| ==> c[i].a in rest && FitAt(s.blk, n, c[i].a) && c[i].size == s.blk[c[i].a].size)
      && (forall x :: x in rest && FitAt(s.blk, n, x) ==> exists i :: 0 <= i < |c| && c[i].a == x)
    decreases |rest|
  {
    hide WF, Collate, TidyAt, Grown, Apart;
    if rest == [] {
    } else if !FreeAt(s.blk, rest[0]) {
      ApartFitting(s, rest[1..], n);
    } else {
      ApartCollate(s, rest[0]);
      var t := Collate(s, rest[0]);
      ApartFitting(t, rest[1..], n);
      var c, d := Fitting(s, rest, n), Fitting(t, rest[1..], n);
      forall x | x in rest && FitAt(s.blk, n, x)
        ensures exists i :: 0 <= i < |c| && c[i].a == x
      {
        if x == rest[0] {
          assert c[0].a == x;
        } else {
          var i :| 0 <= i < |d| && d[i].a == x;
          assert c[i + |c| - |d|] == d[i];
        }
      }
    }
  }

  /** Where there is nothing to merge and no exact fit, and at most eight blocks are on
      the list, the request is granted from the smallest that fits. */
  lemma SmallestGranted(s: Heap, n: nat, budget: nat, a: nat)
    requires WF(s) && Apart(s) && |s.free| <= 8 && |s.free| <= budget && MinBlock(s.w) <= n && FitAt(s.blk, n, a)
    requires forall x :: FitAt(s.blk, n, x) ==> n + MinBlock(s.w) <= s.blk[x].size
    requires forall x :: FitAt(s.blk, n, x) && x != a ==> s.blk[a].size < s.blk[x].size
    ensures var r := Run(s, n, false, 0, budget); r.Granted? && r.a == a
  {
    hide Walk, Fitting, WF, Apart, MinBlock;
    ListHas(s, a);
    ChosenOfEight(s, n, budget);
    ApartFitting(s, s.free, n);
    ApartWalk(s, s.free, n, NOTHING, budget);
    NonzeroFit(s, n, a);
    var c, r := Fitting(s, s.free, n), Walk(s, s.free, n, false, NOTHING, budget);
    assert |c| <= 8;
    var i :| 0 <= i < |c| && c[i].a == a;
    var j :| 0 <= j < |c| && r.best == c[j].a && (forall i :: 0 <= i < |c| ==> c[j].size <= c[i].size);
    assert c[j].size <= c[i].size;
    assert r.best == a;
  }

  lemma ListHas(s: Heap, a: nat)
    requires WF(s) && FreeAt(s.blk, a)
    ensures a in s.free
  {
  }

  lemma NonzeroFit(s: Heap, n: nat, a: nat)
    requires WF(s) && FitAt(s.blk, n, a)
    ensures a != 0
  {
    NoBlockAtZero(s);
  }

  /** From a list of 300, 200 and 120 bytes, kept apart by live blocks, 90 bytes are
      granted from the 120. */
  lemma LastOfThree(s: Heap, a: nat, b: nat, c: nat)
    requires WF(s) && Apart(s) && s.w == 4 && s.free == [a, b, c]
    requires FreeAt(s.blk, a) && FreeAt(s.blk, b) && FreeAt(s.blk, c)
    requires s.blk[a].size == 300 && s.blk[b].size == 200 && s.blk[c].size == 120
    ensures var r := Run(s, 90, false, 0, 3); r.Granted? && r.a == c
  {
    hide Walk, Apart, Tiles, Tagged;
    forall x | FreeAt(s.blk, x)
      ensures x in [a, b, c]
    {
      ListHas(s, x);
    }
    SmallestGranted(s, 90, 3, c);
  }
}
