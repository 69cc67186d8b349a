/** What a whole allocation guarantees: exactly when it is refused, and that the
    free blocks stay coalesced and tagged even when the arena has to grow. */
module AllocGuarantee {
  import opened HeapModel
  import opened Allocator

  lemma {:induction false} WalkTidy(s: Heap, rest: seq<nat>, n: nat, firstFit: bool, f: Search, budget: nat)
    requires WF(s) && Tidy(s)
    ensures Tidy(Walk(s, rest, n, firstFit, f, budget).s)
    decreases |rest|
  {
    hide Visit;
    if rest == [] {
    } else if !FreeAt(s.blk, rest[0]) {
      WalkTidy(s, rest[1..], n, firstFit, f, budget);
    } else if budget > 0 {
      var v := Visit(s, rest[0], n, firstFit, f);
      GrownTidy(s, v.s, rest[0], {});
      if !v.stop {
        WalkTidy(v.s, rest[1..], n, firstFit, v.f, budget - 1);
      }
    }
  }

  // Visiting a settled block changes nothing but its tag.
  lemma VisitSettled(s: Heap, a: nat, n: nat, firstFit: bool)
    requires WF(s) && FreeAt(s.blk, a) && Settled(s.blk, n, a)
    ensures var v := Visit(s, a, n, firstFit, NOTHING);
      !v.stop && v.f == NOTHING && v.s.blk == s.blk && v.s.end == s.end
  {
    NothingAtEnd(s.w, s.end, s.blk);
  }

  // After growth only the block below the new one can be untidy.  It comes
  // before the new block on the list, and nothing ahead of it fits.
  ghost predicate Grew(s: Heap, n: nat, low: nat, top: nat) {
    && low != top && TidyBut(s, {low})
    && forall x :: x != low && x != top ==> Settled(s.blk, n, x)
  }

  lemma VisitGrew(s: Heap, a: nat, n: nat, firstFit: bool, low: nat, top: nat)
    requires WF(s) && Grew(s, n, low, top) && FreeAt(s.blk, a) && FreeAt(s.blk, low) && a != top
    ensures var v := Visit(s, a, n, firstFit, NOTHING);
      if a == low then Tidy(v.s)
      else !v.stop && v.f == NOTHING && Grew(v.s, n, low, top) && FreeAt(v.s.blk, low)
  {
    var v := Visit(s, a, n, firstFit, NOTHING);
    GrownTidy(s, v.s, a, {low});
    if a != low {
      VisitSettled(s, a, n, firstFit);
    }
  }

  lemma DistinctTail(q: seq<nat>)
    requires Distinct(q) && q != []
    ensures Distinct(q[1..]) && q[0] !in q[1..]
  {
    assert forall i :: 0 <= i < |q[1..]| ==> q[1..][i] == q[i+1];
  }

  lemma {:induction false} WalkTidiesGrowth(s: Heap, rest: seq<nat>, n: nat, firstFit: bool, budget: nat,
                                            low: nat, top: nat)
    requires WF(s) && Grew(s, n, low, top) && FreeAt(s.blk, low)
    requires low in rest && Distinct(rest) && rest[|rest|-1] == top && |rest| <= budget
    ensures Tidy(Walk(s, rest, n, firstFit, NOTHING, budget).s)
    decreases |rest|
  {
    hide Visit;
    hide TidyAt;
    var a := rest[0];
    DistinctTail(rest);
    if !FreeAt(s.blk, a) {
      WalkTidiesGrowth(s, rest[1..], n, firstFit, budget, low, top);
    } else {
      var v := Visit(s, a, n, firstFit, NOTHING);
      VisitGrew(s, a, n, firstFit, low, top);
      if a != low {
        WalkTidiesGrowth(v.s, rest[1..], n, firstFit, budget - 1, low, top);
      } else if !v.stop {
        WalkTidy(v.s, rest[1..], n, firstFit, v.f, budget - 1);
      }
    }
  }

  // ---- the whole allocation --------------------------------------------------

  lemma HandTidy(s: Heap, a: nat, n: nat)
    requires WF(s) && Tidy(s) && FitAt(s.blk, n, a) && MinBlock(s.w) <= n
    ensures Tidy(Hand(s, a, n))
  {
    TakeTidy(s, a, n);
    assert forall x :: FreeAt(Take(s, a, n).blk, x) ==> TidyAt(Take(s, a, n), x);
  }

  lemma {:induction false} FitsTidy(s: Heap, n: nat, firstFit: bool, resizes: nat, budget: nat)
    requires WF(s) && MinBlock(s.w) <= n && resizes <= MAX_RESIZES
    requires HasFit(s.blk, n) && |s.free| <= budget
    requires Tidy(Walk(s, s.free, n, firstFit, NOTHING, budget).s)
    ensures Tidy(Run(s, n, firstFit, resizes, budget).s)
    decreases !firstFit
  {
    hide Walk;
    hide Hand;
    var r := Walk(s, s.free, n, firstFit, NOTHING, budget);
    PassFits(s, n, firstFit, budget);
    if FitAt(r.s.blk, n, r.best) {
      HandTidy(r.s, r.best, n);
    } else {
      WalkTidy(r.s, r.s.free, n, true, NOTHING, budget);
      FitsTidy(r.s, n, true, resizes, budget);
    }
  }

  lemma SettledGrown(t: Heap, n: nat, extra: nat, low: nat)
    requires WF(t) && FreeAt(t.blk, low) && EndOf(t.blk, low) == t.end
    ensures forall x :: Settled(t.blk, n, x) && x != low && x != t.end ==> Settled(Grow(t, extra).blk, n, x)
  {
    assert forall x :: x in t.blk ==> Fits(t.w, t.end, t.blk, x);
  }

  lemma GrewTidies(t: Heap, n: nat, extra: nat, low: nat, budget: nat)
    requires WF(t) && Tidy(t) && (forall x :: Settled(t.blk, n, x))
    requires MinBlock(t.w) <= extra && t.end + extra <= t.max && |t.free| + 1 <= budget
    requires FreeAt(t.blk, low) && EndOf(t.blk, low) == t.end
    ensures var g := Grow(t, extra);
      WF(g) && Tidy(Walk(g, g.free, n, false, NOTHING, budget).s)
  {
    hide Walk, Settled;
    var g := Grow(t, extra);
    GrowKeeps(t, extra);
    GrowTidy(t, extra, {low});
    assert low in t.free;
    SettledGrown(t, n, extra, low);
    WalkTidiesGrowth(g, g.free, n, false, budget, low, t.end);
  }

  lemma AfterGrowth(t: Heap, n: nat, extra: nat, budget: nat)
    requires WF(t) && Tidy(t) && (forall x :: Settled(t.blk, n, x))
    requires MinBlock(t.w) <= extra && t.end + extra <= t.max && |t.free| + 1 <= budget
    ensures var g := Grow(t, extra);
      WF(g) && Tidy(Walk(g, g.free, n, false, NOTHING, budget).s)
  {
    hide Walk;
    hide Settled;
    if low :| FreeAt(t.blk, low) && EndOf(t.blk, low) == t.end {
      GrewTidies(t, n, extra, low, budget);
    } else {
      var g := Grow(t, extra);
      GrowKeeps(t, extra);
      GrowTidy(t, extra, {});
      WalkTidy(g, g.free, n, false, NOTHING, budget);
    }
  }

  // A request can be met: from a run of free blocks, or by growing.
  ghost predicate CanServe(s: Heap, n: nat) {
    HasRun(s.end, s.blk, n) || s.end + n <= s.max
  }

  // The only refusal is for lack of room, and it costs nothing that was live.
  ghost predicate RefusedFor(s: Heap, n: nat, r: Outcome) {
    r.Refused? && r.why == ArenaFull && WF(r.s) && SamePlace(s, r.s)
  }

  // A grant hands over a new block and grows the arena only if it has to, and once.
  ghost predicate GrantedFrom(s: Heap, n: nat, r: Outcome)
    requires s.end <= s.max
  {
    r.Granted? && Handed(s, r.s, r.a, n) && r.s.end == if HasRun(s.end, s.blk, n) then s.end else s.end + Extra(s, n)
  }

  lemma HandedAfterGrowth(s: Heap, t: Heap, extra: nat, u: Heap, a: nat, n: nat)
    requires SamePlace(s, t) && WF(t) && MinBlock(t.w) <= extra && t.end + extra <= t.max
    requires Handed(Grow(t, extra), u, a, n)
    ensures Handed(s, u, a, n)
  {
    GrowKeeps(t, extra);
  }

  // The path through the list: the pass or its retry is served.
  lemma ServedFromList(s: Heap, n: nat, budget: nat)
    requires WF(s) && MinBlock(s.w) <= n && |s.free| + 1 <= budget
    requires Walk(s, s.free, n, false, NOTHING, budget).Chosen?
    requires Walk(s, s.free, n, false, NOTHING, budget).best != 0
    ensures var r := Run(s, n, false, 0, budget);
      r.Granted? && Handed(s, r.s, r.a, n) && r.s.end == s.end && (Tidy(s) ==> Tidy(r.s))
  {
    hide Walk;
    hide Hand;
    var r := Walk(s, s.free, n, false, NOTHING, budget);
    PassFails(s, n, false, budget);
    WalkSound(s, s.free, n, false, NOTHING, budget);
    if Tidy(s) {
      WalkTidy(s, s.free, n, false, NOTHING, budget);
    }
    if FitAt(r.s.blk, n, r.best) {
      HandKeeps(s, r.s, r.best, n);
      if Tidy(s) {
        HandTidy(r.s, r.best, n);
      }
    } else {
      RunFits(r.s, n, true, 0, budget);
      var q := Run(r.s, n, true, 0, budget);
      HandedLater(s, r.s, q.s, q.a, n);
      if Tidy(s) {
        WalkTidy(r.s, r.s.free, n, true, NOTHING, budget);
        FitsTidy(r.s, n, true, 0, budget);
      }
    }
  }

  // The path through growth: one growth, and the next pass is served.
  lemma GrowthServes(s: Heap, t: Heap, n: nat, budget: nat)
    requires WF(s) && WF(t) && SamePlace(s, t) && (forall x :: Settled(t.blk, n, x))
    requires MinBlock(s.w) <= n && t.end + n <= t.max && |s.free| + 1 <= budget
    ensures var extra := Extra(t, n);
      && n <= extra && WF(Grow(t, extra))
      && var r := Run(Grow(t, extra), n, false, 1, budget);
         r.Granted? && Handed(s, r.s, r.a, n) && r.s.end == s.end + Extra(s, n) && (Tidy(t) ==> Tidy(r.s))
  {
    hide Walk;
    hide Run;
    var extra := Extra(t, n);
    var g := Grow(t, extra);
    GrowKeeps(t, extra);
    assert FitAt(g.blk, n, t.end);
    RunFits(g, n, false, 1, budget);
    var r := Run(g, n, false, 1, budget);
    HandedAfterGrowth(s, t, extra, r.s, r.a, n);
    if Tidy(t) {
      AfterGrowth(t, n, extra, budget);
      FitsTidy(g, n, false, 1, budget);
    }
  }

  /** Allocation is refused exactly when no run of free blocks is long enough and
      the arena cannot grow by the request; the cyclic list, the lost block and
      the third resize are never reported.  Otherwise it hands over a block, growing the
      arena at most once, every other live block stands, and the heap stays tidy. */
  lemma AllocationServes(s: Heap, n: nat, budget: nat)
    requires WF(s) && MinBlock(s.w) <= n && |s.free| + 1 <= budget
    ensures var r := Run(s, n, false, 0, budget);
      && (if CanServe(s, n) then GrantedFrom(s, n, r) else RefusedFor(s, n, r))
      && (Tidy(s) ==> Tidy(r.s))
  {
    hide Walk;
    var r := Walk(s, s.free, n, false, NOTHING, budget);
    PassFails(s, n, false, budget);
    if Tidy(s) {
      WalkTidy(s, s.free, n, false, NOTHING, budget);
    }
    if r.best != 0 {
      ServedFromList(s, n, budget);
    } else if r.s.end + n <= r.s.max {
      GrowthServes(s, r.s, n, budget);
    }
  }

  /** Where the arena has to grow it grows by what is needed, or by a fifth of itself if
      that is more, or up to the ceiling if a fifth is more than there is room for. */
  lemma GrowthInNumbers(s: Heap, n: nat, budget: nat)
    requires WF(s) && MinBlock(s.w) <= n && |s.free| + 1 <= budget
    requires !HasRun(s.end, s.blk, n) && s.end + n <= s.max
    ensures var r := Run(s, n, false, 0, budget); var fifth := s.end / 5;
      && r.Granted? && (fifth <= n ==> r.s.end == s.end + n)
      && (n < fifth && s.end + fifth <= s.max ==> r.s.end == s.end + fifth)
      && (n < fifth && s.max < s.end + fifth ==> r.s.end == s.max)
  {
    hide Run, HasRun, WF;
    AllocationServes(s, n, budget);
  }
}
