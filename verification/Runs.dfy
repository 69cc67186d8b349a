/** Whole runs: what holds in every state a heap built here can reach. */
module Runs {
  import opened AllocGuarantee
  import opened Allocator
  import opened Bytes
  import opened Founding
  import opened Freeing
  import opened HeapModel
  import opened Inodes
  import opened Mirror
  import opened MirrorLive
  import opened MirrorSight
  import opened MirrorTake
  import opened Saving
  import opened Steps
  import opened Tally

  // ---- the bytes allocated, through each step ----------------------------------------

  function Held(s: Heap): nat { Sum(s).allocSize }

  lemma {:induction false} CollateHeld(s: Heap, a: nat)
    requires WF(s) && FreeAt(s.blk, a)
    ensures Held(Collate(s, a)) == Held(s)
    decreases |s.free|
  {
    hide WF, Absorb;
    var e := EndOf(s.blk, a);
    if e != s.end && FreeAt(s.blk, e) {
      AbsorbKeeps(s, a);
      SumAbsorb(s, a);
      AbsorbHead(s, a);
      CollateHeld(Absorb(s, a), a);
    }
  }

  lemma AbsorbHead(s: Heap, a: nat)
    requires FreeAt(s.blk, a) && FreeAt(s.blk, EndOf(s.blk, a)) && WF(s)
    ensures FreeAt(Absorb(s, a).blk, a)
  {
    AbsorbKeeps(s, a);
  }

  lemma {:induction false} WalkHeld(s: Heap, rest: seq<nat>, n: nat, firstFit: bool, f: Search, budget: nat)
    requires WF(s)
    ensures Held(Walk(s, rest, n, firstFit, f, budget).s) == Held(s)
    decreases |rest|
  {
    hide WF, Held;
    if rest == [] {
    } else if !FreeAt(s.blk, rest[0]) {
      WalkHeld(s, rest[1..], n, firstFit, f, budget);
    } else if budget > 0 {
      var v := Visit(s, rest[0], n, firstFit, f);
      CollateHeld(s, rest[0]);
      if !v.stop {
        WalkHeld(v.s, rest[1..], n, firstFit, v.f, budget - 1);
      }
    }
  }

  lemma HandHeld(s: Heap, a: nat, n: nat)
    requires WF(s) && FitAt(s.blk, n, a) && MinBlock(s.w) <= n
    ensures var t := Hand(s, a, n); a in t.blk && Held(t) == Held(s) + t.blk[a].size
  {
    hide WF;
    TakeKeeps(s, a, n);
    SumTake(s, a, n);
  }

  // What an allocation adds to the bytes allocated.
  ghost predicate Adds(s: Heap, r: Outcome) {
    match r
    case Granted(t, a) => a in t.blk && Held(t) == Held(s) + t.blk[a].size
    case Refused(t, _) => Held(t) == Held(s)
  }

  lemma {:induction false} RunHeld(s: Heap, n: nat, firstFit: bool, resizes: nat, budget: nat)
    requires WF(s) && MinBlock(s.w) <= n && resizes <= MAX_RESIZES
    ensures Adds(s, Run(s, n, firstFit, resizes, budget))
    decreases MAX_RESIZES - resizes, !firstFit
  {
    hide WF, Walk, Held, Hand, Grow;
    WalkKeeps(s, s.free, n, firstFit, NOTHING, budget);
    WalkHeld(s, s.free, n, firstFit, NOTHING, budget);
    var r := Walk(s, s.free, n, firstFit, NOTHING, budget);
    if r.Chosen? {
      if r.best != 0 {
        if FitAt(r.s.blk, n, r.best) {
          HandHeld(r.s, r.best, n);
        } else if !firstFit {
          RunHeld(r.s, n, true, resizes, budget);
        }
      } else if resizes < MAX_RESIZES && n <= r.s.max - r.s.end {
        GrowHeld(r.s, n);
        RunHeld(Grow(r.s, Extra(r.s, n)), n, firstFit, resizes + 1, budget);
      }
    }
  }

  lemma GrowHeld(s: Heap, n: nat)
    requires WF(s) && MinBlock(s.w) <= n <= s.max - s.end
    ensures var g := Grow(s, Extra(s, n)); WF(g) && g.w == s.w && Held(g) == Held(s)
  {
    hide WF;
    GrowKeeps(s, Extra(s, n));
    SumGrow(s, Extra(s, n));
  }

  lemma FreedHeld(s: Heap, a: nat, p: nat)
    requires WF(s) && LiveAt(s.blk, a) && Answers(Forward(s, a).blk, Forward(s, a).tagged, a, p)
    ensures Held(Freed(s, a, p)) + s.blk[a].size == Held(s)
  {
    hide WF, Collate;
    ReleaseKeeps(s, a);
    SumRelease(s, a);
    CollateHeld(Release(s, a), a);
    if p != 0 {
      CollateHeld(Forward(s, a), p);
    }
  }

  lemma RetypeHeld(s: Heap, a: nat, k: Kind)
    requires WF(s) && LiveAt(s.blk, a) && k.Live?
    ensures Held(Retype(s, a, k)) == Held(s)
  {
    hide WF;
    RetypeKeys(s, a, k);
  }

  // ---- the invariant of every run ----------------------------------------------------

  /** The arena and its key block describe a well-formed, coalesced heap, and the bytes
      handed out are those in live blocks, less what refused frees have taken off. */
  ghost predicate Sound(x: State) {
    && !x.astray && WF(x.s) && Tidy(x.s) && Told(x)
    && x.used < WORD && (x.used + x.lost) % WORD == Held(x.s)
  }

  // The same arena, perhaps grown.
  ghost predicate SameArena(s: Heap, t: Heap) { t.w == s.w && t.max == s.max && s.end <= t.end }

  lemma HeldFits(s: Heap)
    requires WF(s)
    ensures Held(s) <= s.end <= s.max <= 0xFFFF_FFFF && ValidWidth(s.w)
    ensures forall a :: a in s.blk ==> s.blk[a].size <= 0xFFFF_FFFF
  {
    Conservation(s);
    forall a | a in s.blk
      ensures s.blk[a].size <= 0xFFFF_FFFF
    {
      FitsTiles(s.w, s.end, s.blk, a);
    }
  }

  lemma RoundedFits(w: nat, request: nat)
    ensures MinBlock(w) <= Rounded(w, request)
  {
  }

  // What an allocation that is attempted arrives at.
  lemma AttemptSound(x: State, n: nat)
    requires Sound(x) && MinBlock(x.s.w) <= n
    ensures var r := Attempt(x, n);
      && WF(r.s) && Tidy(r.s) && SameArena(x.s, r.s) && Adds(x.s, r)
      && (if CanServe(x.s, n) then GrantedFrom(x.s, n, r) else RefusedFor(x.s, n, r))
  {
    hide Run, Tidy, Held, CanServe, HasRun;
    BudgetCovers(x.s);
    AllocationServes(x.s, n, MaxBlocks(x.s.w, x.s.end));
    RunHeld(x.s, n, false, 0, MaxBlocks(x.s.w, x.s.end));
  }

  lemma GrantSound(x: State, t: Heap, a: nat, k: Kind, y: State)
    requires Sound(x) && WF(t) && Tidy(t) && SameArena(x.s, t) && LiveAt(t.blk, a) && k.Live?
    requires Held(t) == Held(x.s) + t.blk[a].size
    requires Told(y) && y.s == Retype(t, a, k) && y.used == (x.used + t.blk[a].size) % WORD
    requires y.lost == x.lost && y.astray == x.astray
    ensures Sound(y) && SameArena(x.s, y.s)
  {
    hide WF, Tidy, Held, Retype, Told;
    HeldFits(t);
    RetypeKeeps(t, a, k);
    RetypeTidy(t, a, k);
    RetypeHeld(t, a, k);
    RetypeFrame(t, a, k);
    AddWord(x.used, x.lost, t.blk[a].size);
  }

  lemma AllocSound(x: State, typ: nat, request: nat, y: State)
    requires Sound(x) && Next(x, Event.Alloc(typ, request), y)
    ensures Sound(y) && SameArena(x.s, y.s)
  {
    hide WF, Run, Tidy, Held, CanServe, HasRun, Retype, Handed, SamePlace, OverLimit, Attempt, Told, LiveSame,
      TakeTouches;
    var n := Rounded(x.s.w, request);
    RoundedFits(x.s.w, request);
    AttemptSound(x, n);
    if !OverLimit(x, n) && Attempt(x, n).Granted? {
      GrantSound(x, Attempt(x, n).s, Attempt(x, n).a, Live(typ, false), y);
    }
  }

  lemma AddWord(used: nat, lost: nat, size: nat)
    requires (used + lost) % WORD + size < WORD
    ensures ((used + size) % WORD + lost) % WORD == (used + lost) % WORD + size
  {
  }

  lemma TakeWord(used: nat, lost: nat, size: nat)
    requires size <= (used + lost) % WORD && size < WORD
    ensures ((used + (WORD - size)) % WORD + lost) % WORD == (used + lost) % WORD - size
  {
  }

  lemma LoseWord(used: nat, lost: nat, size: nat)
    requires size < WORD
    ensures ((used + (WORD - size)) % WORD + (lost + size)) % WORD == (used + lost) % WORD
  {
  }

  lemma RetypeSound(s: Heap, a: nat, k: Kind)
    requires WF(s) && Tidy(s) && LiveAt(s.blk, a) && k.Live?
    ensures var t := Retype(s, a, k); WF(t) && Tidy(t) && Held(t) == Held(s) && SameArena(s, t)
  {
    hide WF, Tidy, Held;
    RetypeKeeps(s, a, k);
    RetypeTidy(s, a, k);
    RetypeHeld(s, a, k);
  }

  lemma FreedSound(x: State, a: nat, p: nat)
    requires Sound(x) && LiveAt(x.s.blk, a)
    requires Answers(Forward(x.s, a).blk, Forward(x.s, a).tagged, a, p)
    ensures var t := Freed(x.s, a, p);
      && WF(t) && Tidy(t) && SameArena(x.s, t) && Held(t) + x.s.blk[a].size == Held(x.s)
      && GivenBack(x.s, t, a)
  {
    hide WF, Tidy, Held, Forward, Freed, Answers;
    FreedKeeps(x.s, a, p);
    FreedTidy(x.s, a, p);
    FreedHeld(x.s, a, p);
  }

  lemma FreesUsed(x: State, a: nat, y: State)
    requires WF(x.s) && a in x.s.blk && Frees(x, a, y) && x.s.blk[a].size < WORD
    ensures y.used == (x.used + (WORD - x.s.blk[a].size)) % WORD
    ensures y.lost == x.lost + if Freeable(x.s.blk, a) then 0 else x.s.blk[a].size
  {
    hide WF, Retype, Misled, Told, FreedBy, AstrayBy;
  }

  lemma FreeWorks(x: State, a: nat, y: State)
    requires Sound(x) && a in x.s.blk && Frees(x, a, y) && Freeable(x.s.blk, a) && !Misled(x.mem, x.s, a)
    ensures WF(y.s) && Tidy(y.s) && SameArena(x.s, y.s) && Held(y.s) + x.s.blk[a].size == Held(x.s)
    ensures GivenBack(x.s, y.s, a) && Told(y) && !y.astray
  {
    hide WF, Tidy, Held, Forward, Freed, GivenBack, Misled, Sight, Told, LiveSame, FreeTouches, AtLookBack;
    FreedAnswers(x.mem, y.mem, x.s, y.s, a);
    FreedSound(x, a, Sight(x.mem, x.s, a));
  }

  lemma FreeRefused(x: State, a: nat, y: State)
    requires Sound(x) && a in x.s.blk && Frees(x, a, y) && !Freeable(x.s.blk, a)
    ensures WF(y.s) && Tidy(y.s) && SameArena(x.s, y.s) && Held(y.s) == Held(x.s) && Told(y) && !y.astray
  {
    hide WF, Tidy, Held, Retype, Mirrors, KeysOf;
    if LiveAt(x.s.blk, a) {
      RetypeSound(x.s, a, Live(x.s.blk[a].kind.typ, true));
    }
  }

  lemma FreeSound(x: State, a: nat, y: State)
    requires Sound(x) && Next(x, Event.Free(a), y) && !Strays(x, Event.Free(a))
    ensures Sound(y) && SameArena(x.s, y.s)
  {
    hide WF, Tidy, Held, Frees, SameArena, GivenBack, Misled, Told;
    HeldFits(x.s);
    FreesUsed(x, a, y);
    if Freeable(x.s.blk, a) {
      FreeWorks(x, a, y);
      TakeWord(x.used, x.lost, x.s.blk[a].size);
    } else {
      FreeRefused(x, a, y);
      LoseWord(x.used, x.lost, x.s.blk[a].size);
    }
  }

  lemma RetaggedSound(s: Heap)
    requires WF(s) && Tidy(s)
    ensures var t := Retagged(s); WF(t) && Tidy(t) && Held(t) == Held(s) && SameArena(s, t)
  {
    hide WF, Tidy, Held;
    RetaggedKeeps(s);
    RetaggedHeld(s);
  }

  lemma RetaggedHeld(s: Heap)
    ensures Held(Retagged(s)) == Held(s)
  {
  }

  /** Every action keeps the invariant, but for a free that is led astray. */
  lemma NextSound(x: State, e: Event, y: State)
    requires Sound(x) && Next(x, e, y) && !Strays(x, e)
    ensures Sound(y) && SameArena(x.s, y.s)
  {
    hide WF, Tidy, Held, Retype, Allocates, Frees, Retagged, Mirrors, KeysOf, Misled, FeetOnly, SameOutside;
    match e
    case Alloc(typ, request) => AllocSound(x, typ, request, y);
    case Link(a) => RetypeSound(x.s, a, Live(x.s.blk[a].kind.typ, true));
    case Store(a) =>
    case Free(a) => FreeSound(x, a, y);
    case Mint =>
    case Save => RetaggedSound(x.s);
  }

  // ---- runs ----------------------------------------------------------------------------

  // A heap as it is created, with a sound size.
  ghost predicate Created(x: State) {
    exists w: nat, initial: nat, max: nat :: CreatedAs(x, w, initial, max)
  }

  /** xs are the states a heap goes through from its creation as the client does es. */
  ghost predicate Trace(xs: seq<State>, es: seq<Event>) {
    && |xs| == |es| + 1 && Created(xs[0])
    && forall i: nat {:trigger es[i]} :: i < |es| ==> Goes(xs[i], es[i], xs[i + 1])
  }

  // One action, of which nothing is asked once a free was led astray.
  ghost predicate Goes(x: State, e: Event, y: State) { WF(x.s) && !x.astray ==> Next(x, e, y) }

  /** None of the first n actions is a free that the tag in front of its block leads
      astray. */
  ghost predicate Straight(xs: seq<State>, es: seq<Event>, n: nat) {
    |xs| == |es| + 1 && n <= |es| && forall i: nat {:trigger es[i]} :: i < n && WF(xs[i].s) ==> !Strays(xs[i], es[i])
  }

  lemma CreatedSound(x: State)
    requires Created(x)
    ensures Sound(x)
  {
    hide WF, Tidy, Fresh, RootSafe;
    var w: nat, initial: nat, max: nat :| CreatedAs(x, w, initial, max);
    FreshKeeps(w, max, initial + 8);
  }

  lemma StraightLess(xs: seq<State>, es: seq<Event>, n: nat, k: nat)
    requires Straight(xs, es, n) && k <= n
    ensures Straight(xs, es, k)
    ensures k < n && WF(xs[k].s) ==> !Strays(xs[k], es[k])
  {
  }

  /** In every state of every run the blocks tile the arena, the free list holds
      exactly the free blocks, free blocks are coalesced and tagged, the bytes
      handed out are accounted for, and the arena never shrinks or passes its
      ceiling, as long as no free was led astray. */
  lemma {:induction false} RunSound(xs: seq<State>, es: seq<Event>, i: nat)
    requires Trace(xs, es) && i < |xs| && Straight(xs, es, i)
    ensures Sound(xs[i]) && SameArena(xs[0].s, xs[i].s)
  {
    hide Sound, Next, Created, Strays, Straight;
    if i == 0 {
      CreatedSound(xs[0]);
    } else {
      StraightLess(xs, es, i, i - 1);
      RunSound(xs, es, i - 1);
      assert Goes(xs[i - 1], es[i - 1], xs[i]);
      SoundWF(xs[i - 1]);
      NextSound(xs[i - 1], es[i - 1], xs[i]);
    }
  }

  lemma SoundWF(x: State)
    requires Sound(x)
    ensures WF(x.s) && !x.astray && Told(x)
  {
  }

  /** The figures the key block keeps are exact: free and allocated bytes and the
      key block itself make up the arena, the free entries are the blocks on the
      list, and the count of bytes handed out is that of live blocks exactly when
      no bytes were lost to refused frees. */
  lemma RunAccounts(xs: seq<State>, es: seq<Event>, i: nat)
    requires Trace(xs, es) && i < |xs| && Straight(xs, es, i)
    ensures var x := xs[i]; var t := Sum(x.s);
      && BASE + t.freeSize + t.allocSize == x.s.end <= x.s.max
      && t.freeItems == |x.s.free|
      && (x.used == t.allocSize <==> x.lost % WORD == 0)
  {
    hide WF, Tidy, Sum;
    RunSound(xs, es, i);
    Conservation(xs[i].s);
    HeldFits(xs[i].s);
    LostWord(xs[i].used, xs[i].lost, Held(xs[i].s));
  }

  lemma LostWord(used: nat, lost: nat, held: nat)
    requires used < WORD && held < WORD && (used + lost) % WORD == held
    ensures used == held <==> lost % WORD == 0
  {
  }

  /** Two adjacent free blocks exist only if the lower one is too small for a tag. */
  lemma RunCoalesced(xs: seq<State>, es: seq<Event>, i: nat, a: nat)
    requires Trace(xs, es) && i < |xs| && Straight(xs, es, i)
    requires FreeAt(xs[i].s.blk, a) && FreeAt(xs[i].s.blk, EndOf(xs[i].s.blk, a))
    ensures xs[i].s.blk[a].size < FootMin(xs[i].s.w)
  {
    hide WF;
    RunSound(xs, es, i);
    var s := xs[i].s;
    assert TidyAt(s, a);
    SoundTiles(xs[i]);
    NothingAtEnd(s.w, s.end, s.blk);
  }

  lemma SoundTiles(x: State)
    requires Sound(x)
    ensures Tiles(x.s.w, x.s.end, x.s.blk)
  {
  }

  // ---- a free led astray ---------------------------------------------------------------------

  // One free of a sound state: what is described afterwards.
  lemma FreeExact(x: State, a: nat, y: State)
    requires Sound(x) && Next(x, Event.Free(a), y) && Freeable(x.s.blk, a)
    ensures y.astray <==> Misled(x.mem, x.s, a)
    ensures !Misled(x.mem, x.s, a) ==> Describes(y, y.s) && FreedInto(x.s, y.s, a)
    ensures Misled(x.mem, x.s, a) && Steady(x.mem, x.s, a) ==>
      forall t: Heap :: Describes(y, t) ==> !FreedInto(x.s, t, a) && !Contained(x.mem, x.s, a)
  {
    hide WF, Tidy, Held, Forward, Freed, FreedInto, Misled, Sight, Steady, Contained, Mirrors, KeysOf, LiveSame,
      FreeTouches, AtLookBack, WentAstray, Answers, Tells;
    if !Misled(x.mem, x.s, a) {
      FreedAnswers(x.mem, y.mem, x.s, y.s, a);
      FreedMerges(x.s, a, Sight(x.mem, x.s, a));
    } else if Steady(x.mem, x.s, a) {
      forall t: Heap | Describes(y, t)
        ensures !FreedInto(x.s, t, a) && !Contained(x.mem, x.s, a)
      {
        AstrayRuins(x.mem, x.s, a, y.mem, y.keys, t);
      }
    }
  }

  /** What a run finds after a free, as long as none before it was led astray: some heap
      with the block given back is described if and only if this one was not either;
      and where the merge it led to overwrote no other header, no heap at all is. */
  lemma RunFree(xs: seq<State>, es: seq<Event>, k: nat)
    requires Trace(xs, es) && k < |es| && Straight(xs, es, k) && es[k].Free? && Freeable(xs[k].s.blk, es[k].a)
    ensures |xs| == |es| + 1 && WF(xs[k].s)
    ensures var x, y, a := xs[k], xs[k + 1], es[k].a;
      && (y.astray <==> Strays(x, es[k]))
      && (Steady(x.mem, x.s, a) ==>
            ((exists t: Heap :: Describes(y, t) && FreedInto(x.s, t, a)) <==> !Strays(x, es[k])))
      && (Strays(x, es[k]) && Steady(x.mem, x.s, a) && Contained(x.mem, x.s, a) ==> forall t: Heap :: !Describes(y, t))
  {
    hide Sound, Next, Straight, WF, Misled, Steady, Contained, Forward, Describes, FreedInto, Trace;
    TraceLength(xs, es);
    TraceStep(xs, es, k);
    FreeExact(xs[k], es[k].a, xs[k + 1]);
  }

  // ---- allocation in a run ---------------------------------------------------------------

  lemma {:induction false} CountWithin(w: nat, end: nat, m: Blocks, a: nat, x: nat)
    requires Tiles(w, end, m) && a in m && x in m && a <= x
    ensures Count(end, m, x).freeSize <= Count(end, m, a).freeSize
    decreases end - a
  {
    CountNext(w, end, m, a);
    if a < x {
      FitsTiles(w, end, m, x);
      assert Ordered(m);
      CountWithin(w, end, m, EndOf(m, a), x);
    }
  }

  lemma {:induction false} RunCounted(end: nat, m: Blocks, a: nat)
    ensures RunFrom(end, m, a) <= Count(end, m, a).freeSize
    decreases if a <= end then end - a else 0
  {
    if FreeAt(m, a) && 0 < m[a].size && EndOf(m, a) <= end {
      RunCounted(end, m, EndOf(m, a));
    }
  }

  // A run of free blocks is no longer than all the free bytes.
  lemma RunsFit(s: Heap, n: nat)
    requires WF(s) && HasRun(s.end, s.blk, n)
    ensures n <= Sum(s).freeSize
  {
    hide Listed, Tagged, RunFrom, Count;
    var a :| FreeAt(s.blk, a) && n <= RunFrom(s.end, s.blk, a);
    RunCounted(s.end, s.blk, a);
    FitsTiles(s.w, s.end, s.blk, a);
    CountWithin(s.w, s.end, s.blk, BASE, a);
  }

  /** The early check against the ceiling refuses nothing that could be served, as
      long as no bytes were lost to refused frees. */
  lemma CeilingHonest(x: State, n: nat)
    requires Sound(x) && x.lost % WORD == 0 && CanServe(x.s, n)
    ensures !OverLimit(x, n)
  {
    hide WF, Tidy, Sum, HasRun;
    Conservation(x.s);
    HeldFits(x.s);
    LostWord(x.used, x.lost, Held(x.s));
    if HasRun(x.s.end, x.s.blk, n) {
      RunsFit(x.s, n);
    }
  }

  /** What an allocation answers in a sound state.  It is refused only over the
      ceiling or for want of room, and, when no bytes were lost, exactly when no
      run of free blocks is long enough and the arena cannot grow by the request. */
  lemma ReplyExact(x: State, request: nat)
    requires Sound(x)
    ensures var n := Rounded(x.s.w, request); var g := Reply(x, request);
      && (g.Deny? ==> g.why == OverCeiling || g.why == ArenaFull)
      && (g.Deny? && x.lost % WORD == 0 ==> !CanServe(x.s, n))
      && (g.Give? ==> CanServe(x.s, n) && n <= g.size < n + MinBlock(x.s.w) && !LiveAt(x.s.blk, g.a))
  {
    hide WF, Tidy, Held, CanServe, OverLimit, Attempt, SamePlace;
    var n := Rounded(x.s.w, request);
    RoundedFits(x.s.w, request);
    AttemptSound(x, n);
    if CanServe(x.s, n) && x.lost % WORD == 0 {
      CeilingHonest(x, n);
    }
  }

  /** The rounded size covers the payload and its header unless the sum wraps. */
  lemma RoundedCovers(w: nat, request: nat)
    requires ValidWidth(w) && request < WORD
    ensures request + HeaderSize(w) <= Rounded(w, request) <==> request + HeaderSize(w) < WORD
  {
  }

  /** The rounded size in numbers: payload and header, at least a minimum block. */
  lemma RoundedNumbers(w: nat, request: nat)
    requires request + 1 + w < 0x1_0000_0000_0000_0000
    ensures Rounded(w, request) == if request <= 2 * w then 3 * w + 2 else request + 1 + w
  {
  }

  /** With no bytes lost a request is refused for the ceiling exactly when it and the
      bytes in live blocks come to more than that. */
  lemma CeilingExact(x: State, request: nat)
    requires Sound(x) && x.lost % WORD == 0
    requires Sum(x.s).allocSize + Rounded(x.s.w, request) < 0x1_0000_0000_0000_0000
    ensures Reply(x, request) == Deny(OverCeiling) <==> Sum(x.s).allocSize + Rounded(x.s.w, request) > x.s.max
  {
    hide WF, Tidy, Sum, Rounded, CanServe, Attempt, SamePlace, Told;
    HeldFits(x.s);
    LostWord(x.used, x.lost, Held(x.s));
    RoundedFits(x.s.w, request);
    AttemptSound(x, Rounded(x.s.w, request));
  }

  /** Where the sum wraps and the request is not refused, the block granted is smaller
      than the request. */
  lemma WrappedGrant(x: State, request: nat)
    requires Sound(x) && request < WORD <= request + HeaderSize(x.s.w)
    requires var n := Rounded(x.s.w, request); CanServe(x.s, n) && !OverLimit(x, n)
    ensures Reply(x, request).Give? && Reply(x, request).size < request
  {
    hide WF, Tidy, Held, CanServe, OverLimit, Attempt, SamePlace, Told;
    RoundedFits(x.s.w, request);
    WidthOf(x);
    AttemptSound(x, Rounded(x.s.w, request));
  }

  lemma WidthOf(x: State)
    requires Sound(x)
    ensures ValidWidth(x.s.w)
  {
  }

  /** It happens on every heap just created. */
  lemma WrappedOnCreation(x: State)
    requires Created(x)
    ensures WF(x.s) && Reply(x, WORD - 1).Give? && Reply(x, WORD - 1).size < WORD - 1
  {
    hide WF, Tidy, Held, OverLimit, Told;
    CreatedSound(x);
    SoundWF(x);
    WidthOf(x);
    CreatedRoom(x);
    CeilingHonest(x, Rounded(x.s.w, WORD - 1));
    WrappedGrant(x, WORD - 1);
  }

  lemma CreatedRoom(x: State)
    requires Created(x)
    ensures x.lost == 0 && CanServe(x.s, MinBlock(x.s.w))
  {
    var w: nat, initial: nat, max: nat :| CreatedAs(x, w, initial, max);
    var m, end := x.s.blk, x.s.end;
    assert FreeAt(m, BASE) && MinBlock(w) <= m[BASE].size <= RunFrom(end, m, BASE);
  }

  predicate Stays(m: Blocks, n: Blocks, b: nat) { b in m && b in n && n[b] == m[b] }

  /** The block handed out is live afterwards, typed and not linked, lies apart from
      every other live block, and those are where they were. */
  lemma AllocApart(x: State, typ: nat, request: nat, y: State, b: nat)
    requires Sound(x) && Next(x, Event.Alloc(typ, request), y) && Reply(x, request).Give?
    ensures var g := Reply(x, request);
      && LiveAt(y.s.blk, g.a) && y.s.blk[g.a] == Block(g.size, Live(typ, false))
      && (LiveAt(x.s.blk, b) ==> Stays(x.s.blk, y.s.blk, b) && (EndOf(x.s.blk, b) <= g.a || g.a + g.size <= b))
  {
    hide WF, Tidy, Held, HasRun, OverLimit, Attempt, SamePlace;
    RoundedFits(x.s.w, request);
    AttemptSound(x, Rounded(x.s.w, request));
    AllocSound(x, typ, request, y);
    var g := Reply(x, request);
    if LiveAt(x.s.blk, b) {
      SoundTiles(y);
      Handover(x.s, Attempt(x, Rounded(x.s.w, request)).s, g.a, Rounded(x.s.w, request), b);
      TilesApart(y.s.w, y.s.end, y.s.blk, g.a, b);
    }
  }

  lemma Handover(s: Heap, t: Heap, a: nat, n: nat, b: nat)
    requires Allocator.Handed(s, t, a, n) && LiveAt(s.blk, b)
    ensures b != a && LiveAt(t.blk, b) && t.blk[b] == s.blk[b]
  {
  }

  lemma TilesApart(w: nat, end: nat, m: Blocks, a: nat, b: nat)
    requires Tiles(w, end, m) && a in m && b in m && a != b
    ensures EndOf(m, b) <= a || EndOf(m, a) <= b
  {
  }

  // ---- what lasts ------------------------------------------------------------------------

  // A live block is where it was, as large and of the same type; linking lasts.
  predicate Lasts(m: Blocks, n: Blocks, b: nat) {
    LiveAt(m, b) && LiveAt(n, b) && n[b].size == m[b].size && n[b].kind.typ == m[b].kind.typ
    && (m[b].kind.linked ==> n[b].kind.linked)
  }

  // The action e gives the block b back.
  predicate GivesBack(x: State, e: Event, b: nat) { e == Event.Free(b) && Freeable(x.s.blk, b) }

  lemma AllocLasts(x: State, typ: nat, request: nat, y: State, b: nat)
    requires Sound(x) && Next(x, Event.Alloc(typ, request), y) && LiveAt(x.s.blk, b)
    ensures Lasts(x.s.blk, y.s.blk, b)
  {
    hide WF, Tidy, Held, HasRun, OverLimit, Attempt;
    RoundedFits(x.s.w, request);
    AttemptSound(x, Rounded(x.s.w, request));
    if Reply(x, request).Give? {
      AllocApart(x, typ, request, y, b);
    }
  }

  lemma FreeLasts(x: State, a: nat, y: State, b: nat)
    requires Sound(x) && Next(x, Event.Free(a), y) && !Strays(x, Event.Free(a))
    requires LiveAt(x.s.blk, b) && !(a == b && Freeable(x.s.blk, a))
    ensures Lasts(x.s.blk, y.s.blk, b)
  {
    hide WF, Tidy, Held, Forward, Freed, Answers, RootSafe, Misled, Told;
    if Freeable(x.s.blk, a) {
      FreeWorks(x, a, y);
      assert b in x.s.blk - {a};
    }
  }

  lemma NextLasts(x: State, e: Event, y: State, b: nat)
    requires Sound(x) && Next(x, e, y) && !Strays(x, e) && LiveAt(x.s.blk, b) && !GivesBack(x, e, b)
    ensures Lasts(x.s.blk, y.s.blk, b)
  {
    hide Sound, Allocates, Frees, Misled, Told, FeetOnly, SameOutside, WF;
    match e
    case Alloc(typ, request) => AllocLasts(x, typ, request, y, b);
    case Link(a) =>
    case Store(a) =>
    case Free(a) => FreeLasts(x, a, y, b);
    case Mint =>
    case Save =>
  }

  // How often b was given back from state i to state j of a run.
  function Returns(xs: seq<State>, es: seq<Event>, b: nat, i: nat, j: nat): nat
    requires |xs| == |es| + 1 && i <= j < |xs|
  {
    if i == j then 0 else Returns(xs, es, b, i, j - 1) + if GivesBack(xs[j - 1], es[j - 1], b) then 1 else 0
  }

  lemma TraceStep(xs: seq<State>, es: seq<Event>, j: nat)
    requires Trace(xs, es) && j < |es| && Straight(xs, es, j)
    ensures Sound(xs[j]) && WF(xs[j].s) && Next(xs[j], es[j], xs[j + 1])
  {
    hide Sound, Next, Straight;
    RunSound(xs, es, j);
    SoundWF(xs[j]);
    assert Goes(xs[j], es[j], xs[j + 1]);
  }

  /** A live block stays at its offset, with its size and type, until it is given
      back, whatever else is allocated, freed or grown meanwhile. */
  lemma {:induction false} RunLasts(xs: seq<State>, es: seq<Event>, b: nat, i: nat, j: nat)
    requires Trace(xs, es) && i <= j < |xs| && Straight(xs, es, j) && LiveAt(xs[i].s.blk, b)
    requires Returns(xs, es, b, i, j) == 0
    ensures Lasts(xs[i].s.blk, xs[j].s.blk, b)
    decreases j
  {
    hide Sound, Next, Trace, Straight, Strays, WF;
    TraceLength(xs, es);
    if i < j {
      StraightLess(xs, es, j, j - 1);
      RunLasts(xs, es, b, i, j - 1);
      TraceStep(xs, es, j - 1);
      NextLasts(xs[j - 1], es[j - 1], xs[j], b);
    }
  }

  lemma TraceLength(xs: seq<State>, es: seq<Event>)
    requires Trace(xs, es)
    ensures |xs| == |es| + 1
  {
  }

  lemma NextCounts(x: State, e: Event, y: State, b: nat)
    requires Sound(x) && Next(x, e, y) && x.stamp != 0
    ensures y.stamp == x.stamp
    ensures Generation(y.frees, b) == Generation(x.frees, b) + if GivesBack(x, e, b) then 1 else 0
  {
    hide WF, Tidy, Held, Retype, Attempt, Forward, Freed, Answers, OverLimit;
  }

  /** Once a heap has its stamp it keeps it, and counts every return of every block. */
  lemma {:induction false} RunCounts(xs: seq<State>, es: seq<Event>, b: nat, i: nat, j: nat)
    requires Trace(xs, es) && i <= j < |xs| && Straight(xs, es, j) && xs[i].stamp != 0
    ensures |xs| == |es| + 1 && xs[j].stamp == xs[i].stamp
    ensures Generation(xs[j].frees, b) == Generation(xs[i].frees, b) + Returns(xs, es, b, i, j)
    decreases j
  {
    hide Sound, Next, Trace, Generation, Straight, Strays, WF;
    TraceLength(xs, es);
    if i < j {
      StraightLess(xs, es, j, j - 1);
      RunCounts(xs, es, b, i, j - 1);
      TraceStep(xs, es, j - 1);
      NextCounts(xs[j - 1], es[j - 1], xs[j], b);
    }
  }

  /** An inode minted for a linked live block in state i still names it in state j
      exactly when the block at that address was given back a multiple of 65536
      times in between; and while it was not given back at all, the block it names
      is still there, live and linked. */
  lemma RunInode(xs: seq<State>, es: seq<Event>, b: nat, i: nat, j: nat)
    requires Trace(xs, es) && i <= j < |xs| && Straight(xs, es, j) && xs[i].stamp != 0
    requires Freeable(xs[i].s.blk, b)
    ensures |xs| == |es| + 1 && 0 < b < GENERATION_UNIT
    ensures var inode := Pack(xs[i].stamp, Generation(xs[i].frees, b), b);
      && AddressPart(inode) == b
      && (Matches(inode, xs[j].stamp, xs[j].frees) <==> Returns(xs, es, b, i, j) % 0x1_0000 == 0)
      && (Returns(xs, es, b, i, j) == 0 ==> Freeable(xs[j].s.blk, b) && Lasts(xs[i].s.blk, xs[j].s.blk, b))
  {
    hide Sound, Next, Trace, Generation, Matches, Pack, Straight;
    StraightLess(xs, es, j, i);
    RunSound(xs, es, i);
    BlockAddress(xs[i], b);
    RunCounts(xs, es, b, i, j);
    MatchesLater(xs[i].stamp, xs[i].frees, b, xs[j].stamp, xs[j].frees);
    if Returns(xs, es, b, i, j) == 0 {
      RunLasts(xs, es, b, i, j);
    }
  }

  lemma BlockAddress(x: State, b: nat)
    requires Sound(x) && b in x.s.blk
    ensures 0 < b < 0x1_0000_0000
  {
    hide Tidy, Held, Listed, Tagged;
    FitsTiles(x.s.w, x.s.end, x.s.blk, b);
  }

  // ---- the first allocation ----------------------------------------------------------------

  // The action does not free the first allocation.
  predicate SparesRoot(x: State, e: Event) { e.Free? ==> e.a != x.s.root }

  lemma NextRoot(x: State, e: Event, y: State)
    requires Sound(x) && RootSafe(x.s) && Next(x, e, y) && SparesRoot(x, e) && !Strays(x, e)
    ensures RootSafe(y.s) && (x.s.root != 0 ==> y.s.root == x.s.root)
  {
    hide WF, Tidy, Held, HasRun, OverLimit, Attempt, Forward, Freed, Answers, Frees;
    match e
    case Alloc(typ, request) => AllocRoot(x, typ, request, y);
    case Link(a) =>
    case Store(a) =>
    case Free(a) => FreeRoot(x, a, y);
    case Mint =>
    case Save =>
  }

  lemma AllocRoot(x: State, typ: nat, request: nat, y: State)
    requires Sound(x) && RootSafe(x.s) && Next(x, Event.Alloc(typ, request), y)
    ensures RootSafe(y.s) && (x.s.root != 0 ==> y.s.root == x.s.root)
  {
    hide WF, Tidy, Held, HasRun, OverLimit, Attempt;
    RoundedFits(x.s.w, request);
    AttemptSound(x, Rounded(x.s.w, request));
    if LiveAt(x.s.blk, x.s.root) {
      AllocLasts(x, typ, request, y, x.s.root);
    }
  }

  lemma FreeRoot(x: State, a: nat, y: State)
    requires Sound(x) && RootSafe(x.s) && Next(x, Event.Free(a), y) && a != x.s.root && !Strays(x, Event.Free(a))
    ensures RootSafe(y.s) && (x.s.root != 0 ==> y.s.root == x.s.root)
  {
    hide WF, Tidy, Held, Forward, Freed, Answers;
    if Freeable(x.s.blk, a) {
      FreeWorks(x, a, y);
    }
    if LiveAt(x.s.blk, x.s.root) {
      FreeLasts(x, a, y, x.s.root);
    }
  }

  /** In a run that never frees the first allocation the key block goes on naming
      it, and it stays live. */
  lemma {:induction false} RunRoot(xs: seq<State>, es: seq<Event>, i: nat)
    requires Trace(xs, es) && i < |xs| && Straight(xs, es, i)
    requires forall k: nat {:trigger es[k]} :: k < |es| ==> SparesRoot(xs[k], es[k])
    ensures RootSafe(xs[i].s) && (0 < i && xs[i - 1].s.root != 0 ==> xs[i].s.root == xs[i - 1].s.root)
  {
    hide Sound, Next, Straight, Strays, WF, Created;
    if i == 0 {
      CreatedRoot(xs[0]);
    } else {
      StraightLess(xs, es, i, i - 1);
      RunRoot(xs, es, i - 1);
      TraceStep(xs, es, i - 1);
      assert SparesRoot(xs[i - 1], es[i - 1]);
      NextRoot(xs[i - 1], es[i - 1], xs[i]);
    }
  }

  lemma CreatedRoot(x: State)
    requires Created(x)
    ensures RootSafe(x.s)
  {
    var w: nat, initial: nat, max: nat :| CreatedAs(x, w, initial, max);
  }
}
